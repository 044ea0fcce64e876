/**
 * The simplified engine of the Monte Carlo simulation as an object whose
 * methods update its fields in place. Its catalogue is the configuration's,
 * which it never extends; every method is proved against the session
 * functions of HeadlessModel and Model, read through `Snapshot()`.
 */
module HeadlessGame {
  import opened Types
  import opened Powers
  import opened Deck
  import opened Stories
  import opened Model
  import opened HeadlessModel
  import opened GameEngine

  class HeadlessEngine {
    const cfg: Config
    var powers: map<string, Power>
    var activeBoosters: seq<ActiveBooster>
    var deck: seq<string>
    var history: seq<HistoryEntry>
    var cardCount: int
    var triggeredStories: set<string>
    var completedStories: set<string>
    var acceptedStories: set<string>
    var rejectedStories: set<string>
    var storyCardsMixed: set<string>

    /** The fields as a session value; the catalogue is the configuration's. */
    function Snapshot(): State
      reads this
    {
      State(powers, activeBoosters, deck, cfg.cards, history, cardCount, triggeredStories, completedStories,
            acceptedStories, rejectedStories, storyCardsMixed)
    }

    constructor (config: Config, us: seq<real>)
      requires ShuffleSupply(us, |config.cards|)
      ensures cfg == config && Snapshot() == Initial(config, config.cards, us)
    {
      cfg := config;
      new;
      Init(us);
    }

    /** `init`, as in the main engine. */
    method Init(us: seq<real>)
      modifies this
      requires ShuffleSupply(us, |cfg.cards|)
      ensures powers == InitialPowers(cfg.powers) && activeBoosters == []
      ensures deck == Shuffle(InitialDeck(cfg.cards, cfg.entryCard, cfg.stories), us)
      ensures history == [] && cardCount == 0
      ensures triggeredStories == {} && completedStories == {} && acceptedStories == {} && rejectedStories == {}
      ensures storyCardsMixed == {}
    {
      powers := InitialPowerTable(cfg.powers);
      activeBoosters := [];
      Deal(us);
      ResetProgress();
    }

    /** The deck of `init`: filtered, then shuffled in place. */
    method Deal(us: seq<real>)
      modifies this`deck
      requires ShuffleSupply(us, |cfg.cards|)
      ensures deck == Shuffle(InitialDeck(cfg.cards, cfg.entryCard, cfg.stories), us)
    {
      deck := DealDeck(cfg.cards, cfg.entryCard, cfg.stories);
      ShuffleDeck(us);
    }

    /** The history, the counter and the story sets of `init`, all empty. */
    method ResetProgress()
      modifies this`history, this`cardCount, this`triggeredStories, this`completedStories
      modifies this`acceptedStories, this`rejectedStories, this`storyCardsMixed
      ensures history == [] && cardCount == 0
      ensures triggeredStories == {} && completedStories == {} && acceptedStories == {} && rejectedStories == {}
      ensures storyCardsMixed == {}
    {
      history, cardCount := [], 0;
      triggeredStories, completedStories, acceptedStories, rejectedStories, storyCardsMixed := {}, {}, {}, {}, {};
    }

    /** `shuffleDeck`: the Fisher-Yates loop, in place on the deck. */
    method ShuffleDeck(us: seq<real>)
      modifies this`deck
      requires ShuffleSupply(us, |deck|)
      ensures deck == Shuffle(old(deck), us)
    {
      var d := deck;
      var i := |d| - 1;
      while i > 0
        invariant -1 <= i < |d| && |d| == |old(deck)|
        invariant ShuffleFrom(d, us, i) == Shuffle(old(deck), us)
        decreases i
      {
        var j := Pick(us[|d| - 1 - i], i);
        ShuffleStep(d, us, i, j);
        d := d[i := d[j]][j := d[i]];
        i := i - 1;
      }
      deck := d;
    }

    /** `draw`, refilling from the configuration's catalogue. */
    method Draw(us: seq<real>) returns (c: Option<Card>)
      modifies this`deck, this`cardCount
      requires deck == [] ==> ShuffleSupply(us, |cfg.cards|)
      ensures (Snapshot(), c) == Model.Draw(old(Snapshot()), us)
    {
      if |deck| == 0 {
        deck := CardIds(cfg.cards);
        ShuffleDeck(us);
      }
      if |deck| == 0 {
        c := None;
      } else {
        var id := deck[0];
        deck := deck[1..];
        c := FindCard(cfg.cards, id);
      }
      cardCount := cardCount + 1;
    }

    /** `applyEffects`: each effect on a known power, clamped to the record's
        `max`, then to its `min`. */
    method ApplyEffects(effects: seq<Effect>)
      modifies this`powers
      ensures powers == ApplyPlainEffects(old(powers), effects)
    {
      for i := 0 to |effects|
        invariant ApplyPlainEffects(powers, effects[i..]) == ApplyPlainEffects(old(powers), effects)
      {
        assert effects[i..][1..] == effects[i + 1..];
        var e := effects[i];
        if e.power in powers {
          var p := powers[e.power];
          var v := p.value + e.delta;
          if v > p.max { v := p.max; }
          if v < p.min { v := p.min; }
          powers := powers[e.power := p.(value := v)];
        }
      }
    }

    /** `choose(card, direction)`. */
    method Choose(card: Card, dir: Direction)
      modifies this
      ensures Snapshot() == SimpleTurn(cfg, old(Snapshot()), card, dir)
    {
      var choice := if dir == Left then card.left else card.right;
      Record(choice);
      history := history + [HistoryEntry(card.id, dir)];
      CompleteStories(card.id);
      TriggerStories();
    }

    /** Effects, follow-up, and the accepted and rejected ids of a choice. */
    method Record(choice: Choice)
      modifies this`powers, this`deck, this`acceptedStories, this`rejectedStories
      ensures powers == ApplyPlainEffects(old(powers), choice.effects)
      ensures deck == if choice.followUp.Some? then [choice.followUp.value] + old(deck) else old(deck)
      ensures acceptedStories == old(acceptedStories) + Named(choice.acceptStory)
      ensures rejectedStories == old(rejectedStories) + Named(choice.rejectStory)
    {
      ApplyEffects(choice.effects);
      if choice.followUp.Some? {
        deck := [choice.followUp.value] + deck;
      }
      if choice.acceptStory.Some? {
        acceptedStories := acceptedStories + {choice.acceptStory.value};
      }
      if choice.rejectStory.Some? {
        rejectedStories := rejectedStories + {choice.rejectStory.value};
      }
    }

    /** The completion pass of `choose`. */
    method CompleteStories(cardId: string)
      modifies this`completedStories
      ensures completedStories == CompletionPass(cfg.stories, triggeredStories, old(completedStories), cardId)
    {
      for i := 0 to |cfg.stories|
        invariant CompletionPass(cfg.stories[i..], triggeredStories, completedStories, cardId) ==
                  CompletionPass(cfg.stories, triggeredStories, old(completedStories), cardId)
      {
        assert cfg.stories[i..][1..] == cfg.stories[i + 1..];
        var story := cfg.stories[i];
        if story.id in triggeredStories && story.id !in completedStories {
          var sq := MixList(story);
          if |sq| > 0 {
            var lastCardId := RefId(sq[|sq| - 1]);
            if lastCardId == cardId {
              completedStories := completedStories + {story.id};
            }
          }
        }
      }
    }

    /** The simplified trigger pass of `choose`: ready stories are only
        marked triggered. */
    method TriggerStories()
      modifies this`triggeredStories
      ensures Snapshot() == SimpleTriggerFrom(cfg, old(Snapshot()), 0)
    {
      for i := 0 to |cfg.stories|
        invariant SimpleTriggerFrom(cfg, Snapshot(), i) == SimpleTriggerFrom(cfg, old(Snapshot()), 0)
      {
        var story := cfg.stories[i];
        if story.id !in triggeredStories && Ready(story, |history|, completedStories) {
          triggeredStories := triggeredStories + {story.id};
        }
      }
    }

    /** `isGameOver`: `some` over the configured powers. */
    method IsGameOver() returns (over: bool)
      ensures over == IsOverAtBase(cfg, Snapshot())
    {
      for i := 0 to |cfg.powers|
        invariant forall k :: 0 <= k < i ==> !AtBaseBound(Snapshot(), cfg.powers[k])
      {
        var p := cfg.powers[i];
        if p.name in powers {
          var current := powers[p.name].value;
          if current <= p.min || current >= p.max {
            return true;
          }
        }
      }
      return false;
    }

    /** `getGameOverInfo`. */
    method GetGameOverInfo() returns (info: Option<GameOverInfo>)
      ensures info == BaseGameOverReport(cfg, Snapshot())
    {
      ghost var s := Snapshot();
      for i := 0 to |cfg.powers|
        invariant BaseReportFrom(cfg, s, i) == BaseReportFrom(cfg, s, 0)
      {
        var p := cfg.powers[i];
        if p.name in powers {
          var current := powers[p.name].value;
          if current <= p.min {
            return Some(GameOverInfo(p.name, current, Min, cardCount));
          }
          if current >= p.max {
            return Some(GameOverInfo(p.name, current, Max, cardCount));
          }
        }
      }
      return None;
    }
  }
}
