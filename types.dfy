/**
 * The game definition and session values of the card engine.
 *
 * A game definition is handed over already parsed: powers with their ranges,
 * the card catalogue, the boosters and the stories. Identifiers are strings;
 * an identifier that is absent (or empty, which the engine treats as absent
 * by its truthiness tests) is `None`.
 */
module Types {

  datatype Option<+T> = None | Some(value: T)

  /** One `{powerName: delta}` entry of a choice's effect list. */
  datatype Effect = Effect(power: string, delta: real)

  datatype Direction = Left | Right

  datatype Choice = Choice(
    effects: seq<Effect>,
    followUp: Option<string>,
    booster: Option<string>,
    acceptStory: Option<string>,
    rejectStory: Option<string>)

  datatype Card = Card(id: string, left: Choice, right: Choice)

  /** `power_cap`: raise the cap of `power` (or of every power, for "*") to `value`. */
  datatype PowerCap = PowerCap(power: string, value: real)

  /** The `type` of an effect modifier: "gain", "loss", or any other string. */
  datatype EffectKind = Gain | Loss | OtherKind(text: string)

  /** `effect_modifier`: scale gains or losses of `power` (or "*") by `multiplier`. */
  datatype EffectModifier = EffectModifier(power: string, kind: EffectKind, multiplier: real)

  /** A modifier object may carry a power cap, an effect modifier, both or neither. */
  datatype Modifier = Modifier(powerCap: Option<PowerCap>, effectModifier: Option<EffectModifier>)

  datatype Booster = Booster(id: string, modifiers: seq<Modifier>, duration: int)

  /** A booster copied into the active list, with the turns it has left. */
  datatype ActiveBooster = ActiveBooster(booster: Booster, remaining: int)

  /** An entry of a story's card list: a bare card id, or a full card object,
      possibly carrying `probability` and `mix_in_next`. */
  datatype CardRef =
    | Bare(id: string)
    | Embedded(card: Card, probability: Option<real>, mixInNext: Option<nat>)

  datatype Trigger = Trigger(afterCards: Option<int>, requiresCompleted: seq<string>)

  datatype Story = Story(
    id: string,
    trigger: Trigger,
    cards: seq<CardRef>,
    storyCards: Option<seq<CardRef>>,
    insertWindow: Option<int>,
    triggerCards: seq<Card>)

  datatype PowerConfig = PowerConfig(name: string, min: real, max: real)

  datatype Config = Config(
    powers: seq<PowerConfig>,
    cards: seq<Card>,
    boosters: seq<Booster>,
    stories: seq<Story>,
    entryCard: Option<string>)

  /** The engine's record for one power. */
  datatype Power = Power(value: real, min: real, max: real)

  datatype HistoryEntry = HistoryEntry(card: string, choice: Direction)

  /** A cap is a number, or unbounded for a power the configuration does not name. */
  datatype Cap = Finite(v: real) | Infinite

  datatype Boundary = Min | Max

  datatype GameOverInfo = GameOverInfo(power: string, value: real, boundary: Boundary, cardCount: int)

  function ChoiceOf(card: Card, dir: Direction): Choice
  {
    if dir == Left then card.left else card.right
  }

  /** The id a story card entry stands for, bare or embedded. */
  function RefId(r: CardRef): string
  {
    match r
    case Bare(id) => id
    case Embedded(c, _, _) => c.id
  }

  function RefIds(refs: seq<CardRef>): (ids: seq<string>)
    ensures |ids| == |refs|
    ensures forall k :: 0 <= k < |refs| ==> ids[k] == RefId(refs[k])
  {
    if refs == [] then [] else [RefId(refs[0])] + RefIds(refs[1..])
  }

  /** `story.story_cards || story.cards || []`: an existing `story_cards`
      array wins even when it is empty. */
  function MixList(s: Story): seq<CardRef>
  {
    if s.storyCards.Some? then s.storyCards.value else s.cards
  }

  function CardIds(cards: seq<Card>): (ids: seq<string>)
    ensures |ids| == |cards|
    ensures forall k :: 0 <= k < |cards| ==> ids[k] == cards[k].id
  {
    if cards == [] then [] else [cards[0].id] + CardIds(cards[1..])
  }

  /** `cards.find(c => c.id === id)`: the first card with that id. */
  function FindCard(cards: seq<Card>, id: string): (r: Option<Card>)
    ensures r.None? <==> forall k :: 0 <= k < |cards| ==> cards[k].id != id
    ensures r.Some? ==> exists k :: 0 <= k < |cards| && cards[k] == r.value && r.value.id == id &&
                          forall j :: 0 <= j < k ==> cards[j].id != id
  {
    if cards == [] then None
    else if cards[0].id == id then Some(cards[0])
    else
      var r := FindCard(cards[1..], id);
      assert r.Some? ==> exists k :: 0 <= k < |cards| - 1 && cards[1..][k] == r.value && r.value.id == id &&
                           forall j :: 0 <= j < k ==> cards[1..][j].id != id;
      r
  }

  /** `boosters.find(b => b.id === id)`: the first booster with that id. */
  function FindBooster(bs: seq<Booster>, id: string): (r: Option<Booster>)
    ensures r.None? <==> forall k :: 0 <= k < |bs| ==> bs[k].id != id
    ensures r.Some? ==> exists k :: 0 <= k < |bs| && bs[k] == r.value && r.value.id == id &&
                          forall j :: 0 <= j < k ==> bs[j].id != id
  {
    if bs == [] then None
    else if bs[0].id == id then Some(bs[0])
    else
      var r := FindBooster(bs[1..], id);
      assert r.Some? ==> exists k :: 0 <= k < |bs| - 1 && bs[1..][k] == r.value && r.value.id == id &&
                           forall j :: 0 <= j < k ==> bs[1..][j].id != id;
      r
  }

  /** The position of the first story with the given id, as `stories.find` picks it. */
  function FindStory(stories: seq<Story>, id: string): (r: Option<nat>)
    ensures r.None? <==> forall k :: 0 <= k < |stories| ==> stories[k].id != id
    ensures r.Some? ==> r.value < |stories| && stories[r.value].id == id &&
                          forall j :: 0 <= j < r.value ==> stories[j].id != id
  {
    if stories == [] then None
    else if stories[0].id == id then Some(0)
    else
      var r := FindStory(stories[1..], id);
      if r.Some? then Some(r.value + 1) else None
  }

  /** `config.powers.find(p => p.name === name)`: the first power configured
      under that name. */
  function FindPower(pcs: seq<PowerConfig>, name: string): (r: Option<PowerConfig>)
    ensures r.None? <==> forall k :: 0 <= k < |pcs| ==> pcs[k].name != name
    ensures r.Some? ==> exists k :: 0 <= k < |pcs| && pcs[k] == r.value && r.value.name == name &&
                          forall j :: 0 <= j < k ==> pcs[j].name != name
  {
    if pcs == [] then None
    else if pcs[0].name == name then Some(pcs[0])
    else
      var r := FindPower(pcs[1..], name);
      assert r.Some? ==> exists k :: 0 <= k < |pcs| - 1 && pcs[1..][k] == r.value && r.value.name == name &&
                           forall j :: 0 <= j < k ==> pcs[1..][j].name != name;
      r
  }
}
