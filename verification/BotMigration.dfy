/** Bot configurations of the first vocabulary turned into the second: five lists of rules into four bars of 24 slots. */
module BotMigration {
  import opened Wrappers

  const SET_COUNT := 4
  const SLOTS_PER_SET := 24
  const LEGACY_HOTKEY_COUNT := 22

  // ---------------------------------------------------------------- vocabulary

  datatype Base = Digit(n: nat) | F(n: nat)

  datatype Hotkey = Hotkey(shift: bool, base: Base)

  /** The first 22 hotkeys: 1 to 9, 0, then F1 to F12. */
  function LegacyHotkey(i: nat): Hotkey
    requires i < LEGACY_HOTKEY_COUNT
  {
    Hotkey(false, if i < 9 then Digit(i + 1) else if i == 9 then Digit(0) else F(i - 9))
  }

  datatype Condition = HitPoints(op: string, percent: int) | OtherCondition(text: string)

  datatype Target = Self | LowestMember | Member(characterId: string)

  datatype ActionV1 = SpellV1(spellId: string) | SupplyV1(supplyId: string) | ItemV1(itemId: string)

  datatype Rule = Rule(enabled: Option<bool>, condition: Condition, action: ActionV1, target: Option<Target>)

  datatype RingSwap = RingSwap(itemId: string, equipBelow: int, removeAbove: int, manaFloor: int, restorePrevious: bool)

  datatype Category = Heal | Potion | Attack | Rune | Support

  const CATEGORIES: seq<Category> := [Heal, Potion, Attack, Rune, Support]

  /** Targeting, exit, follow and lure are carried over as they are. */
  datatype ConfigV1 = ConfigV1(
    heal: seq<Rule>,
    potion: seq<Rule>,
    attack: seq<Rule>,
    rune: seq<Rule>,
    support: seq<Rule>,
    ringSwap: Option<RingSwap>,
    targeting: string,
    exit: string,
    follow: string,
    lure: Option<string>)

  function RulesOf(v1: ConfigV1, category: Category): seq<Rule> {
    match category
    case Heal => v1.heal
    case Potion => v1.potion
    case Attack => v1.attack
    case Rune => v1.rune
    case Support => v1.support
  }

  datatype ActionV2 = Spell(spellId: string, monsterId: Option<string>) | Supply(supplyId: string)

  /** `conditions` and `auto` may be absent until parsed. */
  datatype Slot = Slot(
    enabled: Option<bool>,
    action: ActionV2,
    conditions: Option<seq<Condition>>,
    hotkey: Option<Hotkey>,
    auto: Option<bool>,
    target: Option<Target>)

  datatype Automation =
    | SwapRing(itemId: string, manaFloor: int, restorePrevious: bool, enter: seq<Condition>, leave: seq<Condition>)
    | OtherAutomation(text: string)

  datatype Bar = Bar(slots: seq<Option<Slot>>)

  /** The fields in options have a default and may be absent until parsed. */
  datatype ConfigV2 = ConfigV2(
    activeSet: Option<nat>,
    sets: seq<Bar>,
    automations: Option<seq<Automation>>,
    stance: Option<string>,
    targeting: Option<string>,
    exit: Option<string>,
    follow: Option<string>,
    lure: Option<string>,
    loot: Option<string>)

  /** What was saved: something marked version 2, something the first schema accepts, or neither. */
  datatype Raw = Current(v2: ConfigV2) | Old(v1: ConfigV1) | Malformed

  datatype Error = Refused | TooManyRules

  // ---------------------------------------------------------------- the second schema

  function Default<T>(o: Option<T>, d: T): Option<T> { if o.Some? then o else Some(d) }

  function ParsedSlot(slot: Slot): Slot { slot.(conditions := Default(slot.conditions, []), auto := Default(slot.auto, true)) }

  predicate HotkeysDiffer(bar: Bar) {
    forall i, j :: 0 <= i < j < |bar.slots| && bar.slots[i].Some? && bar.slots[j].Some? && bar.slots[i].value.hotkey.Some? ==>
      bar.slots[i].value.hotkey != bar.slots[j].value.hotkey
  }

  predicate ValidBar(bar: Bar) { |bar.slots| == SLOTS_PER_SET && HotkeysDiffer(bar) }

  function ParsedBar(bar: Bar): Bar {
    Bar(seq(|bar.slots|, i requires 0 <= i < |bar.slots| =>
      if bar.slots[i].Some? then Some(ParsedSlot(bar.slots[i].value)) else None))
  }

  predicate ValidV2(c: ConfigV2) {
    && (c.activeSet.Some? ==> c.activeSet.value < SET_COUNT)
    && |c.sets| == SET_COUNT
    && forall i :: 0 <= i < |c.sets| ==> ValidBar(c.sets[i])
  }

  const NEAREST_STANDING := "nearest, stand"
  const TAKE_EVERYTHING := "skip nothing, sell nothing"

  function ParseV2(c: ConfigV2): Result<ConfigV2, Error> {
    if !ValidV2(c) then Err(Refused)
    else Ok(ConfigV2(
      Default(c.activeSet, 0),
      seq(|c.sets|, i requires 0 <= i < |c.sets| => ParsedBar(c.sets[i])),
      Default(c.automations, []),
      Default(c.stance, "balanced"),
      Default(c.targeting, NEAREST_STANDING),
      Default(c.exit, "[]"),
      Default(c.follow, "none"),
      c.lure,
      Default(c.loot, TAKE_EVERYTHING)))
  }

  /** Parsing what was parsed changes nothing. */
  lemma ParsingIsStable(c: ConfigV2)
    requires ParseV2(c).Ok?
    ensures ParseV2(ParseV2(c).value) == ParseV2(c)
  {
    var d := ParseV2(c).value;
    forall i | 0 <= i < |c.sets| ensures ValidBar(d.sets[i]) && ParsedBar(d.sets[i]) == d.sets[i] {
      assert d.sets[i] == ParsedBar(c.sets[i]) && ValidBar(c.sets[i]);
      forall k | 0 <= k < |c.sets[i].slots| ensures ParsedBar(d.sets[i]).slots[k] == d.sets[i].slots[k] {}
      assert ParsedBar(d.sets[i]).slots == d.sets[i].slots;
    }
    assert ParseV2(d).value.sets == d.sets;
  }

  // ---------------------------------------------------------------- rules to slots

  function ActionOf(action: ActionV1): ActionV2 {
    match action
    case SpellV1(id) => Spell(id, None)
    case SupplyV1(id) => Supply(id)
    case ItemV1(id) => Supply(id)
  }

  function SlotOf(rule: Rule): Slot {
    Slot(rule.enabled, ActionOf(rule.action), Some([rule.condition]), None, Some(true), Default(rule.target, Self))
  }

  function SlotsOf(rules: seq<Rule>): (slots: seq<Slot>)
    ensures |slots| == |rules|
  {
    seq(|rules|, i requires 0 <= i < |rules| => SlotOf(rules[i]))
  }

  /** All rules of the first configuration, category by category. */
  function RulesInOrder(v1: ConfigV1): seq<Rule>
  {
    v1.heal + v1.potion + v1.attack + v1.rune + v1.support
  }

  function WithHotkey(slot: Slot, place: nat): Slot {
    if place < LEGACY_HOTKEY_COUNT then slot.(hotkey := Some(LegacyHotkey(place))) else slot
  }

  /** The slot at a place of a bar, counting places through the bars. */
  function SlotAt(flat: seq<Slot>, set_: nat, place: nat): Option<Slot> {
    var index := SLOTS_PER_SET * set_ + place;
    if index < |flat| then Some(WithHotkey(flat[index], place)) else None
  }

  function BarOf(flat: seq<Slot>, set_: nat): (bar: Bar)
    ensures |bar.slots| == SLOTS_PER_SET
  {
    Bar(seq(SLOTS_PER_SET, place requires 0 <= place < SLOTS_PER_SET => SlotAt(flat, set_, place)))
  }

  function AutomationsOf(ring: Option<RingSwap>): seq<Automation> {
    match ring
    case None => []
    case Some(r) =>
      [SwapRing(r.itemId, r.manaFloor, r.restorePrevious, [HitPoints("<", r.equipBelow)], [HitPoints(">", r.removeAbove)])]
  }

  function Assembled(v1: ConfigV1): ConfigV2
  {
    var flat := SlotsOf(RulesInOrder(v1));
    ConfigV2(Some(0), seq(SET_COUNT, i requires 0 <= i < SET_COUNT => BarOf(flat, i)), Some(AutomationsOf(v1.ringSwap)),
      Some("balanced"), Some(v1.targeting), Some(v1.exit), Some(v1.follow), v1.lure, None)
  }

  function Migrated(raw: Raw): Result<ConfigV2, Error> {
    match raw
    case Current(v2) => ParseV2(v2)
    case Malformed => Err(Refused)
    case Old(v1) =>
      if |RulesInOrder(v1)| > SET_COUNT * SLOTS_PER_SET then Err(TooManyRules)
      else ParseV2(Assembled(v1))
  }

  // ---------------------------------------------------------------- the loops

  method Flatten(v1: ConfigV1) returns (flat: seq<Slot>)
    ensures flat == SlotsOf(RulesInOrder(v1))
  {
    flat := [];
    ghost var done: seq<Rule> := [];
    for k := 0 to |CATEGORIES|
      invariant flat == SlotsOf(done)
      invariant done == Before(v1, k)
    {
      var rules := RulesOf(v1, CATEGORIES[k]);
      for i := 0 to |rules|
        invariant flat == SlotsOf(done + rules[..i])
      {
        flat := flat + [SlotOf(rules[i])];
        assert done + rules[..i + 1] == done + rules[..i] + [rules[i]];
      }
      assert rules[..|rules|] == rules;
      done := done + rules;
    }
  }

  /** The rules of the first `k` categories. */
  ghost function Before(v1: ConfigV1, k: nat): seq<Rule>
    requires k <= |CATEGORIES|
    ensures k == |CATEGORIES| ==> Before(v1, k) == RulesInOrder(v1)
  {
    if k == 0 then []
    else if k == 1 then v1.heal
    else if k == 2 then v1.heal + v1.potion
    else if k == 3 then v1.heal + v1.potion + v1.attack
    else if k == 4 then v1.heal + v1.potion + v1.attack + v1.rune
    else RulesInOrder(v1)
  }

  /** The padded list is `full` whole bars; a slice past them is all padding. */
  lemma BarOfSlice(flat: seq<Slot>, slots: seq<Option<Slot>>, full: nat, i: nat, bar: seq<Option<Slot>>)
    requires |slots| == SLOTS_PER_SET * full && |flat| <= |slots|
    requires forall k :: 0 <= k < |slots| ==>
        slots[k] == if k < |flat| then Some(WithHotkey(flat[k], k % SLOTS_PER_SET)) else None
    requires bar == if i < full then slots[SLOTS_PER_SET * i..SLOTS_PER_SET * i + SLOTS_PER_SET]
                    else seq(SLOTS_PER_SET, _ => None)
    ensures bar == BarOf(flat, i).slots
  {
    hide WithHotkey;
    forall place | 0 <= place < SLOTS_PER_SET ensures bar[place] == SlotAt(flat, i, place) {
      assert (SLOTS_PER_SET * i + place) % SLOTS_PER_SET == place;
      if i < full { assert bar[place] == slots[SLOTS_PER_SET * i + place]; }
    }
  }

  /** The keyed slots in a row, padded with empty ones to whole bars. */
  method PaddedSlots(flat: seq<Slot>) returns (slots: seq<Option<Slot>>)
    requires |flat| <= SET_COUNT * SLOTS_PER_SET
    ensures |flat| <= |slots| <= SET_COUNT * SLOTS_PER_SET && |slots| % SLOTS_PER_SET == 0
    ensures forall k :: 0 <= k < |slots| ==> slots[k] == if k < |flat| then Some(WithHotkey(flat[k], k % SLOTS_PER_SET)) else None
  {
    hide WithHotkey;
    slots := [];
    for index := 0 to |flat|
      invariant |slots| == index
      invariant forall k :: 0 <= k < index ==> slots[k] == Some(WithHotkey(flat[k], k % SLOTS_PER_SET))
    {
      slots := slots + [Some(WithHotkey(flat[index], index % SLOTS_PER_SET))];
    }
    while |slots| % SLOTS_PER_SET != 0
      invariant |flat| <= |slots| <= SET_COUNT * SLOTS_PER_SET
      invariant forall k :: 0 <= k < |slots| ==>
          slots[k] == if k < |flat| then Some(WithHotkey(flat[k], k % SLOTS_PER_SET)) else None
      decreases SET_COUNT * SLOTS_PER_SET - |slots|
    {
      slots := slots + [None];
    }
  }

  method Bars(flat: seq<Slot>) returns (sets: seq<Bar>)
    requires |flat| <= SET_COUNT * SLOTS_PER_SET
    ensures sets == seq(SET_COUNT, i requires 0 <= i < SET_COUNT => BarOf(flat, i))
  {
    hide WithHotkey;
    var slots := PaddedSlots(flat);
    sets := [];
    ghost var full := |slots| / SLOTS_PER_SET;
    for i := 0 to SET_COUNT
      invariant |sets| == i && forall s :: 0 <= s < i ==> sets[s] == BarOf(flat, s)
    {
      var from := if i * SLOTS_PER_SET <= |slots| then i * SLOTS_PER_SET else |slots|;
      var to := if from + SLOTS_PER_SET <= |slots| then from + SLOTS_PER_SET else |slots|;
      var slice := slots[from..to];
      var bar := slice + seq(SLOTS_PER_SET - |slice|, _ => None);
      BarOfSlice(flat, slots, full, i, bar);
      sets := sets + [Bar(bar)];
    }
  }

  method Migrate(raw: Raw) returns (result: Result<ConfigV2, Error>)
    ensures result == Migrated(raw)
  {
    match raw
    case Current(v2) => result := ParseV2(v2);
    case Malformed => result := Err(Refused);
    case Old(v1) =>
      var flat := Flatten(v1);
      if |flat| > SET_COUNT * SLOTS_PER_SET { return Err(TooManyRules); }
      var sets := Bars(flat);
      result := ParseV2(ConfigV2(Some(0), sets, Some(AutomationsOf(v1.ringSwap)),
        Some("balanced"), Some(v1.targeting), Some(v1.exit), Some(v1.follow), v1.lure, None));
  }

  // ---------------------------------------------------------------- results

  /** Hotkeys within a bar are distinct, come from the first 22, and the last two places have none. */
  lemma BarHotkeys(flat: seq<Slot>, set_: nat)
    requires forall s :: s in flat ==> s.hotkey == None
    ensures HotkeysDiffer(BarOf(flat, set_))
    ensures forall place :: 0 <= place < SLOTS_PER_SET && BarOf(flat, set_).slots[place].Some? ==>
      BarOf(flat, set_).slots[place].value.hotkey == if place < LEGACY_HOTKEY_COUNT then Some(LegacyHotkey(place)) else None
  {
    var bar := BarOf(flat, set_);
    forall place | 0 <= place < SLOTS_PER_SET && bar.slots[place].Some?
      ensures bar.slots[place].value.hotkey == if place < LEGACY_HOTKEY_COUNT then Some(LegacyHotkey(place)) else None
    {
      assert bar.slots[place] == SlotAt(flat, set_, place);
      assert flat[SLOTS_PER_SET * set_ + place] in flat;
    }
  }

  /** What is assembled from any rules that fit satisfies the second schema, which only adds the loot default. */
  lemma AssembledParses(v1: ConfigV1)
    ensures ParseV2(Assembled(v1)) == Ok(Assembled(v1).(loot := Some(TAKE_EVERYTHING)))
  {
    var flat := SlotsOf(RulesInOrder(v1));
    var c := Assembled(v1);
    forall i | 0 <= i < SET_COUNT ensures ValidBar(c.sets[i]) && ParsedBar(c.sets[i]) == c.sets[i] {
      BarHotkeys(flat, i);
      var bar := BarOf(flat, i);
      assert c.sets[i] == bar;
      forall place | 0 <= place < SLOTS_PER_SET && bar.slots[place].Some?
        ensures ParsedSlot(bar.slots[place].value) == bar.slots[place].value
      {
        assert bar.slots[place] == SlotAt(flat, i, place);
      }
      assert ParsedBar(bar).slots == bar.slots;
    }
    assert ParseV2(c).value.sets == c.sets;
  }

  /** A configuration the first schema accepts migrates exactly when it has at most 96 rules. */
  lemma MigratesIffRulesFit(v1: ConfigV1)
    ensures Migrated(Old(v1)).Ok? <==> |RulesInOrder(v1)| <= 96
    ensures Migrated(Old(v1)).Err? ==> Migrated(Old(v1)).error == TooManyRules
  {
    AssembledParses(v1);
  }

  /** The first schema sets no bound on a category: 97 rules are accepted by it and refused by the migration. */
  lemma NinetySevenRulesAreRefused(rule: Rule)
    ensures var v1 := ConfigV1(seq(97, _ => rule), [], [], [], [], None, NEAREST_STANDING, "[]", "none", None);
      Migrated(Old(v1)) == Err(TooManyRules)
  {
    var v1 := ConfigV1(seq(97, _ => rule), [], [], [], [], None, NEAREST_STANDING, "[]", "none", None);
    assert |RulesInOrder(v1)| == 97;
  }

  /** Migrating twice is migrating once, whatever was saved. */
  lemma MigrationIsIdempotent(raw: Raw)
    requires Migrated(raw).Ok?
    ensures Migrated(Current(Migrated(raw).value)) == Migrated(raw)
  {
    match raw
    case Current(v2) => ParsingIsStable(v2);
    case Old(v1) => ParsingIsStable(Assembled(v1));
    case Malformed =>
  }

  /** The occupied slots of a bar, without their hotkeys. */
  function Occupied(slots: seq<Option<Slot>>): seq<Slot> {
    if slots == [] then []
    else (if slots[0].Some? then [slots[0].value.(hotkey := None)] else []) + Occupied(slots[1..])
  }

  function OccupiedInBars(sets: seq<Bar>): seq<Slot> {
    if sets == [] then [] else Occupied(sets[0].slots) + OccupiedInBars(sets[1..])
  }

  function AtMost(n: nat, bound: nat): nat { if n <= bound then n else bound }

  lemma OccupiedStep(slots: seq<Option<Slot>>, place: nat)
    requires place < |slots|
    ensures Occupied(slots[place..])
         == (if slots[place].Some? then [slots[place].value.(hotkey := None)] else []) + Occupied(slots[place + 1..])
  {
    assert slots[place..][1..] == slots[place + 1..] && slots[place..][0] == slots[place];
  }

  lemma SlotAtTells(flat: seq<Slot>, set_: nat, place: nat)
    requires place < SLOTS_PER_SET && forall s :: s in flat ==> s.hotkey == None
    ensures var index := SLOTS_PER_SET * set_ + place;
      var slot := BarOf(flat, set_).slots[place];
      (slot.Some? <==> index < |flat|) && (slot.Some? ==> slot.value.(hotkey := None) == flat[index])
  {
    var index := SLOTS_PER_SET * set_ + place;
    if index < |flat| { assert flat[index] in flat; }
  }

  lemma {:induction false} OccupiedFrom(flat: seq<Slot>, set_: nat, place: nat)
    requires place <= SLOTS_PER_SET && forall s :: s in flat ==> s.hotkey == None
    ensures Occupied(BarOf(flat, set_).slots[place..])
         == flat[AtMost(SLOTS_PER_SET * set_ + place, |flat|)..AtMost(SLOTS_PER_SET * (set_ + 1), |flat|)]
    decreases SLOTS_PER_SET - place
  {
    hide BarOf;
    var slots := BarOf(flat, set_).slots;
    if place < SLOTS_PER_SET {
      OccupiedFrom(flat, set_, place + 1);
      OccupiedStep(slots, place);
      SlotAtTells(flat, set_, place);
      var index := SLOTS_PER_SET * set_ + place;
      if index < |flat| {
        var end := AtMost(SLOTS_PER_SET * (set_ + 1), |flat|);
        SliceStep(flat, index, end);
      }
    }
  }

  lemma SliceStep(flat: seq<Slot>, index: nat, end: nat)
    requires index < end <= |flat|
    ensures flat[index..end] == [flat[index]] + flat[index + 1..end]
  {}

  lemma {:induction false} OccupiedFromBar(flat: seq<Slot>, sets: seq<Bar>, i: nat)
    requires i <= SET_COUNT && |flat| <= SET_COUNT * SLOTS_PER_SET && forall s :: s in flat ==> s.hotkey == None
    requires sets == seq(SET_COUNT, k requires 0 <= k < SET_COUNT => BarOf(flat, k))
    ensures OccupiedInBars(sets[i..]) == flat[AtMost(SLOTS_PER_SET * i, |flat|)..]
    decreases SET_COUNT - i
  {
    if i < SET_COUNT {
      OccupiedFromBar(flat, sets, i + 1);
      OccupiedFrom(flat, i, 0);
      assert sets[i..][1..] == sets[i + 1..] && sets[i..][0] == BarOf(flat, i);
      var slots := BarOf(flat, i).slots;
      assert slots[0..] == slots;
      var a, b := AtMost(SLOTS_PER_SET * i, |flat|), AtMost(SLOTS_PER_SET * (i + 1), |flat|);
      assert flat[a..b] + flat[b..] == flat[a..];
    }
  }

  /** No rule is lost, invented, changed or moved: the occupied slots, bar after bar, are the rules in category order. */
  lemma MigrationConservesRules(v1: ConfigV1)
    requires Migrated(Old(v1)).Ok?
    ensures OccupiedInBars(Migrated(Old(v1)).value.sets) == SlotsOf(RulesInOrder(v1))
  {
    AssembledParses(v1);
    var flat := SlotsOf(RulesInOrder(v1));
    var sets := Assembled(v1).sets;
    OccupiedFromBar(flat, sets, 0);
    assert sets[0..] == sets;
  }

  /** A slot gives its rule back, but for an item having become a supply of the same id. */
  lemma SlotTellsRule(a: Rule, b: Rule)
    ensures SlotOf(a) == SlotOf(b) <==>
      && a.enabled == b.enabled && a.condition == b.condition
      && Default(a.target, Self) == Default(b.target, Self)
      && (a.action == b.action || (!a.action.SpellV1? && !b.action.SpellV1? && ActionOf(a.action) == ActionOf(b.action)))
  {}

  /** Every bar of a migrated configuration is full length, and everything else is carried over. */
  lemma MigrationKeepsTheRest(v1: ConfigV1)
    requires Migrated(Old(v1)).Ok?
    ensures var c := Migrated(Old(v1)).value;
      && |c.sets| == SET_COUNT && (forall i :: 0 <= i < SET_COUNT ==> ValidBar(c.sets[i]))
      && c.targeting == Some(v1.targeting) && c.exit == Some(v1.exit) && c.follow == Some(v1.follow) && c.lure == v1.lure
      && c.automations == Some(AutomationsOf(v1.ringSwap))
  {
    AssembledParses(v1);
  }
}
