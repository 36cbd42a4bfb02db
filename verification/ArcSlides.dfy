/** The one reader of a deck's slide slots: where the array is, its ordinals, its order and its section
    names. */
module ArcSlides {
  import opened Text
  import opened Dicts
  import opened Sorting

  type Slot = Dict<Json>

  const ORDINAL_KEY := "ordinal"
  const SLIDE_KEY := "slide"
  const PARSE_ERROR := "__parse_error__"

  function ListKeys(): seq<string> { ["slots", "allocation", "slides", "slide_allocations"] }

  function OrdinalKeys(): seq<string> { [ORDINAL_KEY, SLIDE_KEY, "slide_number"] }

  function LabelKeys(): seq<string> { ["arc_section", "arc", "section", "name"] }

  // ---------------------------------------------------------------- finding the array

  predicate HoldsList(fields: Dict<Json>, key: string) {
    Get<Json>(fields, key).Some? && Get<Json>(fields, key).value.List?
  }

  /** The list under the first key that holds one. */
  function FirstList(fields: Dict<Json>, keys: seq<string>): Option<seq<Json>> {
    var k := FirstWhere(keys, (key: string) => HoldsList(fields, key));
    if k < |keys| then Some(Get<Json>(fields, keys[k]).value.items) else None
  }

  /** The recognised slide array, or None when there is none to read. */
  function SlideArray(obj: Json): Option<seq<Json>> {
    match obj
    case List(items) => Some(items)
    case Object(fields) =>
      if Get<Json>(fields, PARSE_ERROR).Some? then None else FirstList(fields, ListKeys())
    case _ => None
  }

  function ListUnder(fields: Dict<Json>, key: string): Option<seq<Json>> {
    match Get<Json>(fields, key)
    case Some(List(items)) => Some(items)
    case _ => None
  }

  /** WHERE THE ARRAY IS, exactly: the value itself if it is a list; in an object that is no parse error, the list
      under the first of four keys that holds one; nowhere else. */
  lemma SlideArrayExactly(obj: Json)
    ensures SlideArray(obj) ==
            match obj
            case List(items) => Some(items)
            case Object(fields) =>
              if Get<Json>(fields, "__parse_error__").Some? then None
              else if ListUnder(fields, "slots").Some? then ListUnder(fields, "slots")
              else if ListUnder(fields, "allocation").Some? then ListUnder(fields, "allocation")
              else if ListUnder(fields, "slides").Some? then ListUnder(fields, "slides")
              else ListUnder(fields, "slide_allocations")
            case _ => None
  {
    if obj.Object? {
      var keys := ListKeys();
      var k := FirstWhere(keys, (key: string) => HoldsList(obj.fields, key));
      assert keys[0] == "slots" && keys[1] == "allocation" && keys[2] == "slides" && keys[3] == "slide_allocations";
      assert forall i :: 0 <= i < 4 ==> (HoldsList(obj.fields, keys[i]) <==> ListUnder(obj.fields, keys[i]).Some?);
    }
  }

  // ---------------------------------------------------------------- one slot

  predicate HoldsNumber(slot: Slot, key: string) {
    Get<Json>(slot, key).Some? && Get<Json>(slot, key).value.Number?
  }

  /** The number under the first key that holds one, else the position. */
  function OrdinalOf(slot: Slot, keys: seq<string>, position: int): int {
    var k := FirstWhere(keys, (key: string) => HoldsNumber(slot, key));
    if k < |keys| then Get<Json>(slot, keys[k]).value.n else position
  }

  function AsSlot(entry: Json): Slot {
    if entry.Object? then entry.fields else [("slot", entry)]
  }

  function Numbered(entry: Json, position: int): Slot {
    var slot := AsSlot(entry);
    var n := Number(OrdinalOf(slot, OrdinalKeys(), position));
    Put(Put(slot, ORDINAL_KEY, n), SLIDE_KEY, n)
  }

  function NumberUnder(slot: Slot, key: string): Option<int> {
    match Get<Json>(slot, key)
    case Some(Number(n)) => Some(n)
    case _ => None
  }

  /** THE NUMBER OF A SLOT, exactly: that under the first of three keys that holds one, else its position. */
  lemma OrdinalExactly(slot: Slot, position: int)
    ensures OrdinalOf(slot, OrdinalKeys(), position) ==
            if NumberUnder(slot, "ordinal").Some? then NumberUnder(slot, "ordinal").value
            else if NumberUnder(slot, "slide").Some? then NumberUnder(slot, "slide").value
            else if NumberUnder(slot, "slide_number").Some? then NumberUnder(slot, "slide_number").value
            else position
  {
    var keys := OrdinalKeys();
    var k := FirstWhere(keys, (key: string) => HoldsNumber(slot, key));
    assert keys[0] == "ordinal" && keys[1] == "slide" && keys[2] == "slide_number";
    assert forall i :: 0 <= i < 3 ==> (HoldsNumber(slot, keys[i]) <==> NumberUnder(slot, keys[i]).Some?);
  }

  function NumberedAll(raw: seq<Json>): seq<Slot> {
    seq(|raw|, i requires 0 <= i < |raw| => Numbered(raw[i], i + 1))
  }

  /** The number a slot sorts by. */
  function Order(slot: Slot): real {
    match Get<Json>(slot, ORDINAL_KEY)
    case Some(Number(n)) => n as real
    case _ => 0.0
  }

  function SlotsOf(obj: Json): Option<seq<Slot>> {
    match SlideArray(obj)
    case None => None
    case Some(raw) => Some(SortBy(NumberedAll(raw), Order))
  }

  method SlotsFromObj(obj: Json) returns (slots: Option<seq<Slot>>)
    ensures slots == SlotsOf(obj)
    ensures slots.None? <==> SlideArray(obj).None?
    ensures slots.Some? ==> Normal(slots.value, SlideArray(obj).value)
  {
    var raw := SlideArray(obj);
    if raw.None? {
      return None;
    }
    var found: seq<Slot> := [];
    for i := 0 to |raw.value|
      invariant found == NumberedAll(raw.value)[..i]
    {
      var slot := AsSlot(raw.value[i]);
      var ordinal := OrdinalOf(slot, OrdinalKeys(), i + 1);
      slot := Put(slot, ORDINAL_KEY, Number(ordinal));
      slot := Put(slot, SLIDE_KEY, Number(ordinal));
      assert slot == NumberedAll(raw.value)[i];
      found := found + [slot];
    }
    assert found == NumberedAll(raw.value);
    SlotsNormal(raw.value);
    slots := Some(SortBy(found, Order));
  }

  // ---------------------------------------------------------------- what the reader guarantees

  /** A slot says its number under both names and keeps every other field of its entry. */
  ghost predicate Carries(slot: Slot, entry: Json, position: int) {
    var n := OrdinalOf(AsSlot(entry), OrdinalKeys(), position);
    && Get<Json>(slot, ORDINAL_KEY) == Some(Number(n)) && Get<Json>(slot, SLIDE_KEY) == Some(Number(n))
    && forall k :: k != ORDINAL_KEY && k != SLIDE_KEY ==> Get<Json>(slot, k) == Get<Json>(AsSlot(entry), k)
  }

  /** The slots are a stable ordinal-sorted permutation of the numbered entries. */
  ghost predicate Normal(slots: seq<Slot>, raw: seq<Json>) {
    && multiset(slots) == multiset(NumberedAll(raw))
    && |slots| == |raw|
    && Ordered(slots, Order)
    && (forall v :: WithKey(slots, Order, v) == WithKey(NumberedAll(raw), Order, v))
    && AllCarry(NumberedAll(raw), raw)
  }

  lemma NumberedCarries(entry: Json, position: int)
    ensures Carries(Numbered(entry, position), entry, position)
  {
    var slot := AsSlot(entry);
    var n := Number(OrdinalOf(slot, OrdinalKeys(), position));
    assert ORDINAL_KEY != SLIDE_KEY by {
      assert |ORDINAL_KEY| != |SLIDE_KEY|;
    }
    forall k
      ensures Get<Json>(Numbered(entry, position), k)
              == if k == SLIDE_KEY || k == ORDINAL_KEY then Some(n) else Get<Json>(slot, k)
    {
      GetPut(slot, ORDINAL_KEY, n, k);
      GetPut(Put(slot, ORDINAL_KEY, n), SLIDE_KEY, n, k);
    }
  }

  ghost predicate AllCarry(slots: seq<Slot>, raw: seq<Json>) {
    |slots| == |raw| && forall i :: 0 <= i < |raw| ==> Carries(slots[i], raw[i], i + 1)
  }

  lemma NumberedAllCarry(raw: seq<Json>)
    ensures AllCarry(NumberedAll(raw), raw)
  {
    var slots := NumberedAll(raw);
    forall i | 0 <= i < |raw|
      ensures Carries(slots[i], raw[i], i + 1)
    {
      NumberedCarries(raw[i], i + 1);
      assert slots[i] == Numbered(raw[i], i + 1);
    }
  }

  lemma SlotsNormal(raw: seq<Json>)
    ensures Normal(SortBy(NumberedAll(raw), Order), raw)
  {
    NumberedAllCarry(raw);
    SortFacts(NumberedAll(raw), Order);
  }

  /** A slot that says one number under both names. */
  predicate Settled(slot: Slot) {
    && Get<Json>(slot, ORDINAL_KEY).Some? && Get<Json>(slot, ORDINAL_KEY).value.Number?
    && Get<Json>(slot, SLIDE_KEY) == Get<Json>(slot, ORDINAL_KEY)
  }

  lemma SettledUnchanged(slot: Slot, position: int)
    requires Settled(slot)
    ensures Numbered(Object(slot), position) == slot
  {
    var n := Get<Json>(slot, ORDINAL_KEY).value;
    assert OrdinalKeys()[0] == ORDINAL_KEY;
    assert OrdinalOf(slot, OrdinalKeys(), position) == n.n;
    PutSame(slot, ORDINAL_KEY, n);
    PutSame(slot, SLIDE_KEY, n);
  }

  function AsJson(slots: seq<Slot>): Json {
    List(seq(|slots|, i requires 0 <= i < |slots| => Object(slots[i])))
  }

  lemma CarrySettles(slots: seq<Slot>, raw: seq<Json>, slot: Slot)
    requires AllCarry(slots, raw) && slot in slots
    ensures Settled(slot)
  {
    var j :| 0 <= j < |slots| && slots[j] == slot;
    assert Carries(slots[j], raw[j], j + 1);
  }

  lemma OutputSettled(raw: seq<Json>)
    ensures var slots := SortBy(NumberedAll(raw), Order);
            Ordered(slots, Order) && forall i :: 0 <= i < |slots| ==> Settled(slots[i])
  {
    var numbered := NumberedAll(raw);
    var slots := SortBy(numbered, Order);
    SortFacts(numbered, Order);
    NumberedAllCarry(raw);
    forall i | 0 <= i < |slots|
      ensures Settled(slots[i])
    {
      assert slots[i] in multiset(slots);
      assert slots[i] in multiset(numbered);
      CarrySettles(numbered, raw, slots[i]);
    }
  }

  lemma SettledAllUnchanged(slots: seq<Slot>)
    requires forall i :: 0 <= i < |slots| ==> Settled(slots[i])
    ensures NumberedAll(AsJson(slots).items) == slots
  {
    forall i | 0 <= i < |slots|
      ensures Numbered(AsJson(slots).items[i], i + 1) == slots[i]
    {
      SettledUnchanged(slots[i], i + 1);
    }
  }

  /** READING ITS OWN OUTPUT CHANGES NOTHING. */
  lemma ReadTwice(obj: Json)
    requires SlotsOf(obj).Some?
    ensures SlotsOf(AsJson(SlotsOf(obj).value)) == SlotsOf(obj)
  {
    var slots := SlotsOf(obj).value;
    OutputSettled(SlideArray(obj).value);
    SettledAllUnchanged(slots);
    SortKeeps(slots, Order);
  }

  function SlideCount(obj: Json): Option<nat> {
    match SlotsOf(obj)
    case None => None
    case Some(slots) => Some(|slots|)
  }

  /** The count is the length of the recognised array; an empty array counts 0, a missing one nothing. */
  lemma CountAgrees(obj: Json)
    ensures SlideCount(obj) == match SlideArray(obj)
                               case None => None
                               case Some(raw) => Some(|raw|)
  {
    if SlideArray(obj).Some? {
      SlotsNormal(SlideArray(obj).value);
    }
  }

  // ---------------------------------------------------------------- section names

  predicate HoldsLabel(slot: Slot, key: string) {
    Get<Json>(slot, key).Some? && Get<Json>(slot, key).value.Str? && Strip(Get<Json>(slot, key).value.s) != ""
  }

  /** The stripped text of the first key that holds a visible one. */
  function LabelAt(slot: Slot, keys: seq<string>): Option<string> {
    var k := FirstWhere(keys, (key: string) => HoldsLabel(slot, key));
    if k < |keys| then Some(Strip(Get<Json>(slot, keys[k]).value.s)) else None
  }

  function SlotLabel(slot: Slot): Option<string> {
    LabelAt(slot, LabelKeys())
  }

  function TextUnder(slot: Slot, key: string): Option<string> {
    match Get<Json>(slot, key)
    case Some(Str(s)) => if Blank(s) then None else Some(Strip(s))
    case _ => None
  }

  /** THE LABEL OF A SLOT, exactly: the stripped text under the first of four keys that holds a visible one. */
  lemma LabelExactly(slot: Slot)
    ensures SlotLabel(slot) ==
            if TextUnder(slot, "arc_section").Some? then TextUnder(slot, "arc_section")
            else if TextUnder(slot, "arc").Some? then TextUnder(slot, "arc")
            else if TextUnder(slot, "section").Some? then TextUnder(slot, "section")
            else TextUnder(slot, "name")
  {
    var keys := LabelKeys();
    var k := FirstWhere(keys, (key: string) => HoldsLabel(slot, key));
    assert keys[0] == "arc_section" && keys[1] == "arc" && keys[2] == "section" && keys[3] == "name";
    forall i | 0 <= i < 4
      ensures HoldsLabel(slot, keys[i]) <==> TextUnder(slot, keys[i]).Some?
    {
      if Get<Json>(slot, keys[i]).Some? && Get<Json>(slot, keys[i]).value.Str? {
        StripEmpty(Get<Json>(slot, keys[i]).value.s);
      }
    }
  }

  /** The first slot with a label, or -1. */
  function FirstWith(slots: seq<Slot>, tag: string): (p: int)
    ensures -1 <= p < |slots|
  {
    if slots == [] then -1
    else
      var p := FirstWith(slots[..|slots| - 1], tag);
      if p < 0 && SlotLabel(slots[|slots| - 1]) == Some(tag) then |slots| - 1 else p
  }

  lemma {:induction false} FirstWithIs(slots: seq<Slot>, tag: string)
    ensures var p := FirstWith(slots, tag);
            && (p >= 0 ==> SlotLabel(slots[p]) == Some(tag))
            && (forall j :: 0 <= j < |slots| && (j < p || p < 0) ==> SlotLabel(slots[j]) != Some(tag))
  {
    if slots != [] {
      FirstWithIs(slots[..|slots| - 1], tag);
      assert forall j :: 0 <= j < |slots| - 1 ==> slots[..|slots| - 1][j] == slots[j];
    }
  }

  function Names(slots: seq<Slot>): seq<string> {
    if slots == [] then []
    else
      var names := Names(slots[..|slots| - 1]);
      var tag := SlotLabel(slots[|slots| - 1]);
      if tag.Some? && tag.value !in names then names + [tag.value] else names
  }

  /** Exactly the labels of the slots, each once, in the order of first appearance. */
  ghost predicate NamesOf(names: seq<string>, slots: seq<Slot>) {
    && (forall tag :: tag in names <==> FirstWith(slots, tag) >= 0)
    && (forall i, j :: 0 <= i < j < |names| ==> FirstWith(slots, names[i]) < FirstWith(slots, names[j]))
  }

  lemma {:induction false} NamesAre(slots: seq<Slot>)
    ensures NamesOf(Names(slots), slots)
  {
    if slots != [] {
      var front := slots[..|slots| - 1];
      NamesAre(front);
      forall tag
        ensures FirstWith(slots, tag) == if FirstWith(front, tag) < 0 && SlotLabel(slots[|slots| - 1]) == Some(tag)
                                           then |slots| - 1 else FirstWith(front, tag)
      {
      }
    }
  }

  method DistinctLabels(slots: seq<Slot>) returns (found: seq<string>)
    ensures found == Names(slots)
  {
    found := [];
    for i := 0 to |slots|
      invariant found == Names(slots[..i])
    {
      assert slots[..i + 1][..i] == slots[..i];
      var tag := SlotLabel(slots[i]);
      if tag.Some? && tag.value !in found {
        found := found + [tag.value];
      }
    }
    assert slots[..|slots|] == slots;
  }

  method SectionNamesFromObj(obj: Json) returns (names: Option<seq<string>>)
    ensures names.None? <==> SlotsOf(obj).None?
                             || forall i :: 0 <= i < |SlotsOf(obj).value| ==> SlotLabel(SlotsOf(obj).value[i]).None?
    ensures names.Some? ==> names.value != [] && NamesOf(names.value, SlotsOf(obj).value)
  {
    var slots := SlotsFromObj(obj);
    if slots.None? {
      return None;
    }
    var found := DistinctLabels(slots.value);
    NamesAre(slots.value);
    NoNames(slots.value);
    names := if found == [] then None else Some(found);
  }

  lemma NoNames(slots: seq<Slot>)
    ensures Names(slots) == [] <==> forall i :: 0 <= i < |slots| ==> SlotLabel(slots[i]).None?
  {
    NamesAre(slots);
    var names := Names(slots);
    forall i | 0 <= i < |slots| && SlotLabel(slots[i]).Some?
      ensures names != []
    {
      FirstWithIs(slots, SlotLabel(slots[i]).value);
      assert SlotLabel(slots[i]).value in names;
    }
    if names != [] {
      FirstWithIs(slots, names[0]);
      assert names[0] in names;
      assert SlotLabel(slots[FirstWith(slots, names[0])]).Some?;
    }
  }

  /** Both sides of the section join meet: every labelled slot's label is a name, and every name is the
      label of some slot. */
  lemma JoinMeets(slots: seq<Slot>, tag: string)
    ensures tag in Names(slots) <==> exists i :: 0 <= i < |slots| && SlotLabel(slots[i]) == Some(tag)
  {
    NamesAre(slots);
    FirstWithIs(slots, tag);
  }
}
