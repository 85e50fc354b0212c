/** The two ways in which a value can end up in an entry it does not belong to: a ROM behind an empty member
    name, and a number behind a member whose own value was no number. Each is shown by a whole file, and each
    is ruled out by a condition on the stream. */
module PlaylistJsonLeaks {
  import opened CText
  import opened JsonEvents
  import opened PlaylistModel
  import opened PlaylistJson
  import opened PlaylistJsonLegal
  import opened PlaylistJsonRoundTrip
  import opened PlaylistJsonSafety
  import opened PlaylistJsonWriter

  // ---------------------------------------------------------------- numbers

  /** A number changes another entry exactly when the number pointer was left there, and then only its play
      time. */
  lemma NumberStaysInItsEntry(c: Context, st: seq<Frame>, s: string)
    requires Safe(c, st) && Nest(st, Number(s)).Some?
    ensures var d, t := OnNumber(c, s), c.numberTarget;
            forall i :: 0 <= i < |c.slots| && i != c.size ==>
              && d.slots[i].(runtime := c.slots[i].runtime) == c.slots[i]
              && (d.slots[i] != c.slots[i] <==>
                    && c.inItems && AtItem(st) && |st| == 3 && s != "" && t.Some? && t.value.slot == i
                    && SetNumber(c.slots[i], t.value.field, StrToUnsigned(s)) != c.slots[i])
  {
    InsideItemIsAtItem(c, st);
  }

  predicate NumberMember(ev: Event) {
    ev.Member? && TagOf(ev.name).NumberTag?
  }

  /** Every member that takes a number is followed by one. */
  ghost predicate NumbersAreNumbers(evs: seq<Event>) {
    forall k :: 0 <= k < |evs| && NumberMember(evs[k]) ==> k + 1 < |evs| && evs[k + 1].Number?
  }

  lemma StepKeepsNumberOwned(c: Context, st: seq<Frame>, ev: Event)
    requires Safe(c, st) && Nest(st, ev).Some? && (c.numberTarget.Some? ==> ev.Number?)
    requires Admits(c, ev)
    ensures var d := Step(c, ev).context;
            d.numberTarget.Some? ==> NumberMember(ev) && d.numberTarget.value.slot == d.size
  {
    InsideItemIsAtItem(c, st);
  }

  lemma {:induction false} RunKeepsNumberOwned(c: Context, st: seq<Frame>, before: seq<Event>, s: string)
    requires Safe(c, st) && Nesting(st, before + [Number(s)]).Some? && NumbersAreNumbers(before + [Number(s)])
    requires RunEvents(c, before).ending == Completed
    requires c.numberTarget.Some? ==> c.numberTarget.value.slot == c.size && (before + [Number(s)])[0].Number?
    ensures var d := RunEvents(c, before).context; d.numberTarget.Some? ==> d.numberTarget.value.slot == d.size
    decreases |before|
  {
    if before != [] {
      var evs := before + [Number(s)];
      var ev, rest := before[0], before[1..];
      assert evs[0] == ev && evs[1..] == rest + [Number(s)];
      StepIsSafe(c, st, ev);
      StepKeepsNumberOwned(c, st, ev);
      assert NumberMember(evs[0]) ==> evs[1].Number?;
      RunKeepsNumberOwned(Step(c, ev).context, Nest(st, ev).value, rest, s);
    }
  }

  /** When every member that takes a number is followed by one, no number is ever stored in an entry other than
      that of the object it occurs in. */
  lemma NoNumberLeaks(cap: nat, before: seq<Event>, s: string)
    requires Nesting([], before + [Number(s)]).Some? && NumbersAreNumbers(before + [Number(s)])
    requires RunEvents(Fresh(cap), before).ending == Completed
    ensures var c := RunEvents(Fresh(cap), before).context;
            && Admits(c, Number(s))
            && forall i :: 0 <= i < cap && i != c.size ==> OnNumber(c, s).slots[i] == c.slots[i]
  {
    NestingAppend([], before, [Number(s)]);
    FreshIsSafe(cap);
    RunIsSafe(Fresh(cap), [], before);
    RunKeepsNumberOwned(Fresh(cap), [], before, s);
    var c, st := RunEvents(Fresh(cap), before).context, Nesting([], before).value;
    assert Nesting(st, [Number(s)]).Some?;
    StepIsSafe(c, st, Number(s));
    NumberStaysInItsEntry(c, st, s);
  }

  // ---------------------------------------------------------------- the pieces of a small file

  lemma RunOne(c: Context, ev: Event, d: Context)
    requires Admits(c, ev) && Step(c, ev) == Stepped(d, true)
    ensures RunEvents(c, [ev]) == Outcome(d, Completed)
  {
    assert [ev][1..] == [];
  }

  /** Between two items, and inside one, where a number pointer may be left over. */
  ghost predicate Between(c: Context) {
    c.PointersInside() && BetweenItems(c.(numberTarget := None))
  }

  ghost predicate Inside(c: Context) {
    c.PointersInside() && InItem(c.(numberTarget := None))
  }

  lemma OpenItem(c: Context) returns (d: Context)
    requires Between(c) && c.size < |c.slots|
    ensures RunEvents(c, [StartObject]) == Outcome(d, Completed) && Inside(d)
    ensures d == c.(objectDepth := 2, currentEntry := Some(c.size))
  {
    d := OnStartObject(c).context;
    RunOne(c, StartObject, d);
  }

  lemma CloseItem(c: Context) returns (d: Context)
    requires Inside(c)
    ensures RunEvents(c, [EndObject]) == Outcome(d, Completed)
    ensures d == c.(objectDepth := 1, size := c.size + 1)
  {
    d := OnEndObject(c);
    RunOne(c, EndObject, d);
  }

  lemma CloseFile(c: Context)
    requires Between(c)
    ensures var o := RunEvents(c, TRAILER);
            o.ending == Completed && o.context.slots == c.slots && o.context.size == c.size
  {
    var d := OnEndArray(c);
    RunTwo(c, EndArray, EndObject, d, OnEndObject(d));
  }

  function Item(members: seq<Event>): seq<Event> {
    [StartObject] + members + [EndObject]
  }

  function TwoItems(first: seq<Event>, second: seq<Event>): seq<Event> {
    RUNTIME_HEADER + Item(first) + Item(second) + TRAILER
  }

  lemma RunItem(c: Context, c1: Context, members: seq<Event>, c2: Context) returns (d: Context)
    requires Between(c) && c.size < |c.slots| && c1 == c.(objectDepth := 2, currentEntry := Some(c.size))
    requires RunEvents(c1, members) == Outcome(c2, Completed) && Inside(c2)
    ensures RunEvents(c, Item(members)) == Outcome(d, Completed)
    ensures Between(d) && d == c2.(objectDepth := 1, size := c2.size + 1)
  {
    var o := OpenItem(c);
    d := CloseItem(c2);
    RunOn(c, [StartObject], c1, members, c2);
    RunOn(c, [StartObject] + members, c2, [EndObject], d);
  }

  lemma RunTwoItems(cap: nat, c: Context, first: seq<Event>, d: Context, second: seq<Event>, e: Context)
    requires RunEvents(Fresh(cap), RUNTIME_HEADER) == Outcome(c, Completed)
    requires RunEvents(c, Item(first)) == Outcome(d, Completed)
    requires RunEvents(d, Item(second)) == Outcome(e, Completed) && Between(e)
    ensures var o := RunEvents(Fresh(cap), TwoItems(first, second));
            o.ending == Completed && o.context.slots == e.slots && o.context.size == e.size
  {
    RunOn(Fresh(cap), RUNTIME_HEADER, c, Item(first), d);
    RunOn(Fresh(cap), RUNTIME_HEADER + Item(first), d, Item(second), e);
    CloseFile(e);
    RunAppend(Fresh(cap), RUNTIME_HEADER + Item(first) + Item(second), TRAILER);
  }

  lemma NestMembers(members: seq<Event>)
    requires Nesting(ITEMS + [AwaitMember], members) == Some(ITEMS + [AwaitMember])
    ensures Nesting(ITEMS, Item(members)) == Some(ITEMS)
  {
    var inside := ITEMS + [AwaitMember];
    NestOne(ITEMS, StartObject);
    NestOne(inside, EndObject);
    assert inside[..2] == ITEMS;
    NestOn(ITEMS, [StartObject], inside, members);
    NestOn(ITEMS, [StartObject] + members, inside, [EndObject]);
  }

  lemma TwoItemsAreLegal(first: seq<Event>, second: seq<Event>)
    requires Nesting(ITEMS + [AwaitMember], first) == Some(ITEMS + [AwaitMember])
    requires Nesting(ITEMS + [AwaitMember], second) == Some(ITEMS + [AwaitMember])
    ensures Nesting([], TwoItems(first, second)) == Some([])
  {
    NestRuntimeHeader();
    NestMembers(first);
    NestMembers(second);
    NestOn([], RUNTIME_HEADER, ITEMS, Item(first));
    NestOn([], RUNTIME_HEADER + Item(first), ITEMS, Item(second));
    NestTrailer();
    NestOn([], RUNTIME_HEADER + Item(first) + Item(second), ITEMS, TRAILER);
  }

  // ---------------------------------------------------------------- a ROM that leaks

  const EMPTY_ROMS: seq<Event> := [Member("subsystem_roms"), StartArray] + [EndArray]

  function NamelessRom(rom: string): seq<Event> {
    [Member(""), StartArray] + [Text(rom), EndArray]
  }

  lemma ReadEmptyRoms(c: Context) returns (d: Context)
    requires Inside(c)
    ensures RunEvents(c, EMPTY_ROMS) == Outcome(d, Completed) && Inside(d)
    ensures d == c.(romsTarget := Some(c.size), itemsString := Some("subsystem_roms"))
  {
    NamesAreDistinct(FPath, NHours);
    var c1 := c.(itemsString := Some("subsystem_roms"), romsTarget := Some(c.size));
    var c2 := c1.(arrayDepth := 2, inRoms := true);
    d := c2.(arrayDepth := 1, inRoms := false);
    RunTwo(c, Member("subsystem_roms"), StartArray, c1, c2);
    RunOne(c2, EndArray, d);
    RunOn(c, [Member("subsystem_roms"), StartArray], c2, [EndArray], d);
  }

  lemma ReadNamelessRom(c: Context, rom: string) returns (d: Context)
    requires Inside(c) && c.itemsString == Some("subsystem_roms") && c.romsTarget.Some? && rom != ""
    ensures RunEvents(c, NamelessRom(rom)) == Outcome(d, Completed) && Inside(d)
    ensures d == c.(slots := c.slots[c.romsTarget.value := AddRom(c.slots[c.romsTarget.value], rom)])
  {
    var c1 := OnStartArray(c);
    var c2 := OnText(c1, rom);
    d := OnEndArray(c2);
    RunTwo(c, Member(""), StartArray, c, c1);
    RunTwo(c1, Text(rom), EndArray, c2, d);
    RunOn(c, [Member(""), StartArray], c1, [Text(rom), EndArray], d);
  }

  lemma EmptyRomsItem(c: Context) returns (d: Context)
    requires Between(c) && c.size < |c.slots|
    ensures RunEvents(c, Item(EMPTY_ROMS)) == Outcome(d, Completed) && Between(d)
    ensures d.slots == c.slots && d.size == c.size + 1
    ensures d.romsTarget == Some(c.size) && d.itemsString == Some("subsystem_roms")
  {
    var c1 := OpenItem(c);
    var c2 := ReadEmptyRoms(c1);
    d := RunItem(c, c1, EMPTY_ROMS, c2);
  }

  lemma NamelessRomItem(c: Context, rom: string) returns (d: Context)
    requires Between(c) && c.size < |c.slots| && rom != ""
    requires c.itemsString == Some("subsystem_roms") && c.romsTarget.Some?
    ensures RunEvents(c, Item(NamelessRom(rom))) == Outcome(d, Completed) && Between(d)
    ensures var i := c.romsTarget.value; d.slots == c.slots[i := AddRom(c.slots[i], rom)] && d.size == c.size + 1
  {
    var c1 := OpenItem(c);
    var c2 := ReadNamelessRom(c1, rom);
    d := RunItem(c, c1, NamelessRom(rom), c2);
  }

  lemma LeakingRomIsLegal(rom: string)
    ensures Nesting([], TwoItems(EMPTY_ROMS, NamelessRom(rom))) == Some([])
  {
    var inside := ITEMS + [AwaitMember];
    var named, list := ITEMS + [AwaitValue], ITEMS + [AwaitMember, InArray];
    assert inside[2 := AwaitValue] == named && named[2 := AwaitMember] + [InArray] == list && list[..3] == inside;
    NestOne(inside, Member("subsystem_roms"));
    NestOne(inside, Member(""));
    NestOne(named, StartArray);
    NestOn(inside, [Member("subsystem_roms")], named, [StartArray]);
    NestOn(inside, [Member("")], named, [StartArray]);
    assert [Member("subsystem_roms")] + [StartArray] == [Member("subsystem_roms"), StartArray];
    assert [Member("")] + [StartArray] == [Member(""), StartArray];
    NestOne(list, Text(rom));
    NestOne(list, EndArray);
    NestOn(list, [Text(rom)], list, [EndArray]);
    assert [Text(rom)] + [EndArray] == [Text(rom), EndArray];
    NestOn(inside, [Member("subsystem_roms"), StartArray], list, [EndArray]);
    NestOn(inside, [Member(""), StartArray], list, [Text(rom), EndArray]);
    TwoItemsAreLegal(EMPTY_ROMS, NamelessRom(rom));
  }

  lemma FirstRom(rom: string)
    ensures AddRom(BLANK, rom) == BLANK.(subsystemRoms := Some([rom]))
  {
    assert [] + [rom] == [rom];
  }

  /** An empty member name does not replace the previous one. In a complete file whose first item ends with an
      empty ROM list, an array under an empty name in the second item is stored in the first entry. */
  lemma EmptyNameLeaksRom(cap: nat, rom: string)
    requires 2 <= cap && rom != ""
    ensures Nesting([], TwoItems(EMPTY_ROMS, NamelessRom(rom))) == Some([])
    ensures var o := RunEvents(Fresh(cap), TwoItems(EMPTY_ROMS, NamelessRom(rom)));
            && o.ending == Completed && o.context.size == 2
            && o.context.slots == Blanks(cap)[0 := BLANK.(subsystemRoms := Some([rom]))]
  {
    LeakingRomIsLegal(rom);
    var c := ReadRuntimeHeader(cap);
    var d := EmptyRomsItem(c);
    var e := NamelessRomItem(d, rom);
    RunTwoItems(cap, c, EMPTY_ROMS, d, NamelessRom(rom), e);
    FirstRom(rom);
  }

  // ---------------------------------------------------------------- a number that leaks

  function TextForNumber(s: string): seq<Event> {
    [Member("runtime_hours"), Text(s)]
  }

  function UnknownNumber(x: uint32): seq<Event> {
    [Member("other"), Number(Dec(x))]
  }

  lemma ReadTextForNumber(c: Context, s: string) returns (d: Context)
    requires Inside(c)
    ensures RunEvents(c, TextForNumber(s)) == Outcome(d, Completed)
    ensures d == c.(numberTarget := Some(NumberTarget(c.size, NHours)), itemsString := Some("runtime_hours"))
  {
    NamesAreDistinct(FPath, NHours);
    var c1 := OnMember(c, "runtime_hours").context;
    d := OnText(c1, s);
    RunTwo(c, Member("runtime_hours"), Text(s), c1, d);
  }

  lemma UnknownName()
    ensures TagOf("other") == UnknownTag
  {
  }

  lemma ReadUnknownNumber(c: Context, x: uint32) returns (d: Context)
    requires Inside(c)
    requires c.numberTarget.Some? && c.numberTarget.value.field == NHours
    ensures RunEvents(c, UnknownNumber(x)) == Outcome(d, Completed)
    ensures var i := c.numberTarget.value.slot;
            d == c.(numberTarget := None, itemsString := Some("other"),
                    slots := c.slots[i := SetNumber(c.slots[i], NHours, x)])
  {
    UnsignedRoundTrip(x);
    UnknownName();
    var c1, i := c.(itemsString := Some("other")), c.numberTarget.value.slot;
    d := c1.(numberTarget := None, slots := c.slots[i := SetNumber(c.slots[i], NHours, x)]);
    RunTwo(c, Member("other"), Number(Dec(x)), c1, d);
  }

  lemma TextForNumberItem(c: Context, s: string) returns (d: Context)
    requires Between(c) && c.size < |c.slots|
    ensures RunEvents(c, Item(TextForNumber(s))) == Outcome(d, Completed) && Between(d)
    ensures d.slots == c.slots && d.size == c.size + 1 && d.numberTarget == Some(NumberTarget(c.size, NHours))
  {
    var c1 := OpenItem(c);
    var c2 := ReadTextForNumber(c1, s);
    d := RunItem(c, c1, TextForNumber(s), c2);
  }

  lemma UnknownNumberItem(c: Context, x: uint32) returns (d: Context)
    requires Between(c) && c.size < |c.slots| && c.numberTarget.Some? && c.numberTarget.value.field == NHours
    ensures RunEvents(c, Item(UnknownNumber(x))) == Outcome(d, Completed) && Between(d)
    ensures var i := c.numberTarget.value.slot;
            d.slots == c.slots[i := SetNumber(c.slots[i], NHours, x)] && d.size == c.size + 1
  {
    var c1 := OpenItem(c);
    var c2 := ReadUnknownNumber(c1, x);
    d := RunItem(c, c1, UnknownNumber(x), c2);
  }

  lemma LeakingNumberIsLegal(s: string, x: uint32)
    ensures Nesting([], TwoItems(TextForNumber(s), UnknownNumber(x))) == Some([])
  {
    NestPair(ITEMS + [AwaitMember], "runtime_hours", Text(s));
    NestPair(ITEMS + [AwaitMember], "other", Number(Dec(x)));
    TwoItemsAreLegal(TextForNumber(s), UnknownNumber(x));
  }

  /** A text does not use up the number pointer. In a complete file whose first item has a text for its hours,
      the number of an unknown member of the second item becomes the hours of the first entry. */
  lemma StaleNumberLeaks(cap: nat, s: string, x: uint32)
    requires 2 <= cap
    ensures Nesting([], TwoItems(TextForNumber(s), UnknownNumber(x))) == Some([])
    ensures var o := RunEvents(Fresh(cap), TwoItems(TextForNumber(s), UnknownNumber(x)));
            && o.ending == Completed && o.context.size == 2
            && o.context.slots == Blanks(cap)[0 := BLANK.(runtime := NO_RUNTIME.(hours := x))]
  {
    LeakingNumberIsLegal(s, x);
    var c := ReadRuntimeHeader(cap);
    var d := TextForNumberItem(c, s);
    var e := UnknownNumberItem(d, x);
    RunTwoItems(cap, c, TextForNumber(s), d, UnknownNumber(x), e);
    assert SetNumber(BLANK, NHours, x) == BLANK.(runtime := NO_RUNTIME.(hours := x));
  }
}
