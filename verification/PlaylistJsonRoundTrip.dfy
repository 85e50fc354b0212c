/** Reading what the JSON writers wrote gives back the list, cut to the capacity of the reader. */
module PlaylistJsonRoundTrip {
  import opened CText
  import opened JsonEvents
  import opened PlaylistModel
  import opened PlaylistJson
  import opened PlaylistJsonWriter

  // ---------------------------------------------------------------- what survives a file

  function NonEmptyOnes(roms: seq<string>): seq<string> {
    if roms == [] then []
    else NonEmptyOnes(roms[..|roms| - 1]) + if roms[|roms| - 1] == "" then [] else [roms[|roms| - 1]]
  }

  function PersistedRoms(roms: Option<seq<string>>): Option<seq<string>> {
    if roms.None? || NonEmptyOnes(roms.value) == [] then None else Some(NonEmptyOnes(roms.value))
  }

  /** The part of an entry that the playlist file keeps; "" and NULL become the same. */
  function Persisted(e: Entry): Entry {
    Entry(NonEmpty(Str(e.path)), NonEmpty(Str(e.labelText)), NonEmpty(Str(e.corePath)), NonEmpty(Str(e.coreName)),
          NonEmpty(Str(e.dbName)), NonEmpty(Str(e.crc32)),
          NonEmpty(Str(e.subsystemIdent)), NonEmpty(Str(e.subsystemName)), PersistedRoms(e.subsystemRoms), NO_RUNTIME)
  }

  /** The part that the runtime playlist file keeps: the status of the play time is not written. */
  function PersistedRuntime(e: Entry): Entry {
    BLANK.(path := NonEmpty(Str(e.path)), corePath := NonEmpty(Str(e.corePath)),
           runtime := e.runtime.(status := RuntimeUnknown))
  }

  function PersistedList(list: seq<Entry>): (r: seq<Entry>)
    ensures |r| == |list|
  {
    seq(|list|, i requires 0 <= i < |list| => Persisted(list[i]))
  }

  function PersistedRuntimeList(list: seq<Entry>): (r: seq<Entry>)
    ensures |r| == |list|
  {
    seq(|list|, i requires 0 <= i < |list| => PersistedRuntime(list[i]))
  }

  // ---------------------------------------------------------------- one member of an item

  /** What storing a written value does to an entry. */
  function Apply(e: Entry, v: Value): Entry {
    match v
    case StringValue(f, s) => if s == "" then e else SetString(e, f, Some(s))
    case NumberValue(n, x) => SetNumber(e, n, x)
    case RomsValue(roms) => AddRoms(e, NonEmptyOnes(roms))
  }

  function AddRoms(e: Entry, roms: seq<string>): Entry {
    if roms == [] then e else AddRom(AddRoms(e, roms[..|roms| - 1]), roms[|roms| - 1])
  }

  function ApplyAll(e: Entry, vs: seq<Value>): Entry {
    if vs == [] then e else Apply(ApplyAll(e, vs[..|vs| - 1]), vs[|vs| - 1])
  }

  lemma StringNameIsKnown(f: StringField)
    ensures TagOf(StringName(f)) == StringTag(f)
  {
  }

  lemma PlayTimeNameIsKnown(n: NumberField)
    requires n.NHours? || n.NMinutes? || n.NSeconds?
    ensures TagOf(NumberName(n)) == NumberTag(n)
  {
  }

  lemma DateNameIsKnown(n: NumberField)
    requires n.NYear? || n.NMonth? || n.NDay?
    ensures TagOf(NumberName(n)) == NumberTag(n)
  {
  }

  lemma ClockNameIsKnown(n: NumberField)
    requires n.NHour? || n.NMinute? || n.NSecond?
    ensures TagOf(NumberName(n)) == NumberTag(n)
  {
  }

  lemma NumberNameIsKnown(n: NumberField)
    ensures TagOf(NumberName(n)) == NumberTag(n)
  {
    if n.NHours? || n.NMinutes? || n.NSeconds? {
      PlayTimeNameIsKnown(n);
    } else if n.NYear? || n.NMonth? || n.NDay? {
      DateNameIsKnown(n);
    } else {
      ClockNameIsKnown(n);
    }
  }

  lemma NamesAreDistinct(f: StringField, n: NumberField)
    ensures TagOf(StringName(f)) == StringTag(f)
    ensures TagOf(NumberName(n)) == NumberTag(n)
    ensures TagOf("subsystem_roms") == RomsTag
  {
    StringNameIsKnown(f);
    NumberNameIsKnown(n);
  }

  /** The reader is inside an item, between two of its members. */
  ghost predicate InItem(c: Context) {
    && c.PointersInside() && c.InsideItem()
    && c.currentEntry == Some(c.size) && c.size < |c.slots|
    && c.stringTarget.None? && c.numberTarget.None? && c.metaTarget.None?
    && !c.inRoms && c.metaString == Some("items")
  }

  /** Nothing but the slot of the current item differs, apart from pointers that are set anew before use. */
  ghost predicate OnlySlot(c: Context, d: Context, e: Entry)
    requires c.size < |c.slots|
  {
    && d.slots == c.slots[c.size := e] && d.size == c.size
    && d.defaultPath == c.defaultPath && d.defaultName == c.defaultName
  }

  lemma RunTwo(c: Context, a: Event, b: Event, c1: Context, c2: Context)
    requires Admits(c, a) && Step(c, a) == Stepped(c1, true)
    requires Admits(c1, b) && Step(c1, b) == Stepped(c2, true)
    ensures RunEvents(c, [a, b]) == Outcome(c2, Completed)
  {
    assert [a, b][1..] == [b];
    assert [b][1..] == [];
    assert RunEvents(c2, []) == Outcome(c2, Completed);
    assert RunEvents(c1, [b]) == RunEvents(c2, []);
  }

  lemma ReadString(c: Context, f: StringField, s: string) returns (d: Context)
    requires InItem(c)
    ensures RunEvents(c, Events(StringValue(f, s))) == Outcome(d, Completed)
    ensures InItem(d) && OnlySlot(c, d, Apply(c.slots[c.size], StringValue(f, s)))
  {
    NamesAreDistinct(f, NHours);
    var c1 := OnMember(c, StringName(f)).context;
    d := OnText(c1, s);
    RunTwo(c, Member(StringName(f)), Text(s), c1, d);
  }

  lemma ReadNumber(c: Context, n: NumberField, x: uint32) returns (d: Context)
    requires InItem(c)
    ensures RunEvents(c, Events(NumberValue(n, x))) == Outcome(d, Completed)
    ensures InItem(d) && OnlySlot(c, d, Apply(c.slots[c.size], NumberValue(n, x)))
  {
    NamesAreDistinct(FPath, n);
    UnsignedRoundTrip(x);
    var c1 := OnMember(c, NumberName(n)).context;
    d := OnNumber(c1, Dec(x));
    RunTwo(c, Member(NumberName(n)), Number(Dec(x)), c1, d);
  }

  /** The reader is inside the ROM list of an item. */
  ghost predicate InRomList(c: Context) {
    && c.PointersInside() && c.inItems && c.inRoms && c.objectDepth == 2 && c.arrayDepth == 2
    && c.currentEntry == c.romsTarget == Some(c.size) && c.size < |c.slots|
    && c.stringTarget.None? && c.numberTarget.None? && c.metaTarget.None?
    && c.metaString == Some("items") && c.itemsString == Some("subsystem_roms")
  }

  lemma AddRomsStep(e: Entry, roms: seq<string>)
    requires roms != []
    ensures var n := |roms| - 1;
            var before := AddRoms(e, NonEmptyOnes(roms[..n]));
            AddRoms(e, NonEmptyOnes(roms)) == if roms[n] == "" then before else AddRom(before, roms[n])
  {
    var n := |roms| - 1;
    var kept, head := NonEmptyOnes(roms), NonEmptyOnes(roms[..n]);
    if roms[n] != "" {
      assert kept[..|kept| - 1] == head;
    } else {
      assert kept == head;
    }
  }

  lemma ReadRomText(c: Context, rom: string) returns (d: Context)
    requires InRomList(c)
    ensures RunEvents(c, [Text(rom)]) == Outcome(d, Completed) && InRomList(d)
    ensures OnlySlot(c, d, if rom == "" then c.slots[c.size] else AddRom(c.slots[c.size], rom))
  {
    d := OnText(c, rom);
    assert [Text(rom)][1..] == [];
    assert c.slots[c.size := c.slots[c.size]] == c.slots;
  }

  lemma {:induction false} ReadRomTexts(c: Context, roms: seq<string>) returns (d: Context)
    requires InRomList(c)
    ensures RunEvents(c, Texts(roms)) == Outcome(d, Completed)
    ensures InRomList(d) && OnlySlot(c, d, AddRoms(c.slots[c.size], NonEmptyOnes(roms)))
  {
    if roms == [] {
      d := c;
    } else {
      var n := |roms| - 1;
      var m := ReadRomTexts(c, roms[..n]);
      d := ReadRomText(m, roms[n]);
      assert Texts(roms) == Texts(roms[..n]) + [Text(roms[n])];
      RunAppend(c, Texts(roms[..n]), [Text(roms[n])]);
      AddRomsStep(c.slots[c.size], roms);
    }
  }

  lemma ReadRoms(c: Context, roms: seq<string>) returns (d: Context)
    requires InItem(c)
    ensures RunEvents(c, Events(RomsValue(roms))) == Outcome(d, Completed)
    ensures InItem(d) && OnlySlot(c, d, Apply(c.slots[c.size], RomsValue(roms)))
  {
    NamesAreDistinct(FPath, NHours);
    var c1 := OnMember(c, "subsystem_roms").context;
    var c2 := OnStartArray(c1);
    RunTwo(c, Member("subsystem_roms"), StartArray, c1, c2);
    var c3 := ReadRomTexts(c2, roms);
    d := OnEndArray(c3);
    RunAppend(c, [Member("subsystem_roms"), StartArray], Texts(roms));
    RunAppend(c, [Member("subsystem_roms"), StartArray] + Texts(roms), [EndArray]);
    assert [EndArray][1..] == [];
  }

  lemma ReadValue(c: Context, v: Value) returns (d: Context)
    requires InItem(c)
    ensures RunEvents(c, Events(v)) == Outcome(d, Completed)
    ensures InItem(d) && OnlySlot(c, d, Apply(c.slots[c.size], v))
  {
    match v {
      case StringValue(f, s) => d := ReadString(c, f, s);
      case NumberValue(n, x) => d := ReadNumber(c, n, x);
      case RomsValue(roms) => d := ReadRoms(c, roms);
    }
  }

  lemma {:induction false} ReadValues(c: Context, vs: seq<Value>) returns (d: Context)
    requires InItem(c)
    ensures RunEvents(c, AllEvents(vs)) == Outcome(d, Completed)
    ensures InItem(d) && OnlySlot(c, d, ApplyAll(c.slots[c.size], vs))
  {
    if vs == [] {
      d := c;
    } else {
      var n := |vs| - 1;
      var m := ReadValues(c, vs[..n]);
      d := ReadValue(m, vs[n]);
      RunAppend(c, AllEvents(vs[..n]), Events(vs[n]));
    }
  }

  // ---------------------------------------------------------------- whole items

  /** The reader is in the item list, between two items. */
  ghost predicate BetweenItems(c: Context) {
    && c.PointersInside() && c.inItems && c.objectDepth == 1 && c.arrayDepth == 1
    && c.stringTarget.None? && c.numberTarget.None? && c.metaTarget.None?
    && !c.inRoms && c.metaString == Some("items") && c.size <= |c.slots|
  }

  lemma ReadItem(c: Context, vs: seq<Value>) returns (d: Context)
    requires BetweenItems(c) && c.size < |c.slots|
    ensures RunEvents(c, ItemEvents(vs)) == Outcome(d, Completed)
    ensures BetweenItems(d) && d.size == c.size + 1
    ensures OnlySlot(c, d.(size := c.size), ApplyAll(c.slots[c.size], vs))
  {
    var c1 := OnStartObject(c).context;
    assert [StartObject][1..] == [] && [EndObject][1..] == [];
    var c2 := ReadValues(c1, vs);
    d := OnEndObject(c2);
    RunAppend(c, [StartObject], AllEvents(vs));
    RunAppend(c, [StartObject] + AllEvents(vs), [EndObject]);
  }

  /** An item that does not fit aborts the reader before anything of it is stored. */
  lemma ItemTooMany(c: Context, vs: seq<Value>, rest: seq<Event>)
    requires BetweenItems(c) && c.size == |c.slots|
    ensures var o := RunEvents(c, ItemEvents(vs) + rest);
            o.ending == Aborted && o.context == c.(objectDepth := 2)
  {
    assert (ItemEvents(vs) + rest)[0] == StartObject;
  }

  function ReadBack(items: seq<seq<Value>>): (r: seq<Entry>)
    ensures |r| == |items|
  {
    seq(|items|, i requires 0 <= i < |items| => ApplyAll(BLANK, items[i]))
  }

  function Blanks(n: nat): (r: seq<Entry>)
    ensures |r| == n
  {
    seq(n, _ => BLANK)
  }

  lemma {:induction false} ReadItems(c: Context, items: seq<seq<Value>>) returns (d: Context)
    requires BetweenItems(c) && c.size == 0 && c.slots == Blanks(|c.slots|) && |items| <= |c.slots|
    ensures RunEvents(c, ItemsEvents(items)) == Outcome(d, Completed)
    ensures BetweenItems(d) && d.size == |items|
    ensures d.slots == ReadBack(items) + Blanks(|c.slots| - |items|)
    ensures d.defaultPath == c.defaultPath && d.defaultName == c.defaultName
  {
    if items == [] {
      d := c;
    } else {
      var n := |items| - 1;
      var m := ReadItems(c, items[..n]);
      d := ReadItem(m, items[n]);
      RunAppend(c, ItemsEvents(items[..n]), ItemEvents(items[n]));
    }
  }

  lemma ReadAllItems(c: Context, items: seq<seq<Value>>) returns (d: Context)
    requires BetweenItems(c) && c.size == 0 && c.slots == Blanks(|c.slots|) && |items| <= |c.slots|
    ensures RunEvents(c, ItemsEvents(items) + TRAILER) == Outcome(d, Completed)
    ensures d.size == |items| && d.slots == ReadBack(items) + Blanks(|c.slots| - |items|)
    ensures d.defaultPath == c.defaultPath && d.defaultName == c.defaultName
  {
    var e := ReadItems(c, items);
    var e1 := OnEndArray(e);
    d := OnEndObject(e1);
    RunTwo(e, EndArray, EndObject, e1, d);
    RunAppend(c, ItemsEvents(items), TRAILER);
  }

  lemma SplitItems(first: seq<seq<Value>>, extra: seq<Value>, last: seq<seq<Value>>)
    ensures ItemsEvents(first + [extra] + last) + TRAILER ==
            ItemsEvents(first) + (ItemEvents(extra) + (ItemsEvents(last) + TRAILER))
  {
    FlatMapAppend(ItemEvents, first + [extra], last);
    FlatMapStep(ItemEvents, first, extra);
  }

  lemma ReadTooManyItems(c: Context, items: seq<seq<Value>>)
    requires BetweenItems(c) && c.size == 0 && c.slots == Blanks(|c.slots|) && |items| > |c.slots|
    ensures var o := RunEvents(c, ItemsEvents(items) + TRAILER);
            && o.ending == Aborted && o.context.size == |c.slots| && o.context.slots == ReadBack(items[..|c.slots|])
            && o.context.defaultPath == c.defaultPath && o.context.defaultName == c.defaultName
  {
    var cap := |c.slots|;
    var first, extra, last := items[..cap], items[cap], items[cap + 1..];
    assert items == first + [extra] + last;
    SplitItems(first, extra, last);
    var d := ReadItems(c, first);
    var rest := ItemsEvents(last) + TRAILER;
    RunAppend(c, ItemsEvents(first), ItemEvents(extra) + rest);
    ItemTooMany(d, extra, rest);
  }

  /** Items, then the end of the file, read into `cap` fresh slots: all of them if they fit, otherwise
      the first `cap`, with the reader aborting at the next one. */
  lemma ReadItemList(c: Context, items: seq<seq<Value>>, cap: nat)
    requires BetweenItems(c) && c.size == 0 && c.slots == Blanks(cap)
    ensures var o := RunEvents(c, ItemsEvents(items) + TRAILER);
            var kept := Take(items, cap);
            && o.ending == (if |items| <= cap then Completed else Aborted)
            && o.context.size == |kept|
            && o.context.slots == ReadBack(kept) + Blanks(cap - |kept|)
            && o.context.defaultPath == c.defaultPath && o.context.defaultName == c.defaultName
  {
    if |items| <= cap {
      var d := ReadAllItems(c, items);
    } else {
      ReadTooManyItems(c, items);
      assert Blanks(0) == [];
    }
  }

  // ---------------------------------------------------------------- headers

  /** In the top-level object, in front of the list of items. */
  ghost predicate AtTop(c: Context, cap: nat) {
    && c.objectDepth == 1 && c.arrayDepth == 0 && !c.inItems && !c.inRoms
    && c.stringTarget.None? && c.numberTarget.None? && c.metaTarget.None? && c.romsTarget.None?
    && c.currentEntry.None? && c.size == 0 && c.slots == Blanks(cap)
  }

  lemma ReadTop(c: Context, name: string, s: string, cap: nat) returns (d: Context)
    requires AtTop(c, cap) && name != ""
    ensures RunEvents(c, [Member(name), Text(s)]) == Outcome(d, Completed) && AtTop(d, cap)
    ensures d.defaultPath == (if name == "default_core_path" && s != "" then Some(s) else c.defaultPath)
    ensures d.defaultName == (if name == "default_core_name" && s != "" then Some(s) else c.defaultName)
  {
    var c1 := OnMember(c, name).context;
    d := OnText(c1, s);
    RunTwo(c, Member(name), Text(s), c1, d);
  }

  lemma ReadVersion(c: Context, version: string, cap: nat) returns (d: Context)
    requires AtTop(c, cap)
    ensures RunEvents(c, [Member("version"), Text(version)]) == Outcome(d, Completed) && AtTop(d, cap)
    ensures d.defaultPath == c.defaultPath && d.defaultName == c.defaultName
  {
    d := ReadTop(c, "version", version, cap);
  }

  lemma ReadDefaults(c: Context, path: string, name: string, cap: nat) returns (d: Context)
    requires AtTop(c, cap) && c.defaultPath == c.defaultName == None
    ensures RunEvents(c, [Member("default_core_path"), Text(path)] + [Member("default_core_name"), Text(name)]) ==
            Outcome(d, Completed)
    ensures AtTop(d, cap) && d.defaultPath == NonEmpty(path) && d.defaultName == NonEmpty(name)
  {
    var e := ReadTop(c, "default_core_path", path, cap);
    d := ReadTop(e, "default_core_name", name, cap);
    RunOn(c, [Member("default_core_path"), Text(path)], e, [Member("default_core_name"), Text(name)], d);
  }

  lemma OpenItems(c: Context, cap: nat) returns (d: Context)
    requires AtTop(c, cap)
    ensures RunEvents(c, [Member("items"), StartArray]) == Outcome(d, Completed)
    ensures BetweenItems(d) && d == c.(arrayDepth := 1, inItems := true, metaString := Some("items"))
  {
    var c1 := OnMember(c, "items").context;
    d := OnStartArray(c1);
    RunTwo(c, Member("items"), StartArray, c1, d);
  }

  lemma OpenTop(cap: nat) returns (d: Context)
    ensures RunEvents(Fresh(cap), [StartObject]) == Outcome(d, Completed) && AtTop(d, cap)
    ensures d.defaultPath == d.defaultName == None
  {
    d := OnStartObject(Fresh(cap)).context;
    assert [StartObject][1..] == [];
  }

  lemma RunOn(c: Context, a: seq<Event>, m: Context, b: seq<Event>, d: Context)
    requires RunEvents(c, a) == Outcome(m, Completed) && RunEvents(m, b) == Outcome(d, Completed)
    ensures RunEvents(c, a + b) == Outcome(d, Completed)
  {
    RunAppend(c, a, b);
  }

  lemma RunParts(c: Context, head: seq<Event>, d: Context, body: seq<Event>, tail: seq<Event>)
    requires RunEvents(c, head) == Outcome(d, Completed)
    ensures RunEvents(c, head + body + tail) == RunEvents(d, body + tail)
  {
    RunAppend(c, head, body + tail);
    assert head + body + tail == head + (body + tail);
  }

  lemma ReadHeader(cap: nat, path: string, name: string) returns (d: Context)
    ensures RunEvents(Fresh(cap), Header(path, name)) == Outcome(d, Completed)
    ensures BetweenItems(d) && d.size == 0 && d.slots == Blanks(cap)
    ensures d.defaultPath == NonEmpty(path) && d.defaultName == NonEmpty(name)
  {
    var version := [Member("version"), Text("1.1")];
    var defaults := [Member("default_core_path"), Text(path)] + [Member("default_core_name"), Text(name)];
    var items := [Member("items"), StartArray];
    var c0 := OpenTop(cap);
    var c1 := ReadVersion(c0, "1.1", cap);
    var c2 := ReadDefaults(c1, path, name, cap);
    d := OpenItems(c2, cap);
    RunOn(Fresh(cap), [StartObject], c0, version, c1);
    RunOn(Fresh(cap), [StartObject] + version, c1, defaults, c2);
    RunOn(Fresh(cap), [StartObject] + version + defaults, c2, items, d);
    HeaderParts(path, name);
  }

  lemma HeaderParts(path: string, name: string)
    ensures Header(path, name) ==
            [StartObject] + [Member("version"), Text("1.1")]
            + ([Member("default_core_path"), Text(path)] + [Member("default_core_name"), Text(name)])
            + [Member("items"), StartArray]
  {
  }

  lemma ReadRuntimeHeader(cap: nat) returns (d: Context)
    ensures RunEvents(Fresh(cap), RUNTIME_HEADER) == Outcome(d, Completed)
    ensures BetweenItems(d) && d.size == 0 && d.slots == Blanks(cap)
  {
    var c := Fresh(cap);
    var e0 := [StartObject];
    var e1 := e0 + [Member("version"), Text("1.0")];
    var c0 := OpenTop(cap);
    var c1 := ReadVersion(c0, "1.0", cap);
    d := OpenItems(c1, cap);
    RunOn(c, e0, c0, [Member("version"), Text("1.0")], c1);
    RunOn(c, e1, c1, [Member("items"), StartArray], d);
    assert RUNTIME_HEADER == e1 + [Member("items"), StartArray];
  }

  // ---------------------------------------------------------------- entries

  lemma ApplyStep(e: Entry, vs: seq<Value>, v: Value)
    ensures ApplyAll(e, vs + [v]) == Apply(ApplyAll(e, vs), v)
  {
    assert (vs + [v])[..|vs|] == vs;
  }

  lemma {:induction false} ApplyAppend(e: Entry, a: seq<Value>, b: seq<Value>)
    ensures ApplyAll(e, a + b) == ApplyAll(ApplyAll(e, a), b)
  {
    if b == [] {
      assert a + b == a;
    } else {
      var n := |b| - 1;
      assert a + b == (a + b[..n]) + [b[n]];
      ApplyStep(e, a + b[..n], b[n]);
      ApplyAppend(e, a, b[..n]);
    }
  }

  lemma ApplyOne(e: Entry, v: Value)
    ensures ApplyAll(e, [v]) == Apply(e, v)
  {
    ApplyStep(e, [], v);
    assert [] + [v] == [v];
  }

  lemma ApplyPair(e: Entry, v: Value, w: Value)
    ensures ApplyAll(e, [v, w]) == Apply(Apply(e, v), w)
  {
    ApplyOne(e, v);
    ApplyStep(e, [v], w);
    assert [v] + [w] == [v, w];
  }

  lemma {:induction false} AddRomsOnNone(e: Entry, roms: seq<string>)
    requires e.subsystemRoms.None?
    ensures AddRoms(e, roms) == e.(subsystemRoms := if roms == [] then None else Some(roms))
  {
    if roms != [] {
      var n := |roms| - 1;
      AddRomsOnNone(e, roms[..n]);
      assert roms[..n] + [roms[n]] == roms;
    }
  }

  lemma ApplyThree(e: Entry, u: Value, v: Value, w: Value)
    ensures ApplyAll(e, [u, v, w]) == Apply(Apply(Apply(e, u), v), w)
  {
    ApplyPair(e, u, v);
    ApplyStep(e, [u, v], w);
    assert [u, v] + [w] == [u, v, w];
  }

  lemma StringsReadBack(e: Entry)
    ensures ApplyAll(BLANK, StringValues(e)) ==
            Persisted(e).(subsystemIdent := None, subsystemName := None, subsystemRoms := None)
  {
    var vs := StringValues(e);
    assert vs == [vs[0], vs[1], vs[2]] + [vs[3], vs[4], vs[5]];
    ApplyAppend(BLANK, [vs[0], vs[1], vs[2]], [vs[3], vs[4], vs[5]]);
    ApplyThree(BLANK, vs[0], vs[1], vs[2]);
    ApplyThree(ApplyAll(BLANK, [vs[0], vs[1], vs[2]]), vs[3], vs[4], vs[5]);
  }

  lemma SubsystemReadsBack(b: Entry, e: Entry)
    requires b.subsystemIdent.None? && b.subsystemName.None? && b.subsystemRoms.None?
    ensures ApplyAll(b, SubsystemValues(e)) ==
            b.(subsystemIdent := Persisted(e).subsystemIdent, subsystemName := Persisted(e).subsystemName,
               subsystemRoms := Persisted(e).subsystemRoms)
  {
    ApplyAppend(b, IdentValues(e) + NameValues(e), RomsValues(e));
    ApplyAppend(b, IdentValues(e), NameValues(e));
    var b1 := ApplyAll(b, IdentValues(e));
    if !Empty(e.subsystemIdent) {
      ApplyOne(b, StringValue(FIdent, e.subsystemIdent.value));
    }
    assert b1 == b.(subsystemIdent := Persisted(e).subsystemIdent);
    var b2 := ApplyAll(b1, NameValues(e));
    if !Empty(e.subsystemName) {
      ApplyOne(b1, StringValue(FName, e.subsystemName.value));
    }
    assert b2 == b1.(subsystemName := Persisted(e).subsystemName);
    if e.subsystemRoms.Some? && |e.subsystemRoms.value| > 0 {
      ApplyOne(b2, RomsValue(e.subsystemRoms.value));
      AddRomsOnNone(b2, NonEmptyOnes(e.subsystemRoms.value));
    }
  }

  lemma ItemReadsBack(e: Entry)
    ensures ApplyAll(BLANK, ItemValues(e)) == Persisted(e)
  {
    ApplyAppend(BLANK, StringValues(e), SubsystemValues(e));
    StringsReadBack(e);
    SubsystemReadsBack(ApplyAll(BLANK, StringValues(e)), e);
  }

  lemma PlayTimeReadsBack(b: Entry, r: Runtime)
    ensures ApplyAll(b, [NumberValue(NHours, r.hours), NumberValue(NMinutes, r.minutes),
                         NumberValue(NSeconds, r.seconds)]) ==
            b.(runtime := b.runtime.(hours := r.hours, minutes := r.minutes, seconds := r.seconds))
  {
    ApplyThree(b, NumberValue(NHours, r.hours), NumberValue(NMinutes, r.minutes), NumberValue(NSeconds, r.seconds));
  }

  lemma DateReadsBack(b: Entry, r: Runtime)
    ensures ApplyAll(b, [NumberValue(NYear, r.year), NumberValue(NMonth, r.month), NumberValue(NDay, r.day)]) ==
            b.(runtime := b.runtime.(year := r.year, month := r.month, day := r.day))
  {
    ApplyThree(b, NumberValue(NYear, r.year), NumberValue(NMonth, r.month), NumberValue(NDay, r.day));
  }

  lemma ClockReadsBack(b: Entry, r: Runtime)
    ensures ApplyAll(b, [NumberValue(NHour, r.hour), NumberValue(NMinute, r.minute), NumberValue(NSecond, r.second)]) ==
            b.(runtime := b.runtime.(hour := r.hour, minute := r.minute, second := r.second))
  {
    ApplyThree(b, NumberValue(NHour, r.hour), NumberValue(NMinute, r.minute), NumberValue(NSecond, r.second));
  }

  lemma RuntimeItemReadsBack(e: Entry)
    ensures ApplyAll(BLANK, RuntimeValues(e)) == PersistedRuntime(e)
  {
    var r := e.runtime;
    var content := [StringValue(FPath, Str(e.path)), StringValue(FCorePath, Str(e.corePath))];
    var played := [NumberValue(NHours, r.hours), NumberValue(NMinutes, r.minutes), NumberValue(NSeconds, r.seconds)];
    var date := [NumberValue(NYear, r.year), NumberValue(NMonth, r.month), NumberValue(NDay, r.day)];
    var clock := [NumberValue(NHour, r.hour), NumberValue(NMinute, r.minute), NumberValue(NSecond, r.second)];
    assert RuntimeValues(e) == content + played + date + clock;
    ApplyAppend(BLANK, content + played + date, clock);
    ApplyAppend(BLANK, content + played, date);
    ApplyAppend(BLANK, content, played);
    ApplyPair(BLANK, content[0], content[1]);
    PlayTimeReadsBack(ApplyAll(BLANK, content), r);
    DateReadsBack(ApplyAll(BLANK, content + played), r);
    ClockReadsBack(ApplyAll(BLANK, content + played + date), r);
  }

  lemma ListReadsBack(list: seq<Entry>)
    ensures ReadBack(AllItems(list)) == PersistedList(list)
  {
    forall i | 0 <= i < |list|
      ensures ReadBack(AllItems(list))[i] == PersistedList(list)[i]
    {
      ItemReadsBack(list[i]);
    }
  }

  lemma RuntimeListReadsBack(list: seq<Entry>)
    ensures ReadBack(AllRuntimeItems(list)) == PersistedRuntimeList(list)
  {
    forall i | 0 <= i < |list|
      ensures ReadBack(AllRuntimeItems(list))[i] == PersistedRuntimeList(list)[i]
    {
      RuntimeItemReadsBack(list[i]);
    }
  }

  // ---------------------------------------------------------------- the theorems

  /** Feeding the written playlist to a reader of capacity `cap` rebuilds exactly the first `cap`
      entries, subsystem data included, and the default core; a longer list makes the reader abort
      without disturbing what it has read. */
  lemma JsonRoundTrip(list: seq<Entry>, path: Option<string>, name: Option<string>, cap: nat)
    ensures var o := RunEvents(Fresh(cap), FileEvents(list, path, name));
            var kept := Take(list, cap);
            && o.ending == (if |list| <= cap then Completed else Aborted)
            && o.context.size == |kept|
            && o.context.slots == PersistedList(kept) + Blanks(cap - |kept|)
            && o.context.defaultPath == NonEmpty(Str(path)) && o.context.defaultName == NonEmpty(Str(name))
  {
    var items := AllItems(list);
    var h := Header(Str(path), Str(name));
    var c := ReadHeader(cap, Str(path), Str(name));
    RunParts(Fresh(cap), h, c, ItemsEvents(items), TRAILER);
    ReadItemList(c, items, cap);
    var kept := Take(list, cap);
    assert Take(items, cap) == AllItems(kept);
    ListReadsBack(kept);
  }

  /** The same for a runtime playlist: every play time and date number comes back, of every entry. */
  lemma RuntimeJsonRoundTrip(list: seq<Entry>, cap: nat)
    ensures var o := RunEvents(Fresh(cap), RuntimeFileEvents(list));
            var kept := Take(list, cap);
            && o.ending == (if |list| <= cap then Completed else Aborted)
            && o.context.size == |kept|
            && o.context.slots == PersistedRuntimeList(kept) + Blanks(cap - |kept|)
  {
    var items := AllRuntimeItems(list);
    var c := ReadRuntimeHeader(cap);
    RunParts(Fresh(cap), RUNTIME_HEADER, c, ItemsEvents(items), TRAILER);
    ReadItemList(c, items, cap);
    var kept := Take(list, cap);
    assert Take(items, cap) == AllRuntimeItems(kept);
    RuntimeListReadsBack(kept);
  }
}
