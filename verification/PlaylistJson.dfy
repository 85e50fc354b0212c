/** The playlist's JSON reader: event handlers that keep depth counters, two mode flags and
    pointers to where the next value goes. `Step` is their joint effect on the reader's state. */
module PlaylistJson {
  import opened CText
  import opened JsonEvents
  import opened PlaylistModel

  datatype StringField = FPath | FLabel | FCorePath | FCoreName | FCrc32 | FDbName | FIdent | FName

  datatype NumberField = NHours | NMinutes | NSeconds | NYear | NMonth | NDay | NHour | NMinute | NSecond

  datatype Tag = StringTag(f: StringField) | NumberTag(n: NumberField) | RomsTag | UnknownTag

  /** The chain of name comparisons in the member handler. */
  function TagOf(name: string): Tag {
    if name == "path" then StringTag(FPath)
    else if name == "label" then StringTag(FLabel)
    else if name == "core_path" then StringTag(FCorePath)
    else if name == "core_name" then StringTag(FCoreName)
    else if name == "crc32" then StringTag(FCrc32)
    else if name == "db_name" then StringTag(FDbName)
    else if name == "subsystem_ident" then StringTag(FIdent)
    else if name == "subsystem_name" then StringTag(FName)
    else if name == "subsystem_roms" then RomsTag
    else if name == "runtime_hours" then NumberTag(NHours)
    else if name == "runtime_minutes" then NumberTag(NMinutes)
    else if name == "runtime_seconds" then NumberTag(NSeconds)
    else if name == "last_played_year" then NumberTag(NYear)
    else if name == "last_played_month" then NumberTag(NMonth)
    else if name == "last_played_day" then NumberTag(NDay)
    else if name == "last_played_hour" then NumberTag(NHour)
    else if name == "last_played_minute" then NumberTag(NMinute)
    else if name == "last_played_second" then NumberTag(NSecond)
    else UnknownTag
  }

  function SetString(e: Entry, f: StringField, v: Option<string>): Entry {
    match f
    case FPath => e.(path := v)
    case FLabel => e.(labelText := v)
    case FCorePath => e.(corePath := v)
    case FCoreName => e.(coreName := v)
    case FCrc32 => e.(crc32 := v)
    case FDbName => e.(dbName := v)
    case FIdent => e.(subsystemIdent := v)
    case FName => e.(subsystemName := v)
  }

  function SetNumber(e: Entry, n: NumberField, v: uint32): Entry {
    match n
    case NHours => e.(runtime := e.runtime.(hours := v))
    case NMinutes => e.(runtime := e.runtime.(minutes := v))
    case NSeconds => e.(runtime := e.runtime.(seconds := v))
    case NYear => e.(runtime := e.runtime.(year := v))
    case NMonth => e.(runtime := e.runtime.(month := v))
    case NDay => e.(runtime := e.runtime.(day := v))
    case NHour => e.(runtime := e.runtime.(hour := v))
    case NMinute => e.(runtime := e.runtime.(minute := v))
    case NSecond => e.(runtime := e.runtime.(second := v))
  }

  function AddRom(e: Entry, rom: string): Entry {
    e.(subsystemRoms := Some((if e.subsystemRoms.None? then [] else e.subsystemRoms.value) + [rom]))
  }

  /** A pointer to a field of an entry: the slot of the entry and the field. */
  datatype StringTarget = StringTarget(slot: nat, field: StringField)

  datatype NumberTarget = NumberTarget(slot: nat, field: NumberField)

  datatype MetaTarget = ToDefaultPath | ToDefaultName

  /** The reader's state together with the playlist it fills. */
  datatype Context = Context(
    slots: seq<Entry>,
    size: nat,
    defaultPath: Option<string>,
    defaultName: Option<string>,
    currentEntry: Option<nat>,
    arrayDepth: nat,
    objectDepth: nat,
    stringTarget: Option<StringTarget>,
    numberTarget: Option<NumberTarget>,
    romsTarget: Option<nat>,
    metaString: Option<string>,
    metaTarget: Option<MetaTarget>,
    itemsString: Option<string>,
    inItems: bool,
    inRoms: bool)
  {
    /** Every pointer points into the array of slots. */
    ghost predicate PointersInside() {
      && (currentEntry.Some? ==> currentEntry.value < |slots|)
      && (stringTarget.Some? ==> stringTarget.value.slot < |slots|)
      && (numberTarget.Some? ==> numberTarget.value.slot < |slots|)
      && (romsTarget.Some? ==> romsTarget.value < |slots|)
    }

    /** Directly inside an object that is an element of the item list. */
    predicate InsideItem() {
      inItems && objectDepth == 2 && arrayDepth == 1
    }
  }

  function Fresh(cap: nat): Context {
    Context(seq(cap, _ => BLANK), 0, None, None, None, 0, 0, None, None, None, None, None, None, false, false)
  }

  datatype Stepped = Stepped(context: Context, proceed: bool)

  function OnStartArray(c: Context): (d: Context)
    ensures d.slots == c.slots && (c.PointersInside() ==> d.PointersInside())
  {
    var e := c.(arrayDepth := c.arrayDepth + 1);
    if e.objectDepth == 1 then
      if e.metaString == Some("items") && e.arrayDepth == 1 then e.(inItems := true) else e
    else if e.objectDepth == 2 && e.arrayDepth == 2 && e.itemsString == Some("subsystem_roms") then
      e.(inRoms := true)
    else e
  }

  function OnEndArray(c: Context): (d: Context)
    requires c.arrayDepth > 0
    ensures d.slots == c.slots && (c.PointersInside() ==> d.PointersInside())
  {
    var e := c.(arrayDepth := c.arrayDepth - 1);
    if e.objectDepth == 1 then
      if e.inItems && e.metaString == Some("items") && e.arrayDepth == 0 then
        e.(metaString := None, inItems := false, itemsString := None)
      else e
    else if e.objectDepth == 2 && e.inRoms && e.itemsString == Some("subsystem_roms") && e.arrayDepth == 1 then
      e.(inRoms := false)
    else e
  }

  function OnStartObject(c: Context): (r: Stepped)
    ensures c.PointersInside() ==> r.context.PointersInside()
    ensures r.context.slots == c.slots
  {
    var d := c.(objectDepth := c.objectDepth + 1);
    if d.InsideItem() then
      if d.size < |d.slots| then Stepped(d.(currentEntry := Some(d.size)), true) else Stepped(d, false)
    else Stepped(d, true)
  }

  function OnEndObject(c: Context): (d: Context)
    requires c.objectDepth > 0
    ensures d.slots == c.slots && (c.PointersInside() ==> d.PointersInside())
  {
    c.(size := if c.InsideItem() then c.size + 1 else c.size, objectDepth := c.objectDepth - 1)
  }

  /** The branches of the string handler, which store the value if a target is set for it. */
  function StoreText(c: Context, s: string): (d: Context)
    requires c.PointersInside()
    ensures d.PointersInside() && |d.slots| == |c.slots|
    ensures d.size == c.size && d.itemsString == c.itemsString
  {
    if c.inItems && c.inRoms && c.objectDepth == 2 && c.arrayDepth == 2 then
      if c.romsTarget.Some? && s != "" then
        c.(slots := c.slots[c.romsTarget.value := AddRom(c.slots[c.romsTarget.value], s)])
      else c
    else if c.inItems && c.objectDepth == 2 then
      if c.arrayDepth == 1 && c.stringTarget.Some? && s != "" then
        var t := c.stringTarget.value;
        c.(slots := c.slots[t.slot := SetString(c.slots[t.slot], t.field, Some(s))])
      else c
    else if c.objectDepth == 1 && c.arrayDepth == 0 && c.metaTarget.Some? && s != "" then
      match c.metaTarget.value
      case ToDefaultPath => c.(metaString := None, defaultPath := Some(s))
      case ToDefaultName => c.(metaString := None, defaultName := Some(s))
    else c
  }

  function OnText(c: Context, s: string): (d: Context)
    requires c.PointersInside()
    ensures d.PointersInside() && |d.slots| == |c.slots|
    ensures d.size == c.size && d.itemsString == c.itemsString
  {
    StoreText(c, s).(stringTarget := None, metaTarget := None)
  }

  /** The branches of the number handler. */
  function StoreNumber(c: Context, s: string): (d: Context)
    requires c.PointersInside()
    ensures d.PointersInside() && |d.slots| == |c.slots|
    ensures d.size == c.size && d.itemsString == c.itemsString
  {
    if c.inItems && c.objectDepth == 2 then
      if c.arrayDepth == 1 && c.numberTarget.Some? && s != "" then
        var t := c.numberTarget.value;
        c.(slots := c.slots[t.slot := SetNumber(c.slots[t.slot], t.field, StrToUnsigned(s))])
      else c
    else if c.objectDepth == 1 && c.arrayDepth == 0 && c.metaString.Some? && s != "" then
      c.(metaString := None)
    else c
  }

  function OnNumber(c: Context, s: string): (d: Context)
    requires c.PointersInside()
    ensures d.PointersInside() && |d.slots| == |c.slots|
    ensures d.size == c.size && d.itemsString == c.itemsString
  {
    StoreNumber(c, s).(numberTarget := None)
  }

  function OnMember(c: Context, name: string): (r: Stepped)
    requires c.PointersInside() && (c.InsideItem() ==> c.currentEntry.Some?)
    ensures r.context.PointersInside() && r.context.slots == c.slots && r.context.size == c.size
  {
    if c.inItems && c.objectDepth == 2 then
      if c.arrayDepth != 1 then Stepped(c, true)
      else if c.stringTarget.Some? then Stepped(c, false)
      else if name == "" then Stepped(c, true)
      else
        var d := c.(itemsString := Some(name));
        var slot := c.currentEntry.value;
        match TagOf(name) {
          case StringTag(f) => Stepped(d.(stringTarget := Some(StringTarget(slot, f))), true)
          case NumberTag(n) => Stepped(d.(numberTarget := Some(NumberTarget(slot, n))), true)
          case RomsTag => Stepped(d.(romsTarget := Some(slot)), true)
          case UnknownTag => Stepped(d, true)
        }
    else if c.objectDepth == 1 && c.arrayDepth == 0 then
      if c.metaTarget.Some? then Stepped(c, false)
      else if name == "" then Stepped(c, true)
      else
        var d := c.(metaString := Some(name));
        if name == "default_core_path" then Stepped(d.(metaTarget := Some(ToDefaultPath)), true)
        else if name == "default_core_name" then Stepped(d.(metaTarget := Some(ToDefaultName)), true)
        else Stepped(d, true)
    else Stepped(c, true)
  }

  /** The demands of the handlers: the two depth assertions hold and no null entry is addressed. */
  ghost predicate Admits(c: Context, ev: Event) {
    && c.PointersInside()
    && (ev.EndArray? ==> c.arrayDepth > 0)
    && (ev.EndObject? ==> c.objectDepth > 0)
    && (ev.Member? && c.InsideItem() ==> c.currentEntry.Some?)
  }

  ghost function Step(c: Context, ev: Event): (r: Stepped)
    requires Admits(c, ev)
    ensures r.context.PointersInside() && |r.context.slots| == |c.slots|
  {
    match ev
    case StartObject => OnStartObject(c)
    case EndObject => Stepped(OnEndObject(c), true)
    case StartArray => Stepped(OnStartArray(c), true)
    case EndArray => Stepped(OnEndArray(c), true)
    case Member(name) => OnMember(c, name)
    case Text(s) => Stepped(OnText(c, s), true)
    case Number(s) => Stepped(OnNumber(c, s), true)
    case Unhandled => Stepped(c, true)
  }

  // ---------------------------------------------------------------- legal event streams

  datatype Frame = InArray | AwaitMember | AwaitValue

  /** A value may start at top level, in an array, or after a member name, which it uses up. */
  function BeginValue(st: seq<Frame>): Option<seq<Frame>> {
    if st == [] then Some(st)
    else
      var top := |st| - 1;
      match st[top]
      case InArray => Some(st)
      case AwaitValue => Some(st[top := AwaitMember])
      case AwaitMember => None
  }

  /** The order in which a JSON parser can report events; None where it cannot. */
  function Nest(st: seq<Frame>, ev: Event): Option<seq<Frame>> {
    var top := |st| - 1;
    match ev
    case StartObject => var b := BeginValue(st); if b.Some? then Some(b.value + [AwaitMember]) else None
    case StartArray => var b := BeginValue(st); if b.Some? then Some(b.value + [InArray]) else None
    case EndObject => if st != [] && st[top] == AwaitMember then Some(st[..top]) else None
    case EndArray => if st != [] && st[top] == InArray then Some(st[..top]) else None
    case Member(_) => if st != [] && st[top] == AwaitMember then Some(st[top := AwaitValue]) else None
    case Text(_) => BeginValue(st)
    case Number(_) => BeginValue(st)
    case Unhandled => BeginValue(st)
  }

  function Objects(st: seq<Frame>): (n: nat) {
    if st == [] then 0 else Objects(st[..|st| - 1]) + if st[|st| - 1] == InArray then 0 else 1
  }

  function Arrays(st: seq<Frame>): (n: nat)
    ensures n + Objects(st) == |st|
  {
    if st == [] then 0 else Arrays(st[..|st| - 1]) + if st[|st| - 1] == InArray then 1 else 0
  }

  /** The nesting after a stream, None for a stream no parser reports. */
  function Nesting(st: seq<Frame>, evs: seq<Event>): Option<seq<Frame>>
    decreases |evs|
  {
    if evs == [] then Some(st)
    else
      var next := Nest(st, evs[0]);
      if next.None? then None else Nesting(next.value, evs[1..])
  }

  datatype Ending = Completed | Aborted | AssertionFailed

  datatype Outcome = Outcome(context: Context, ending: Ending)

  /** Feeding a stream to the handlers until one of them aborts. */
  ghost function RunEvents(c: Context, evs: seq<Event>): (o: Outcome)
    ensures |o.context.slots| == |c.slots|
    decreases |evs|
  {
    if evs == [] then Outcome(c, Completed)
    else if !Admits(c, evs[0]) then Outcome(c, AssertionFailed)
    else
      var r := Step(c, evs[0]);
      if r.proceed then RunEvents(r.context, evs[1..]) else Outcome(r.context, Aborted)
  }

  lemma {:induction false} RunAppend(c: Context, a: seq<Event>, b: seq<Event>)
    ensures RunEvents(c, a + b) ==
            var o := RunEvents(c, a);
            if o.ending == Completed then RunEvents(o.context, b) else o
    decreases |a|
  {
    if a == [] {
      assert a + b == b;
    } else {
      assert (a + b)[0] == a[0] && (a + b)[1..] == a[1..] + b;
      if Admits(c, a[0]) && Step(c, a[0]).proceed {
        RunAppend(Step(c, a[0]).context, a[1..], b);
      }
    }
  }

  lemma {:induction false} NestingAppend(st: seq<Frame>, a: seq<Event>, b: seq<Event>)
    requires Nesting(st, a + b).Some?
    ensures Nesting(st, a).Some? && Nesting(st, a + b) == Nesting(Nesting(st, a).value, b)
    decreases |a|
  {
    if a == [] {
      assert a + b == b;
    } else {
      assert (a + b)[0] == a[0] && (a + b)[1..] == a[1..] + b;
      NestingAppend(Nest(st, a[0]).value, a[1..], b);
    }
  }

  // ---------------------------------------------------------------- safety

  /** The stack is inside the array of items: an object, then an array. */
  predicate AtItems(st: seq<Frame>) {
    |st| >= 2 && st[0] == AwaitMember && st[1] == InArray
  }

  /** ... and inside an object that is an element of that array. */
  predicate AtItem(st: seq<Frame>) {
    AtItems(st) && |st| >= 3 && st[2] != InArray
  }

  /** What holds of the reader at every point of a legal stream. */
  ghost predicate Safe(c: Context, st: seq<Frame>) {
    && c.PointersInside()
    && c.objectDepth == Objects(st) && c.arrayDepth == Arrays(st)
    && c.size <= |c.slots|
    && (c.inItems ==> AtItems(st) && c.metaString == Some("items"))
    && (c.itemsString.Some? ==> c.inItems)
    && (c.inItems && AtItem(st) ==> c.currentEntry == Some(c.size) && c.size < |c.slots|)
    && (c.inItems && AtItem(st) && st[2] == AwaitValue && c.stringTarget.Some? ==> c.stringTarget.value.slot == c.size)
    && (c.inRoms ==> c.inItems && AtItem(st) && |st| >= 4 && st[2] == AwaitMember && st[3] == InArray &&
                     c.itemsString == Some("subsystem_roms"))
  }

  lemma {:induction false} CountsAtItems(st: seq<Frame>)
    requires AtItems(st)
    ensures Objects(st) >= 1 && Arrays(st) >= 1
    ensures |st| >= 3 ==> if st[2] == InArray then Arrays(st) >= 2 else Objects(st) >= 2
    ensures |st| >= 4 ==> if st[3] == InArray then Arrays(st) >= 2 else Objects(st) >= 2
    ensures |st| >= 4 && st[2] == st[3] == InArray ==> Arrays(st) >= 3
  {
    var n := |st| - 1;
    if |st| == 2 {
      assert st[..1] == [AwaitMember];
      assert [AwaitMember][..0] == [];
    } else {
      CountsAtItems(st[..n]);
      if |st| == 4 {
        assert st[..n][..2] == st[..2];
      }
    }
  }

  /** The counters tell exactly when the parser is directly inside an item object. */
  lemma InsideItemIsAtItem(c: Context, st: seq<Frame>)
    requires Safe(c, st)
    ensures c.InsideItem() <==> c.inItems && AtItem(st) && |st| == 3
  {
    if c.inItems {
      CountsAtItems(st);
      if |st| == 2 {
        assert st[..1] == [AwaitMember];
      }
      if |st| == 3 {
        assert st[..2][..1] == [AwaitMember];
        CountsAtItems(st[..2]);
      }
    }
  }

  lemma NestCounts(st: seq<Frame>, ev: Event)
    requires Nest(st, ev).Some?
    ensures var st' := Nest(st, ev).value;
            && Objects(st') == Objects(st) + (if ev.StartObject? then 1 else if ev.EndObject? then -1 else 0)
            && Arrays(st') == Arrays(st) + (if ev.StartArray? then 1 else if ev.EndArray? then -1 else 0)
  {
    var st' := Nest(st, ev).value;
    if !ev.EndObject? && !ev.EndArray? && !ev.Member? {
      var b := BeginValue(st).value;
      assert b != [] ==> b[..|b| - 1] == st[..|st| - 1];
      if ev.StartObject? || ev.StartArray? {
        assert st'[..|st'| - 1] == b;
      }
    } else if ev.Member? {
      assert st'[..|st'| - 1] == st[..|st| - 1];
    }
  }

  /** At a legal event the handlers' own demands are met. */
  lemma SafeAdmits(c: Context, st: seq<Frame>, ev: Event)
    requires Safe(c, st) && Nest(st, ev).Some?
    ensures Admits(c, ev)
  {
    InsideItemIsAtItem(c, st);
    NestCounts(st, ev);
  }
}
