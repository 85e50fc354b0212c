/** The two JSON writers, as streams of the events a parser reports for what they print. */
module PlaylistJsonWriter {
  import opened CText
  import opened JsonEvents
  import opened PlaylistModel
  import opened Playlist
  import opened PlaylistJson

  /** A member of an item together with its value. */
  datatype Value =
    | StringValue(f: StringField, s: string)
    | NumberValue(n: NumberField, v: uint32)
    | RomsValue(roms: seq<string>)

  function StringName(f: StringField): string {
    match f
    case FPath => "path"
    case FLabel => "label"
    case FCorePath => "core_path"
    case FCoreName => "core_name"
    case FCrc32 => "crc32"
    case FDbName => "db_name"
    case FIdent => "subsystem_ident"
    case FName => "subsystem_name"
  }

  function NumberName(n: NumberField): string {
    match n
    case NHours => "runtime_hours"
    case NMinutes => "runtime_minutes"
    case NSeconds => "runtime_seconds"
    case NYear => "last_played_year"
    case NMonth => "last_played_month"
    case NDay => "last_played_day"
    case NHour => "last_played_hour"
    case NMinute => "last_played_minute"
    case NSecond => "last_played_second"
  }

  function Texts(ss: seq<string>): (evs: seq<Event>) {
    seq(|ss|, i requires 0 <= i < |ss| => Text(ss[i]))
  }

  function Events(v: Value): seq<Event> {
    match v
    case StringValue(f, s) => [Member(StringName(f)), Text(s)]
    case NumberValue(n, x) => [Member(NumberName(n)), Number(Dec(x))]
    case RomsValue(roms) => [Member("subsystem_roms"), StartArray] + Texts(roms) + [EndArray]
  }

  function AllEvents(vs: seq<Value>): seq<Event> {
    FlatMap(Events, vs)
  }

  function ItemEvents(vs: seq<Value>): seq<Event> {
    [StartObject] + AllEvents(vs) + [EndObject]
  }

  function ItemsEvents(items: seq<seq<Value>>): seq<Event> {
    FlatMap(ItemEvents, items)
  }

  function StringValues(e: Entry): seq<Value> {
    [StringValue(FPath, Str(e.path)), StringValue(FLabel, Str(e.labelText)),
     StringValue(FCorePath, Str(e.corePath)), StringValue(FCoreName, Str(e.coreName)),
     StringValue(FCrc32, Str(e.crc32)), StringValue(FDbName, Str(e.dbName))]
  }

  function IdentValues(e: Entry): seq<Value> {
    if Empty(e.subsystemIdent) then [] else [StringValue(FIdent, e.subsystemIdent.value)]
  }

  function NameValues(e: Entry): seq<Value> {
    if Empty(e.subsystemName) then [] else [StringValue(FName, e.subsystemName.value)]
  }

  function RomsValues(e: Entry): seq<Value> {
    if e.subsystemRoms.Some? && |e.subsystemRoms.value| > 0 then [RomsValue(e.subsystemRoms.value)] else []
  }

  function SubsystemValues(e: Entry): seq<Value> {
    IdentValues(e) + NameValues(e) + RomsValues(e)
  }

  /** What `playlist_write_file` writes of an entry. */
  function ItemValues(e: Entry): seq<Value> {
    StringValues(e) + SubsystemValues(e)
  }

  /** What `playlist_write_runtime_file` writes of an entry. */
  function RuntimeValues(e: Entry): seq<Value> {
    [StringValue(FPath, Str(e.path)), StringValue(FCorePath, Str(e.corePath)),
     NumberValue(NHours, e.runtime.hours), NumberValue(NMinutes, e.runtime.minutes),
     NumberValue(NSeconds, e.runtime.seconds), NumberValue(NYear, e.runtime.year),
     NumberValue(NMonth, e.runtime.month), NumberValue(NDay, e.runtime.day),
     NumberValue(NHour, e.runtime.hour), NumberValue(NMinute, e.runtime.minute),
     NumberValue(NSecond, e.runtime.second)]
  }

  function AllItems(list: seq<Entry>): (items: seq<seq<Value>>)
    ensures |items| == |list|
  {
    seq(|list|, i requires 0 <= i < |list| => ItemValues(list[i]))
  }

  function AllRuntimeItems(list: seq<Entry>): (items: seq<seq<Value>>)
    ensures |items| == |list|
  {
    seq(|list|, i requires 0 <= i < |list| => RuntimeValues(list[i]))
  }

  lemma Bracketed(base: seq<Event>, a: seq<Value>, b: seq<Value>)
    ensures base + [StartObject] + AllEvents(a) + AllEvents(b) + [EndObject] == base + ItemEvents(a + b)
  {
    FlatMapAppend(Events, a, b);
    Reassociate(base, [StartObject], AllEvents(a), AllEvents(b), [EndObject]);
  }

  lemma Reassociate<T>(a: seq<T>, b: seq<T>, c: seq<T>, d: seq<T>, e: seq<T>)
    ensures a + b + c + d + e == a + (b + (c + d) + e)
  {
  }

  lemma AllItemsStep(list: seq<Entry>)
    requires list != []
    ensures var n := |list| - 1;
            ItemsEvents(AllItems(list)) == ItemsEvents(AllItems(list[..n])) + ItemEvents(ItemValues(list[n]))
  {
    var n := |list| - 1;
    assert AllItems(list) == AllItems(list[..n]) + [ItemValues(list[n])];
    FlatMapStep(ItemEvents, AllItems(list[..n]), ItemValues(list[n]));
  }

  lemma AllRuntimeItemsStep(list: seq<Entry>)
    requires list != []
    ensures var n := |list| - 1;
            ItemsEvents(AllRuntimeItems(list)) ==
            ItemsEvents(AllRuntimeItems(list[..n])) + ItemEvents(RuntimeValues(list[n]))
  {
    var n := |list| - 1;
    assert AllRuntimeItems(list) == AllRuntimeItems(list[..n]) + [RuntimeValues(list[n])];
    FlatMapStep(ItemEvents, AllRuntimeItems(list[..n]), RuntimeValues(list[n]));
  }

  function Header(defaultPath: string, defaultName: string): seq<Event> {
    [StartObject, Member("version"), Text("1.1"),
     Member("default_core_path"), Text(defaultPath), Member("default_core_name"), Text(defaultName),
     Member("items"), StartArray]
  }

  const RUNTIME_HEADER: seq<Event> :=
    [StartObject, Member("version"), Text("1.0"), Member("items"), StartArray]

  const TRAILER: seq<Event> := [EndArray, EndObject]

  function FileEvents(list: seq<Entry>, defaultPath: Option<string>, defaultName: Option<string>): seq<Event> {
    Header(Str(defaultPath), Str(defaultName)) + ItemsEvents(AllItems(list)) + TRAILER
  }

  function RuntimeFileEvents(list: seq<Entry>): seq<Event> {
    RUNTIME_HEADER + ItemsEvents(AllRuntimeItems(list)) + TRAILER
  }

  // ---------------------------------------------------------------- the writers

  class JsonWriter {
    var events: seq<Event>

    constructor ()
      ensures events == []
    {
      events := [];
    }

    method Put(ev: Event)
      modifies this
      ensures events == old(events) + [ev]
    {
      events := events + [ev];
    }

    method PutString(name: string, s: string)
      modifies this
      ensures events == old(events) + [Member(name), Text(s)]
    {
      Put(Member(name));
      Put(Text(s));
    }

    method PutNumber(name: string, n: uint32)
      modifies this
      ensures events == old(events) + [Member(name), Number(Dec(n))]
    {
      Put(Member(name));
      Put(Number(Dec(n)));
    }

    /** The ROM list of an item, element by element. */
    method PutRoms(roms: seq<string>)
      modifies this
      ensures events == old(events) + Events(RomsValue(roms))
    {
      Put(Member("subsystem_roms"));
      Put(StartArray);
      var j := 0;
      while j < |roms|
        invariant j <= |roms|
        invariant events == old(events) + [Member("subsystem_roms"), StartArray] + Texts(roms[..j])
      {
        assert Texts(roms[..j + 1]) == Texts(roms[..j]) + [Text(roms[j])];
        Put(Text(roms[j]));
        j := j + 1;
      }
      assert roms[..j] == roms;
      Put(EndArray);
    }

    method PutValue(v: Value)
      modifies this
      ensures events == old(events) + Events(v)
    {
      match v {
        case StringValue(f, s) => PutString(StringName(f), s);
        case NumberValue(n, x) => PutNumber(NumberName(n), x);
        case RomsValue(roms) => PutRoms(roms);
      }
    }

    /** Writing member k of an item after those before it. */
    method PutMember(v: Value, ghost base: seq<Event>, ghost vs: seq<Value>, ghost k: nat)
      requires k < |vs| && v == vs[k]
      requires events == base + AllEvents(vs[..k])
      modifies this
      ensures events == base + AllEvents(vs[..k + 1])
    {
      assert vs[..k + 1] == vs[..k] + [v];
      FlatMapStep(Events, vs[..k], v);
      PutValue(v);
    }

    method PutStrings(e: Entry)
      modifies this
      ensures events == old(events) + AllEvents(StringValues(e))
    {
      ghost var base, vs := events, StringValues(e);
      PutPaths(e, base, vs);
      PutDetails(e, base, vs);
    }

    method PutPaths(e: Entry, ghost base: seq<Event>, ghost vs: seq<Value>)
      requires vs == StringValues(e) && events == base
      modifies this
      ensures events == base + AllEvents(vs[..3])
    {
      assert base + AllEvents(vs[..0]) == base;
      PutMember(StringValue(FPath, Str(e.path)), base, vs, 0);
      PutMember(StringValue(FLabel, Str(e.labelText)), base, vs, 1);
      PutMember(StringValue(FCorePath, Str(e.corePath)), base, vs, 2);
    }

    method PutDetails(e: Entry, ghost base: seq<Event>, ghost vs: seq<Value>)
      requires vs == StringValues(e) && events == base + AllEvents(vs[..3])
      modifies this
      ensures events == base + AllEvents(vs)
    {
      PutMember(StringValue(FCoreName, Str(e.coreName)), base, vs, 3);
      PutMember(StringValue(FCrc32, Str(e.crc32)), base, vs, 4);
      PutMember(StringValue(FDbName, Str(e.dbName)), base, vs, 5);
      assert vs[..6] == vs;
    }

    method PutIdent(e: Entry)
      modifies this
      ensures events == old(events) + AllEvents(IdentValues(e))
    {
      if !Empty(e.subsystemIdent) {
        FlatMapOne(Events, StringValue(FIdent, e.subsystemIdent.value));
        PutValue(StringValue(FIdent, e.subsystemIdent.value));
      }
    }

    method PutName(e: Entry)
      modifies this
      ensures events == old(events) + AllEvents(NameValues(e))
    {
      if !Empty(e.subsystemName) {
        FlatMapOne(Events, StringValue(FName, e.subsystemName.value));
        PutValue(StringValue(FName, e.subsystemName.value));
      }
    }

    method PutRomList(e: Entry)
      modifies this
      ensures events == old(events) + AllEvents(RomsValues(e))
    {
      if e.subsystemRoms.Some? && |e.subsystemRoms.value| > 0 {
        FlatMapOne(Events, RomsValue(e.subsystemRoms.value));
        PutValue(RomsValue(e.subsystemRoms.value));
      }
    }

    method PutSubsystem(e: Entry)
      modifies this
      ensures events == old(events) + AllEvents(SubsystemValues(e))
    {
      FlatMapAfter(Events, events, IdentValues(e), NameValues(e), RomsValues(e));
      PutIdent(e);
      PutName(e);
      PutRomList(e);
    }

    method PutItem(e: Entry)
      modifies this
      ensures events == old(events) + ItemEvents(ItemValues(e))
    {
      Bracketed(events, StringValues(e), SubsystemValues(e));
      Put(StartObject);
      PutStrings(e);
      PutSubsystem(e);
      Put(EndObject);
    }

    method PutPlayTime(e: Entry, ghost base: seq<Event>, ghost vs: seq<Value>)
      requires vs == RuntimeValues(e) && events == base + AllEvents(vs[..2])
      modifies this
      ensures events == base + AllEvents(vs[..5])
    {
      PutMember(NumberValue(NHours, e.runtime.hours), base, vs, 2);
      PutMember(NumberValue(NMinutes, e.runtime.minutes), base, vs, 3);
      PutMember(NumberValue(NSeconds, e.runtime.seconds), base, vs, 4);
    }

    method PutDate(e: Entry, ghost base: seq<Event>, ghost vs: seq<Value>)
      requires vs == RuntimeValues(e) && events == base + AllEvents(vs[..5])
      modifies this
      ensures events == base + AllEvents(vs[..8])
    {
      PutMember(NumberValue(NYear, e.runtime.year), base, vs, 5);
      PutMember(NumberValue(NMonth, e.runtime.month), base, vs, 6);
      PutMember(NumberValue(NDay, e.runtime.day), base, vs, 7);
    }

    method PutTime(e: Entry, ghost base: seq<Event>, ghost vs: seq<Value>)
      requires vs == RuntimeValues(e) && events == base + AllEvents(vs[..8])
      modifies this
      ensures events == base + AllEvents(vs)
    {
      PutMember(NumberValue(NHour, e.runtime.hour), base, vs, 8);
      PutMember(NumberValue(NMinute, e.runtime.minute), base, vs, 9);
      PutMember(NumberValue(NSecond, e.runtime.second), base, vs, 10);
      assert vs[..11] == vs;
    }

    method PutContent(e: Entry, ghost base: seq<Event>, ghost vs: seq<Value>)
      requires vs == RuntimeValues(e) && events == base
      modifies this
      ensures events == base + AllEvents(vs[..2])
    {
      assert base + AllEvents(vs[..0]) == base;
      PutMember(StringValue(FPath, Str(e.path)), base, vs, 0);
      PutMember(StringValue(FCorePath, Str(e.corePath)), base, vs, 1);
    }

    method PutRuntimeItem(e: Entry)
      modifies this
      ensures events == old(events) + ItemEvents(RuntimeValues(e))
    {
      Put(StartObject);
      ghost var base, vs := events, RuntimeValues(e);
      PutContent(e, base, vs);
      PutPlayTime(e, base, vs);
      PutDate(e, base, vs);
      PutTime(e, base, vs);
      Put(EndObject);
    }

    /** The loop over the live entries. */
    method PutItems(p: Playlist)
      requires p.Valid()
      modifies this
      ensures events == old(events) + ItemsEvents(AllItems(p.List()))
    {
      var i := 0;
      while i < p.size
        invariant i <= p.size
        invariant events == old(events) + ItemsEvents(AllItems(p.entries[..i]))
      {
        AllItemsStep(p.entries[..i + 1]);
        assert p.entries[..i + 1][..i] == p.entries[..i];
        PutItem(p.entries[i]);
        i := i + 1;
      }
    }

    method PutRuntimeItems(p: Playlist)
      requires p.Valid()
      modifies this
      ensures events == old(events) + ItemsEvents(AllRuntimeItems(p.List()))
    {
      var i := 0;
      while i < p.size
        invariant i <= p.size
        invariant events == old(events) + ItemsEvents(AllRuntimeItems(p.entries[..i]))
      {
        AllRuntimeItemsStep(p.entries[..i + 1]);
        assert p.entries[..i + 1][..i] == p.entries[..i];
        PutRuntimeItem(p.entries[i]);
        i := i + 1;
      }
    }

    /** The head of a file, up to its item list. */
    method PutHeader(defaultPath: string, defaultName: string)
      modifies this
      ensures events == old(events) + Header(defaultPath, defaultName)
    {
      Put(StartObject);
      PutString("version", "1.1");
      PutString("default_core_path", defaultPath);
      PutString("default_core_name", defaultName);
      Put(Member("items"));
      Put(StartArray);
    }

    method PutRuntimeHeader()
      modifies this
      ensures events == old(events) + RUNTIME_HEADER
    {
      Put(StartObject);
      PutString("version", "1.0");
      Put(Member("items"));
      Put(StartArray);
    }

    method PutTrailer()
      modifies this
      ensures events == old(events) + TRAILER
    {
      Put(EndArray);
      Put(EndObject);
    }
  }

  /** Writing an entry dereferences its core path, and in the full format its core name. */
  ghost predicate Writable(list: seq<Entry>) {
    forall i :: 0 <= i < |list| ==> list[i].corePath.Some? && list[i].coreName.Some?
  }

  /** The JSON branch of `playlist_write_file`. Nothing is written when nothing changed or the file
      cannot be opened. */
  method WriteFile(p: Playlist, canOpen: bool) returns (file: Option<seq<Event>>)
    requires p.Valid() && Writable(p.List())
    modifies p`modified
    ensures p.Valid()
    ensures file == if old(p.modified) && canOpen
                    then Some(FileEvents(p.List(), p.defaultCorePath, p.defaultCoreName)) else None
    ensures p.modified == (old(p.modified) && !canOpen)
  {
    if !p.modified || !canOpen {
      return None;
    }
    var w := new JsonWriter();
    w.PutHeader(Str(p.defaultCorePath), Str(p.defaultCoreName));
    assert w.events == Header(Str(p.defaultCorePath), Str(p.defaultCoreName));
    w.PutItems(p);
    w.PutTrailer();
    p.modified := false;
    return Some(w.events);
  }

  /** `playlist_write_runtime_file` */
  method WriteRuntimeFile(p: Playlist, canOpen: bool) returns (file: Option<seq<Event>>)
    requires p.Valid() && forall i :: 0 <= i < p.size ==> p.entries[i].corePath.Some?
    modifies p`modified
    ensures p.Valid()
    ensures file == if old(p.modified) && canOpen then Some(RuntimeFileEvents(p.List())) else None
    ensures p.modified == (old(p.modified) && !canOpen)
  {
    if !p.modified || !canOpen {
      return None;
    }
    var w := new JsonWriter();
    w.PutRuntimeHeader();
    assert w.events == RUNTIME_HEADER;
    w.PutRuntimeItems(p);
    w.PutTrailer();
    p.modified := false;
    return Some(w.events);
  }
}
