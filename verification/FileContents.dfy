/** What the written files show, name by name and line by line, and what is read of files that other programs
    wrote with other line ends. */
module FileContents {
  import opened CText
  import opened JsonEvents
  import opened PlaylistModel
  import opened PlaylistFields
  import opened PlaylistJson
  import opened PlaylistJsonWriter
  import opened PlaylistJsonRoundTrip
  import Old = OldFormat
  import Read = OldFormatRoundTrip
  import Log = RuntimeLog
  import LogFile = RuntimeLogFile

  // ---------------------------------------------------------------- JSON items

  lemma {:induction false} PairsInOrder(vs: seq<Value>)
    requires forall k :: 0 <= k < |vs| ==> !vs[k].RomsValue?
    ensures |AllEvents(vs)| == 2 * |vs|
    ensures forall k :: 0 <= k < |vs| ==> AllEvents(vs)[2 * k] == Events(vs[k])[0]
    ensures forall k :: 0 <= k < |vs| ==> AllEvents(vs)[2 * k + 1] == Events(vs[k])[1]
  {
    if vs != [] {
      PairsInOrder(vs[..|vs| - 1]);
    }
  }

  /** The member at position k of an item. */
  predicate Shows(evs: seq<Event>, k: nat, name: string, value: Event) {
    2 * k + 1 < |evs| && evs[2 * k] == Member(name) && evs[2 * k + 1] == value
  }

  lemma ShowsText(vs: seq<Value>, k: nat, f: StringField, s: string)
    requires forall i :: 0 <= i < |vs| ==> !vs[i].RomsValue?
    requires k < |vs| && vs[k] == StringValue(f, s)
    ensures Shows(AllEvents(vs), k, StringName(f), Text(s))
  {
    PairsInOrder(vs);
  }

  lemma ShowsNumber(vs: seq<Value>, k: nat, f: NumberField, n: uint32)
    requires forall i :: 0 <= i < |vs| ==> !vs[i].RomsValue?
    requires k < |vs| && vs[k] == NumberValue(f, n)
    ensures Shows(AllEvents(vs), k, NumberName(f), Number(Dec(n)))
  {
    PairsInOrder(vs);
  }

  /** How a text is called in a playlist file, and which member of its item it is. */
  function NameInFile(f: Column): (string, nat) {
    match f
    case PathColumn => ("path", 0)
    case LabelColumn => ("label", 1)
    case CorePathColumn => ("core_path", 2)
    case CoreNameColumn => ("core_name", 3)
    case CrcColumn => ("crc32", 4)
    case DbNameColumn => ("db_name", 5)
  }

  function FieldOf(f: Column): StringField {
    match f
    case PathColumn => FPath
    case LabelColumn => FLabel
    case CorePathColumn => FCorePath
    case CoreNameColumn => FCoreName
    case CrcColumn => FCrc32
    case DbNameColumn => FDbName
  }

  lemma TextValueAt(e: Entry, f: Column)
    ensures |StringValues(e)| == 6
    ensures StringValues(e)[NameInFile(f).1] == StringValue(FieldOf(f), Str(TextOf(e, f)))
    ensures StringName(FieldOf(f)) == NameInFile(f).0
  {
  }

  /** The six texts of an item of a playlist file, by their names in the file. */
  lemma WrittenText(e: Entry, f: Column)
    ensures |AllEvents(StringValues(e))| == 12
    ensures Shows(AllEvents(StringValues(e)), NameInFile(f).1, NameInFile(f).0, Text(Str(TextOf(e, f))))
  {
    var vs := StringValues(e);
    PairsInOrder(vs);
    TextValueAt(e, f);
    ShowsText(vs, NameInFile(f).1, FieldOf(f), Str(TextOf(e, f)));
  }

  /** The subsystem identifier and name of an item, each left out when there is none. */
  lemma WrittenSubsystemTexts(e: Entry)
    ensures AllEvents(IdentValues(e)) ==
            if Empty(e.subsystemIdent) then [] else [Member("subsystem_ident"), Text(e.subsystemIdent.value)]
    ensures AllEvents(NameValues(e)) ==
            if Empty(e.subsystemName) then [] else [Member("subsystem_name"), Text(e.subsystemName.value)]
  {
    if !Empty(e.subsystemIdent) {
      FlatMapOne(Events, StringValue(FIdent, e.subsystemIdent.value));
    }
    if !Empty(e.subsystemName) {
      FlatMapOne(Events, StringValue(FName, e.subsystemName.value));
    }
  }

  /** Its ROMs, left out when there are none. */
  lemma WrittenRoms(e: Entry)
    ensures AllEvents(RomsValues(e)) ==
            if e.subsystemRoms.None? || e.subsystemRoms.value == [] then []
            else [Member("subsystem_roms"), StartArray] + Texts(e.subsystemRoms.value) + [EndArray]
  {
    if e.subsystemRoms.Some? && e.subsystemRoms.value != [] {
      FlatMapOne(Events, RomsValue(e.subsystemRoms.value));
    }
  }

  /** A whole item is its texts, its subsystem texts and its ROMs between braces. */
  lemma WrittenItem(e: Entry)
    ensures ItemEvents(ItemValues(e)) ==
            [StartObject] +
            (AllEvents(StringValues(e)) +
             (AllEvents(IdentValues(e)) + AllEvents(NameValues(e)) + AllEvents(RomsValues(e)))) +
            [EndObject]
  {
    FlatMapAppend(Events, StringValues(e), SubsystemValues(e));
    FlatMapAppend(Events, IdentValues(e), NameValues(e));
    FlatMapAppend(Events, IdentValues(e) + NameValues(e), RomsValues(e));
  }

  /** The nine numbers of a play time, how they are called in a runtime file, and which member of its item they are. */
  function NumberInFile(r: Runtime, f: NumberField): (string, nat, uint32) {
    match f
    case NHours => ("runtime_hours", 2, r.hours)
    case NMinutes => ("runtime_minutes", 3, r.minutes)
    case NSeconds => ("runtime_seconds", 4, r.seconds)
    case NYear => ("last_played_year", 5, r.year)
    case NMonth => ("last_played_month", 6, r.month)
    case NDay => ("last_played_day", 7, r.day)
    case NHour => ("last_played_hour", 8, r.hour)
    case NMinute => ("last_played_minute", 9, r.minute)
    case NSecond => ("last_played_second", 10, r.second)
  }

  lemma NumberValueAt(e: Entry, f: NumberField)
    ensures |RuntimeValues(e)| == 11
    ensures RuntimeValues(e)[NumberInFile(e.runtime, f).1] == NumberValue(f, NumberInFile(e.runtime, f).2)
    ensures NumberName(f) == NumberInFile(e.runtime, f).0
  {
  }

  /** The numbers of an item of a runtime file, by their names in the file. */
  lemma WrittenNumber(e: Entry, f: NumberField)
    ensures |AllEvents(RuntimeValues(e))| == 22
    ensures var n := NumberInFile(e.runtime, f);
            Shows(AllEvents(RuntimeValues(e)), n.1, n.0, Number(Dec(n.2)))
  {
    var vs, n := RuntimeValues(e), NumberInFile(e.runtime, f);
    PairsInOrder(vs);
    NumberValueAt(e, f);
    ShowsNumber(vs, n.1, f, n.2);
  }

  /** Its two paths come before them. */
  lemma WrittenRuntimePaths(e: Entry)
    ensures Shows(AllEvents(RuntimeValues(e)), 0, "path", Text(Str(e.path)))
    ensures Shows(AllEvents(RuntimeValues(e)), 1, "core_path", Text(Str(e.corePath)))
  {
    var vs := RuntimeValues(e);
    ShowsText(vs, 0, FPath, Str(e.path));
    ShowsText(vs, 1, FCorePath, Str(e.corePath));
  }

  /** Both files start with their version, the full one with the default core after it, and end with the list. */
  lemma WrittenFrame(list: seq<Entry>, path: Option<string>, name: Option<string>)
    ensures FileEvents(list, path, name) ==
            [StartObject, Member("version"), Text("1.1"), Member("default_core_path"), Text(Str(path)),
             Member("default_core_name"), Text(Str(name)), Member("items"), StartArray] +
            ItemsEvents(AllItems(list)) + [EndArray, EndObject]
    ensures RuntimeFileEvents(list) ==
            [StartObject, Member("version"), Text("1.0"), Member("items"), StartArray] +
            ItemsEvents(AllRuntimeItems(list)) + [EndArray, EndObject]
  {
  }

  /** What the JSON file loses of an entry: nothing, as long as its texts are not empty, but the play time. */
  lemma FileKeepsFields(e: Entry)
    ensures forall f :: TextOf(Persisted(e), f) == StoredText(TextOf(e, f))
    ensures Persisted(e).subsystemIdent == StoredText(e.subsystemIdent)
    ensures Persisted(e).subsystemName == StoredText(e.subsystemName)
    ensures SamePlayTime(Persisted(e).runtime, BLANK.runtime)
    ensures e.subsystemRoms.Some? && e.subsystemRoms.value != [] && "" !in e.subsystemRoms.value ==>
              Persisted(e).subsystemRoms == e.subsystemRoms
  {
    if e.subsystemRoms.Some? && "" !in e.subsystemRoms.value {
      NoneIsEmpty(e.subsystemRoms.value);
    }
  }

  lemma {:induction false} NoneIsEmpty(roms: seq<string>)
    requires "" !in roms
    ensures NonEmptyOnes(roms) == roms
  {
    if roms != [] {
      var n := |roms| - 1;
      assert roms[n] in roms && forall x :: x in roms[..n] ==> x in roms;
      NoneIsEmpty(roms[..n]);
      assert roms[..n] + [roms[n]] == roms;
    }
  }

  /** The runtime file keeps the two paths and the nine numbers. */
  lemma RuntimeFileKeepsFields(e: Entry)
    ensures var r := PersistedRuntime(e);
            && (forall f :: TextOf(r, f) ==
                  if f in {PathColumn, CorePathColumn} then StoredText(TextOf(e, f)) else None)
            && SamePlayTime(r.runtime, e.runtime.(status := RuntimeUnknown))
            && SameOtherwise(r, BLANK.(runtime := r.runtime))
  {
  }

  /** A number that does not fit 64 bits is read as the largest one of 32. */
  lemma HugeNumber(n: nat)
    requires n > 0xFFFF_FFFF_FFFF_FFFF
    ensures StrToUnsigned(Dec(n)) == 0xFFFF_FFFF
  {
    ScanWhole(Dec(n));
    DigitsOfDec(n);
  }

  // ---------------------------------------------------------------- six lines

  lemma JoinStep(lines: seq<string>, line: string)
    ensures Old.JoinLines(lines + [line]) == Old.JoinLines(lines) + line + "\n"
  {
    FlatMapStep(Old.WithEnd, lines, line);
    assert Old.JoinLines(lines) + (line + "\n") == Old.JoinLines(lines) + line + "\n";
  }

  lemma {:induction false} SixLines(a: string, b: string, c: string, d: string, e: string, f: string)
    ensures Old.JoinLines([a, b, c, d, e, f]) ==
            a + "\n" + b + "\n" + c + "\n" + d + "\n" + e + "\n" + f + "\n"
  {
    JoinStep([], a);
    assert [] + [a] == [a] && "" + a == a;
    JoinStep([a], b);
    assert [a] + [b] == [a, b];
    JoinStep([a, b], c);
    assert [a, b] + [c] == [a, b, c];
    JoinStep([a, b, c], d);
    assert [a, b, c] + [d] == [a, b, c, d];
    JoinStep([a, b, c, d], e);
    assert [a, b, c, d] + [e] == [a, b, c, d, e];
    JoinStep([a, b, c, d, e], f);
    assert [a, b, c, d, e] + [f] == [a, b, c, d, e, f];
  }

  /** The lines of an entry, in the order of the old format. */
  lemma WrittenLines(e: Entry)
    ensures Old.JoinLines(Old.FieldsOf(e)) ==
            Str(e.path) + "\n" + Str(e.labelText) + "\n" + Str(e.corePath) + "\n" + Str(e.coreName) + "\n" +
            Str(e.crc32) + "\n" + Str(e.dbName) + "\n"
  {
    SixLines(Str(e.path), Str(e.labelText), Str(e.corePath), Str(e.coreName), Str(e.crc32), Str(e.dbName));
  }

  /** An old-format file is the lines of its entries, one entry after the other. */
  lemma WrittenEntries(list: seq<Entry>, e: Entry)
    ensures Old.OldText([], None, None) == ""
    ensures Old.OldText(list + [e], None, None) ==
            Old.OldText(list, None, None) + Old.JoinLines(Old.FieldsOf(e))
  {
    FlatMapStep(Old.FieldsOf, list, e);
    var before := FlatMap(Old.FieldsOf, list);
    assert before + [] == before;
    assert FlatMap(Old.FieldsOf, list + [e]) + [] == before + Old.FieldsOf(e);
    FlatMapAppend(Old.WithEnd, before, Old.FieldsOf(e));
  }

  lemma MetadataLine(key: string, value: string)
    ensures key + " = \"" + value + "\"" + "\n" == key + " = \"" + value + "\"\n"
  {
  }

  lemma TwoMoreLines(lines: seq<string>, p: string, n: string)
    ensures Old.JoinLines(lines + [p, n]) == Old.JoinLines(lines) + (p + "\n") + (n + "\n")
  {
    JoinStep(lines, p);
    JoinStep(lines + [p], n);
    assert lines + [p] + [n] == lines + [p, n];
  }

  /** ... and then, when there is a default core, its two lines. */
  lemma WrittenMetadata(list: seq<Entry>, path: string, name: string)
    requires path != "" && name != ""
    ensures Old.OldText(list, Some(path), Some(name)) ==
            Old.OldText(list, None, None) + ("default_core_path" + " = \"" + path + "\"\n") +
            ("default_core_name" + " = \"" + name + "\"\n")
    ensures Old.OldText(list, Some(path), None) == Old.OldText(list, None, Some(name)) ==
            Old.OldText(list, None, None)
  {
    var lines := FlatMap(Old.FieldsOf, list);
    assert lines + [] == lines;
    MetadataLine("default_core_path", path);
    MetadataLine("default_core_name", name);
    TwoMoreLines(lines, Old.PathLine(path), Old.NameLine(name));
  }

  // ---------------------------------------------------------------- other line ends

  /** Cutting a line: at its last carriage return, else at its last newline, else not at all. */
  lemma StripEndExactly(a: string, b: string)
    ensures '\r' !in b ==> Old.StripEnd(a + "\r" + b) == a
    ensures '\r' !in a && '\r' !in b && '\n' !in b ==> Old.StripEnd(a + "\n" + b) == a
    ensures '\r' !in a && '\n' !in a ==> Old.StripEnd(a) == a
  {
    if '\r' !in b {
      Read.LastIndexAt(a, '\r', b);
      assert a + ['\r'] + b == a + "\r" + b;
    }
    if '\r' !in a && '\r' !in b && '\n' !in b {
      Read.LastIndexAt(a, '\n', b);
      Read.LastIndexNone(a + "\n" + b, '\r');
      assert a + ['\n'] + b == a + "\n" + b;
    }
    if '\r' !in a && '\n' !in a {
      Read.LastIndexNone(a, '\r');
      Read.LastIndexNone(a, '\n');
    }
  }

  /** A line ends at its newline when that is among the next 1023 characters, and is cut there when it is not. */
  lemma LineIsCut(l: string, rest: string)
    requires '\n' !in l
    ensures |l| < 1023 ==> Old.Gets(l + "\n" + rest) == Some(Old.Line(l + "\n", rest))
    ensures |l| >= 1023 ==> Old.Gets(l + rest) == Some(Old.Line(l[..1023], l[1023..] + rest))
  {
    if |l| < 1023 {
      Read.LineLengthOf(l, rest, 1023);
      var s := l + "\n" + rest;
      assert s[..|l| + 1] == l + "\n" && s[|l| + 1..] == rest;
    } else {
      NoNewline(l, rest, 1023);
      var s := l + rest;
      assert s[..1023] == l[..1023] && s[1023..] == l[1023..] + rest;
    }
  }

  lemma {:induction false} NoNewline(l: string, rest: string, limit: nat)
    requires '\n' !in l && limit <= |l|
    ensures Old.LineLength(l + rest, limit) == limit
  {
    if limit > 0 {
      assert (l + rest)[1..] == l[1..] + rest;
      NoNewline(l[1..], rest, limit - 1);
    }
  }

  /** Six lines that end in carriage return and newline. */
  function WindowsLines(lines: seq<string>): string {
    if lines == [] then "" else lines[0] + "\r\n" + WindowsLines(lines[1..])
  }

  ghost predicate AllShort(lines: seq<string>) {
    forall i :: 0 <= i < |lines| ==> '\n' !in lines[i] && '\r' !in lines[i] && |lines[i]| < 1022
  }

  lemma WindowsLine(l: string, rest: string)
    requires '\n' !in l && '\r' !in l && |l| < 1022
    ensures Old.Gets(l + "\r\n" + rest) == Some(Old.Line(l + "\r\n", rest)) && Old.StripEnd(l + "\r\n") == l
  {
    LineIsCut(l + "\r", rest);
    assert l + "\r" + "\n" + rest == l + "\r\n" + rest && l + "\r" + "\n" == l + "\r\n";
    StripEndExactly(l, "\n");
  }

  lemma {:induction false} FirstWindowsLine(lines: seq<string>, rest: string)
    requires AllShort(lines) && lines != []
    ensures var line := Old.Gets(WindowsLines(lines) + rest);
            && line == Some(Old.Line(lines[0] + "\r\n", WindowsLines(lines[1..]) + rest))
            && Old.StripEnd(line.value.text) == lines[0]
  {
    var tail := WindowsLines(lines[1..]) + rest;
    assert WindowsLines(lines) + rest == lines[0] + "\r\n" + tail;
    WindowsLine(lines[0], tail);
  }

  lemma {:induction false} FieldInFront(s: string, line: Old.Line, f: seq<string>, rest: string)
    requires f != [] && Old.Gets(s) == Some(line) && Old.StripEnd(line.text) == f[0]
    requires Old.ReadFields(line.rest, |f| - 1) == Some(Old.Fields(f[1..], rest))
    ensures Old.ReadFields(s, |f|) == Some(Old.Fields(f, rest))
  {
    assert [f[0]] + f[1..] == f;
  }

  lemma {:induction false} ReadOneWindowsLine(lines: seq<string>, rest: string)
    requires AllShort(lines) && lines != []
    requires Old.ReadFields(WindowsLines(lines[1..]) + rest, |lines| - 1) == Some(Old.Fields(lines[1..], rest))
    ensures Old.ReadFields(WindowsLines(lines) + rest, |lines|) == Some(Old.Fields(lines, rest))
  {
    var s, tail := WindowsLines(lines) + rest, WindowsLines(lines[1..]) + rest;
    FirstWindowsLine(lines, rest);
    FieldInFront(s, Old.Line(lines[0] + "\r\n", tail), lines, rest);
  }

  lemma ShortTail(lines: seq<string>)
    requires AllShort(lines) && lines != []
    ensures AllShort(lines[1..])
  {
  }

  lemma {:induction false} ReadWindowsLines(lines: seq<string>, rest: string)
    requires AllShort(lines)
    ensures Old.ReadFields(WindowsLines(lines) + rest, |lines|) == Some(Old.Fields(lines, rest))
    decreases |lines|
  {
    if lines == [] {
      assert WindowsLines(lines) + rest == rest;
    } else {
      ShortTail(lines);
      ReadWindowsLines(lines[1..], rest);
      ReadOneWindowsLine(lines, rest);
    }
  }

  /** An entry read from six texts: each in its field, and left out when it is empty. */
  ghost predicate ReadFrom(e: Entry, f: seq<string>)
    requires |f| == 6
  {
    && TextOf(e, PathColumn) == StoredText(Some(f[0])) && TextOf(e, LabelColumn) == StoredText(Some(f[1]))
    && TextOf(e, CorePathColumn) == StoredText(Some(f[2])) && TextOf(e, CoreNameColumn) == StoredText(Some(f[3]))
    && TextOf(e, CrcColumn) == StoredText(Some(f[4])) && TextOf(e, DbNameColumn) == StoredText(Some(f[5]))
    && SameOtherwise(e, BLANK)
  }

  lemma {:induction false} RecordRead(f: seq<string>, text: string, rest: string, room: nat)
    requires |f| == 6 && room > 0 && Old.ReadFields(text, 6) == Some(Old.Fields(f, rest)) && |rest| < |text|
    ensures f[2] == "" || f[3] == "" ==> Old.ReadRecords(text, room) == Old.ReadRecords(rest, room)
    ensures f[2] != "" && f[3] != "" ==>
              var list := Old.ReadRecords(text, room);
              list != [] && list[1..] == Old.ReadRecords(rest, room - 1) && ReadFrom(list[0], f)
  {
  }

  /** One record of an old-format file, with either line end: the six texts go into their fields, and without a
      core path or a core name the record is skipped. */
  lemma OneRecord(f: seq<string>, windows: bool, rest: string, room: nat)
    requires |f| == 6 && AllShort(f) && room > 0
    ensures var text := (if windows then WindowsLines(f) else Old.JoinLines(f)) + rest;
            var list := Old.ReadRecords(text, room);
            && (f[2] == "" || f[3] == "" ==> list == Old.ReadRecords(rest, room))
            && (f[2] != "" && f[3] != "" ==>
                  list != [] && list[1..] == Old.ReadRecords(rest, room - 1) && ReadFrom(list[0], f))
  {
    if windows {
      ReadWindowsLines(f, rest);
      RecordRead(f, WindowsLines(f) + rest, rest, room);
    } else {
      ReadUnixLines(f, rest);
      RecordRead(f, Old.JoinLines(f) + rest, rest, room);
    }
  }

  lemma ReadUnixLines(f: seq<string>, rest: string)
    requires AllShort(f)
    ensures Old.ReadFields(Old.JoinLines(f) + rest, |f|) == Some(Old.Fields(f, rest))
  {
    Read.ReadFieldsOfLines(f, rest);
  }

  lemma {:induction false} TooFewWindowsLines(lines: seq<string>, n: nat)
    requires AllShort(lines) && |lines| < n
    ensures Old.ReadFields(WindowsLines(lines), n) == None
    decreases |lines|
  {
    if lines != [] {
      FirstWindowsLine(lines, "");
      assert WindowsLines(lines) + "" == WindowsLines(lines);
      assert WindowsLines(lines[1..]) + "" == WindowsLines(lines[1..]);
      TooFewWindowsLines(lines[1..], n - 1);
    }
  }

  lemma {:induction false} WindowsAppend(a: seq<string>, b: seq<string>)
    ensures WindowsLines(a + b) == WindowsLines(a) + WindowsLines(b)
  {
    if a == [] {
      assert a + b == b && "" + WindowsLines(b) == WindowsLines(b);
    } else {
      assert (a + b)[1..] == a[1..] + b && (a + b)[0] == a[0];
      WindowsAppend(a[1..], b);
      var first := a[0] + "\r\n";
      assert first + (WindowsLines(a[1..]) + WindowsLines(b)) == first + WindowsLines(a[1..]) + WindowsLines(b);
    }
  }

  lemma {:induction false} SplitText(lines: seq<string>, n: nat)
    requires n <= |lines|
    ensures Old.JoinLines(lines) == Old.JoinLines(lines[..n]) + Old.JoinLines(lines[n..])
    ensures WindowsLines(lines) == WindowsLines(lines[..n]) + WindowsLines(lines[n..])
  {
    assert lines == lines[..n] + lines[n..];
    FlatMapAppend(Old.WithEnd, lines[..n], lines[n..]);
    WindowsAppend(lines[..n], lines[n..]);
  }

  lemma NoRecord(lines: seq<string>, room: nat)
    requires AllShort(lines) && |lines| < 6
    ensures Old.ReadRecords(WindowsLines(lines), room) == [] && Old.ReadRecords(Old.JoinLines(lines), room) == []
  {
    TooFewWindowsLines(lines, 6);
    assert Read.AllClean(lines);
    Read.ReadFieldsTooFew(lines, 6);
  }

  /** Line by line, it makes no difference to the entries which of the two line ends a file has. */
  lemma {:induction false} LineEndsDoNotMatter(lines: seq<string>, room: nat)
    requires AllShort(lines)
    ensures Old.ReadRecords(WindowsLines(lines), room) == Old.ReadRecords(Old.JoinLines(lines), room)
    decreases |lines|
  {
    if |lines| < 6 {
      NoRecord(lines, room);
    } else if room > 0 {
      var f, tail := lines[..6], lines[6..];
      LineEndsDoNotMatter(tail, room);
      LineEndsDoNotMatter(tail, room - 1);
      SplitText(lines, 6);
      SameFirstRecord(f, WindowsLines(tail), Old.JoinLines(tail), room);
    }
  }

  lemma SameFirstRecord(f: seq<string>, a: string, b: string, room: nat)
    requires |f| == 6 && AllShort(f) && room > 0
    requires Old.ReadRecords(a, room) == Old.ReadRecords(b, room)
    requires Old.ReadRecords(a, room - 1) == Old.ReadRecords(b, room - 1)
    ensures Old.ReadRecords(WindowsLines(f) + a, room) == Old.ReadRecords(Old.JoinLines(f) + b, room)
  {
    ReadWindowsLines(f, a);
    ReadUnixLines(f, b);
  }

  /** The first visible character of a file decides: a brace for JSON, anything else for six lines. */
  lemma FormatByFirst(a: string, c: char, b: string)
    requires (forall k :: 0 <= k < |a| ==> a[k] < '!' || a[k] > '~') && '!' <= c <= '~'
    ensures Old.FormatOf(a + [c] + b) == if c == '{' then Old.JsonFormat else Old.OldLineFormat
    ensures Old.FormatOf(a) == Old.NothingToRead
  {
    FirstVisible(a, c, b);
  }

  lemma {:induction false} FirstVisible(a: string, c: char, b: string)
    requires (forall k :: 0 <= k < |a| ==> a[k] < '!' || a[k] > '~') && '!' <= c <= '~'
    ensures Old.FirstGraph(a + [c] + b) == Some(c) && Old.FirstGraph(a) == None
  {
    if a == "" {
      assert (a + [c] + b)[0] == c;
    } else {
      assert (a + [c] + b)[1..] == a[1..] + [c] + b && (a + [c] + b)[0] == a[0];
      FirstVisible(a[1..], c, b);
    }
  }

  /** A default core is only read from two lines that start with the two keys, and only with both values. */
  lemma DefaultsNeedBoth(pathLine: string, nameLine: string)
    requires Old.DefaultsIn(pathLine, nameLine) != Old.NoDefaults
    ensures "default_core_path" <= pathLine && "default_core_name" <= nameLine
    ensures Old.DefaultsIn(pathLine, nameLine) ==
            Old.Defaults(Old.MetadataValue(pathLine), Old.MetadataValue(nameLine))
    ensures Old.MetadataValue(pathLine) != "" && Old.MetadataValue(nameLine) != ""
  {
  }

  // ---------------------------------------------------------------- the runtime log

  /** A number below 100 in two digits. */
  function TwoDigits(n: nat): string
    requires n < 100
  {
    [('0' as int + n / 10) as char, ('0' as int + n % 10) as char]
  }

  lemma PaddedTwo(n: nat)
    requires n < 100
    ensures Padded(n, 2) == TwoDigits(n)
  {
    if n < 10 {
      assert Dec(n) == [('0' as int + n) as char];
    } else {
      assert Dec(n) == Dec(n / 10) + [DigitChar(n % 10)];
    }
  }

  lemma PaddedFour(n: nat)
    requires n < 10000
    ensures Padded(n, 4) == TwoDigits(n / 100) + TwoDigits(n % 100)
  {
    if n < 10 {
      assert Dec(n) == [DigitChar(n)];
    } else if n < 100 {
      assert Dec(n) == Dec(n / 10) + [DigitChar(n % 10)];
    } else if n < 1000 {
      assert n / 10 / 10 == n / 100 && n / 10 % 10 == n % 100 / 10 && n % 10 == n % 100 % 10;
      assert Dec(n) == Dec(n / 10) + [DigitChar(n % 10)];
      assert Dec(n / 10) == Dec(n / 100) + [DigitChar(n / 10 % 10)];
    } else {
      FourDigits(n);
    }
  }

  lemma {:induction false} FourDigits(n: nat)
    requires 1000 <= n < 10000
    ensures Dec(n) == TwoDigits(n / 100) + TwoDigits(n % 100)
  {
    assert n / 10 / 10 == n / 100 && n / 100 / 10 == n / 1000 && n / 100 % 10 == n / 100 % 10;
    assert n / 10 % 10 == n % 100 / 10 && n % 10 == n % 100 % 10;
    assert Dec(n) == Dec(n / 10) + [DigitChar(n % 10)];
    assert Dec(n / 10) == Dec(n / 100) + [DigitChar(n / 10 % 10)];
    assert Dec(n / 100) == Dec(n / 1000) + [DigitChar(n / 100 % 10)];
    assert Dec(n / 1000) == [DigitChar(n / 1000)];
  }

  /** A log file shows the play time as hours, minutes and seconds. */
  lemma WrittenRuntime(log: Log.Log)
    requires log.minutes < 100 && log.seconds < 100
    ensures var evs := LogFile.SavedEvents(log);
            && |evs| == 8 && evs[..4] == [StartObject, Member("version"), Text("1.0"), Member("runtime")]
            && evs[4] == Text(Dec(log.hours) + ":" + TwoDigits(log.minutes) + ":" + TwoDigits(log.seconds))
            && evs[7] == EndObject
  {
    PaddedTwo(log.minutes);
    PaddedTwo(log.seconds);
    RightToLeft(Dec(log.hours), ":", TwoDigits(log.minutes), ":", TwoDigits(log.seconds));
  }

  lemma RightToLeft(a: string, b: string, c: string, d: string, e: string)
    ensures a + (b + (c + (d + e))) == a + b + c + d + e
  {
  }

  /** ... and when it was last played as year, month and day, and the time of day. */
  lemma WrittenLastPlayed(log: Log.Log)
    requires log.year < 10000 && log.month < 100 && log.day < 100
    requires log.hour < 100 && log.minute < 100 && log.second < 100
    ensures var evs := LogFile.SavedEvents(log);
            var date := TwoDigits(log.year / 100) + TwoDigits(log.year % 100) + "-" + TwoDigits(log.month) + "-" +
                        TwoDigits(log.day);
            var time := TwoDigits(log.hour) + ":" + TwoDigits(log.minute) + ":" + TwoDigits(log.second);
            evs[5] == Member("last_played") && evs[6] == Text(date + (" " + time))
  {
    WrittenClock(log);
    PaddedFour(log.year);
    PaddedTwo(log.month);
    PaddedTwo(log.day);
    var year := TwoDigits(log.year / 100) + TwoDigits(log.year % 100);
    var clock := " " + LogFile.ClockText(log);
    DateFirst(year, TwoDigits(log.month), TwoDigits(log.day), clock);
  }

  lemma WrittenClock(log: Log.Log)
    requires log.hour < 100 && log.minute < 100 && log.second < 100
    ensures LogFile.ClockText(log) ==
            TwoDigits(log.hour) + ":" + TwoDigits(log.minute) + ":" + TwoDigits(log.second)
  {
    PaddedTwo(log.hour);
    PaddedTwo(log.minute);
    PaddedTwo(log.second);
    RightToLeft(TwoDigits(log.hour), ":", TwoDigits(log.minute), ":", TwoDigits(log.second));
  }

  lemma DateFirst(year: string, month: string, day: string, clock: string)
    ensures year + ("-" + (month + ("-" + (day + clock)))) == year + "-" + month + "-" + day + clock
  {
  }
}
