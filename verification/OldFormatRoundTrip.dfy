/** Reading what the old-format writer wrote: the records always come back, and the default core
    exactly when the text at the end of the file is not ambiguous. */
module OldFormatRoundTrip {
  import opened CText
  import opened PlaylistModel
  import opened OldFormat

  /** A line that fits the reader's buffer and cannot be mistaken for two. */
  ghost predicate CleanLine(l: string) {
    '\n' !in l && '\r' !in l && |l| < LINE_LIMIT
  }

  ghost predicate AllClean(lines: seq<string>) {
    forall i :: 0 <= i < |lines| ==> CleanLine(lines[i])
  }

  // ---------------------------------------------------------------- one line

  lemma {:induction false} LineLengthOf(l: string, rest: string, limit: nat)
    requires '\n' !in l && |l| < limit
    ensures LineLength(l + "\n" + rest, limit) == |l| + 1
  {
    var s := l + "\n" + rest;
    if l != "" {
      assert s[1..] == l[1..] + "\n" + rest;
      LineLengthOf(l[1..], rest, limit - 1);
    }
  }

  lemma GetsLine(l: string, rest: string)
    requires CleanLine(l)
    ensures Gets(l + "\n" + rest) == Some(Line(l + "\n", rest))
  {
    LineLengthOf(l, rest, LINE_LIMIT);
    var s := l + "\n" + rest;
    assert s[..|l| + 1] == l + "\n" && s[|l| + 1..] == rest;
  }

  lemma {:induction false} LastIndexNone(s: string, c: char)
    requires c !in s
    ensures LastIndex(s, c) == None
  {
    if s != "" {
      assert forall x :: x in s[..|s| - 1] ==> x in s;
      LastIndexNone(s[..|s| - 1], c);
    }
  }

  lemma {:induction false} LastIndexAt(u: string, c: char, v: string)
    requires c !in v
    ensures LastIndex(u + [c] + v, c) == Some(|u|)
  {
    var s := u + [c] + v;
    if v != "" {
      assert s[|s| - 1] == v[|v| - 1] && s[..|s| - 1] == u + [c] + v[..|v| - 1];
      assert v[|v| - 1] in v;
      LastIndexAt(u, c, v[..|v| - 1]);
    }
  }

  lemma StripLine(l: string)
    requires CleanLine(l)
    ensures StripEnd(l + "\n") == l
  {
    LastIndexNone(l + "\n", '\r');
    LastIndexAt(l, '\n', "");
    assert l + ['\n'] + "" == l + "\n";
  }

  // ---------------------------------------------------------------- records

  lemma JoinFirst(lines: seq<string>)
    requires lines != []
    ensures JoinLines(lines) == lines[0] + "\n" + JoinLines(lines[1..])
  {
    assert lines == [lines[0]] + lines[1..];
    FlatMapAppend(WithEnd, [lines[0]], lines[1..]);
    FlatMapOne(WithEnd, lines[0]);
  }

  /** The first of some clean lines is read off. */
  lemma ReadFirstLine(lines: seq<string>, rest: string)
    requires AllClean(lines) && lines != []
    ensures Gets(JoinLines(lines) + rest) == Some(Line(lines[0] + "\n", JoinLines(lines[1..]) + rest))
    ensures StripEnd(lines[0] + "\n") == lines[0]
  {
    JoinFirst(lines);
    var tail := JoinLines(lines[1..]) + rest;
    assert JoinLines(lines) + rest == lines[0] + "\n" + tail;
    assert CleanLine(lines[0]);
    GetsLine(lines[0], tail);
    StripLine(lines[0]);
  }

  lemma {:induction false} ReadFieldsOfLines(lines: seq<string>, rest: string)
    requires AllClean(lines)
    ensures ReadFields(JoinLines(lines) + rest, |lines|) == Some(Fields(lines, rest))
  {
    if lines == [] {
      assert JoinLines(lines) + rest == rest;
    } else {
      ReadFirstLine(lines, rest);
      ReadFieldsOfLines(lines[1..], rest);
      assert [lines[0]] + lines[1..] == lines;
    }
  }

  lemma {:induction false} ReadFieldsTooFew(lines: seq<string>, n: nat)
    requires AllClean(lines) && |lines| < n
    ensures ReadFields(JoinLines(lines), n) == None
  {
    if lines != [] {
      JoinFirst(lines);
      GetsLine(lines[0], JoinLines(lines[1..]));
      ReadFieldsTooFew(lines[1..], n - 1);
    }
  }

  /** What the six lines keep of an entry. */
  function OldPersisted(e: Entry): Entry {
    EntryOf(FieldsOf(e))
  }

  function OldPersistedList(list: seq<Entry>): (r: seq<Entry>)
    ensures |r| == |list|
  {
    seq(|list|, i requires 0 <= i < |list| => OldPersisted(list[i]))
  }

  ghost predicate OldWritable(e: Entry) {
    AllClean(FieldsOf(e)) && !Empty(e.corePath) && !Empty(e.coreName)
  }

  ghost predicate AllOldWritable(list: seq<Entry>) {
    forall i :: 0 <= i < |list| ==> OldWritable(list[i])
  }

  lemma RecordStep(text: string, f: seq<string>, rest: string, room: nat)
    requires |f| == 6 && AllClean(f) && f[2] != "" && f[3] != "" && room > 0
    requires text == JoinLines(f) + rest
    ensures ReadRecords(text, room) == [EntryOf(f)] + ReadRecords(rest, room - 1)
  {
    ReadFieldsOfLines(f, rest);
  }

  lemma FirstRecord(list: seq<Entry>, extra: string)
    requires list != []
    ensures JoinLines(FlatMap(FieldsOf, list)) + extra ==
            JoinLines(FieldsOf(list[0])) + (JoinLines(FlatMap(FieldsOf, list[1..])) + extra)
  {
    assert list == [list[0]] + list[1..];
    FlatMapAppend(FieldsOf, [list[0]], list[1..]);
    FlatMapOne(FieldsOf, list[0]);
    FlatMapAppend(WithEnd, FieldsOf(list[0]), FlatMap(FieldsOf, list[1..]));
  }

  lemma {:induction false} ReadRecordsOf(list: seq<Entry>, extra: seq<string>, room: nat)
    requires AllOldWritable(list) && AllClean(extra) && |extra| < 6
    ensures ReadRecords(JoinLines(FlatMap(FieldsOf, list)) + JoinLines(extra), room) ==
            OldPersistedList(Take(list, room))
  {
    var text := JoinLines(FlatMap(FieldsOf, list)) + JoinLines(extra);
    if list == [] {
      assert text == JoinLines(extra);
      ReadFieldsTooFew(extra, 6);
    } else if room > 0 {
      var rest := JoinLines(FlatMap(FieldsOf, list[1..])) + JoinLines(extra);
      FirstRecord(list, JoinLines(extra));
      assert OldWritable(list[0]);
      RecordStep(text, FieldsOf(list[0]), rest, room);
      ReadRecordsOf(list[1..], extra, room - 1);
      FirstPersisted(list, room);
    }
  }

  lemma FirstPersisted(list: seq<Entry>, room: nat)
    requires list != [] && room > 0
    ensures OldPersistedList(Take(list, room)) ==
            [OldPersisted(list[0])] + OldPersistedList(Take(list[1..], room - 1))
  {
  }

  // ---------------------------------------------------------------- metadata

  function Newlines(k: nat): string {
    if k == 0 then "" else Newlines(k - 1) + "\n"
  }

  lemma {:induction false} TrimNewlines(s: string, k: nat)
    requires s != "" && s[|s| - 1] != '\n' && s[|s| - 1] != '\r'
    ensures TrimEnd(s + Newlines(k)) == s
  {
    var t := s + Newlines(k);
    if k > 0 {
      assert t[..|t| - 1] == s + Newlines(k - 1);
      TrimNewlines(s, k - 1);
    } else {
      assert t == s;
    }
  }

  lemma LastTwoNewlines(before: string, a: string, b: string)
    requires before != "" && before[|before| - 1] == '\n'
    requires '\n' !in a && '\n' !in b && b != ""
    ensures var t := before + a + "\n" + b;
            && LastIndex(t[..|t| - 1], '\n') == Some(|before + a|)
            && LastIndex(t[..|before + a|], '\n') == Some(|before| - 1)
  {
    var t := before + a + "\n" + b;
    var cut := b[..|b| - 1];
    assert t[..|t| - 1] == (before + a) + ['\n'] + cut;
    LastIndexAt(before + a, '\n', cut);
    var start := before[..|before| - 1];
    assert t[..|before + a|] == start + ['\n'] + a;
    LastIndexAt(start, '\n', a);
  }

  lemma LastIsVisible(front: string, b: string)
    requires CleanLine(b) && b != ""
    ensures var t := front + b; t[|t| - 1] != '\n' && t[|t| - 1] != '\r'
  {
    assert b[|b| - 1] in b;
  }

  lemma ScanStopsBeforeLastTwo(before: string, a: string, b: string, k: nat)
    requires before != "" && before[|before| - 1] == '\n'
    requires CleanLine(a) && CleanLine(b) && b != ""
    ensures MetadataStart(before + a + "\n" + b + Newlines(k)) == Some(|before|)
  {
    var front := before + a + "\n";
    LastIsVisible(front, b);
    LastTwoNewlines(before, a, b);
    ScanFrom(front + b, k, |before + a|, |before| - 1);
  }

  lemma ScanFrom(t: string, k: nat, i: nat, j: nat)
    requires t != "" && t[|t| - 1] != '\n' && t[|t| - 1] != '\r'
    requires i <= |t| && LastIndex(t[..|t| - 1], '\n') == Some(i) && LastIndex(t[..i], '\n') == Some(j)
    ensures MetadataStart(t + Newlines(k)) == Some(j + 1)
  {
    TrimNewlines(t, k);
    SecondNewline(t + Newlines(k), t, i, j);
  }

  lemma SecondNewline(text: string, t: string, i: nat, j: nat)
    requires TrimEnd(text) == t && t != "" && i <= |t| && LastIndex(t[..|t| - 1], '\n') == Some(i)
    requires LastIndex(t[..i], '\n') == Some(j)
    ensures MetadataStart(text) == Some(j + 1)
  {
  }

  lemma GetsBeforeNewlines(b: string, k: nat)
    requires CleanLine(b) && k > 0
    ensures Gets(b + Newlines(k)).Some? && Gets(b + Newlines(k)).value.text == b + "\n"
  {
    NewlinesFirst(k);
    assert b + Newlines(k) == b + "\n" + Newlines(k - 1);
    GetsLine(b, Newlines(k - 1));
  }

  lemma ScanFindsStart(before: string, a: string, b: string, k: nat)
    requires before != "" && before[|before| - 1] == '\n'
    requires CleanLine(a) && CleanLine(b) && b != ""
    ensures MetadataStart(before + (a + "\n" + (b + Newlines(k)))) == Some(|before|)
  {
    ScanStopsBeforeLastTwo(before, a, b, k);
    var tail := Newlines(k);
    assert before + a + "\n" + b + tail == before + (a + "\n" + (b + tail));
  }

  /** With a complete line in front of them, the backward scan finds the last two visible lines. */
  lemma ScanFindsLastTwo(before: string, a: string, b: string, k: nat)
    requires before != "" && before[|before| - 1] == '\n'
    requires CleanLine(a) && CleanLine(b) && b != "" && k > 0
    ensures var text := before + (a + "\n" + (b + Newlines(k)));
            && MetadataStart(text) == Some(|before|)
            && Gets(text[|before|..]) == Some(Line(a + "\n", b + Newlines(k)))
            && Gets(b + Newlines(k)).Some? && Gets(b + Newlines(k)).value.text == b + "\n"
  {
    ScanFindsStart(before, a, b, k);
    GetsAfter(before, a, b + Newlines(k));
    GetsBeforeNewlines(b, k);
  }

  lemma GetsAfter(before: string, a: string, rest: string)
    requires CleanLine(a)
    ensures Gets((before + (a + "\n" + rest))[|before|..]) == Some(Line(a + "\n", rest))
  {
    var line := a + "\n" + rest;
    assert (before + line)[|before|..] == line;
    GetsLine(a, rest);
  }

  lemma {:induction false} NewlinesFirst(k: nat)
    requires k > 0
    ensures Newlines(k) == "\n" + Newlines(k - 1)
  {
    if k > 1 {
      NewlinesFirst(k - 1);
    }
  }

  lemma {:induction false} FirstIndexNone(s: string, c: char)
    requires c !in s
    ensures FirstIndex(s, c) == None
  {
    if s != "" {
      FirstIndexNone(s[1..], c);
    }
  }

  lemma {:induction false} FirstIndexAt(u: string, c: char, v: string)
    requires c !in u
    ensures FirstIndex(u + [c] + v, c) == Some(|u|)
  {
    var s := u + [c] + v;
    if u != "" {
      assert s[1..] == u[1..] + [c] + v;
      FirstIndexAt(u[1..], c, v);
    }
  }

  lemma {:induction false} FirstIndexIgnoresEnd(s: string, c: char)
    requires c != '\n'
    ensures FirstIndex(s + "\n", c) == FirstIndex(s, c)
  {
    if s != "" {
      assert (s + "\n")[1..] == s[1..] + "\n";
      FirstIndexIgnoresEnd(s[1..], c);
    } else {
      assert (s + "\n")[1..] == "";
    }
  }

  lemma MetadataValueIgnoresEnd(l: string)
    ensures MetadataValue(l + "\n") == MetadataValue(l)
  {
    FirstIndexIgnoresEnd(l, '"');
    var start := FirstIndex(l, '"');
    if start.Some? {
      var value := l[start.value + 1..];
      assert (l + "\n")[start.value + 1..] == value + "\n";
      FirstIndexIgnoresEnd(value, '"');
    }
  }

  lemma PrefixIgnoresEnd(key: string, l: string)
    requires '\n' !in key
    ensures key <= l + "\n" <==> key <= l
  {
    assert (l + "\n")[|l|] == '\n';
    assert forall i :: 0 <= i < |key| ==> key[i] in key;
    if |key| <= |l| {
      assert (l + "\n")[..|key|] == l[..|key|];
    }
  }

  lemma DefaultsIgnoreEnds(a: string, b: string)
    ensures DefaultsIn(a + "\n", b + "\n") == DefaultsIn(a, b)
  {
    PrefixIgnoresEnd(PATH_KEY, a);
    PrefixIgnoresEnd(NAME_KEY, b);
    MetadataValueIgnoresEnd(a);
    MetadataValueIgnoresEnd(b);
  }

  /** The value of a metadata line is what precedes the first quote in what was written. */
  lemma {:induction false} QuotedValue(key: string, value: string)
    requires '"' !in key
    ensures var read := MetadataValue(key + " = \"" + value + "\"");
            read <= value && (read == value <==> '"' !in value)
  {
    var l := key + " = \"" + value + "\"";
    var head := key + " = ";
    assert l == head + ['"'] + (value + "\"");
    assert '"' !in head;
    FirstIndexAt(head, '"', value + "\"");
    assert l[|head| + 1..] == value + "\"";
    if '"' in value {
      var i := FirstQuote(value);
      assert value + "\"" == value[..i] + ['"'] + (value[i + 1..] + "\"");
      FirstIndexAt(value[..i], '"', value[i + 1..] + "\"");
      assert (value + "\"")[..i] == value[..i];
    } else {
      assert value + "\"" == value + ['"'] + "";
      FirstIndexAt(value, '"', "");
      assert (value + "\"")[..|value|] == value;
    }
  }

  lemma {:induction false} FirstQuote(s: string) returns (i: nat)
    requires '"' in s
    ensures i < |s| && s[i] == '"' && '"' !in s[..i]
  {
    if s[0] == '"' {
      i := 0;
    } else {
      assert s == [s[0]] + s[1..];
      i := FirstQuote(s[1..]);
      assert s[1..][..i] == s[1..i + 1];
      assert s[..i + 1] == [s[0]] + s[1..i + 1];
      i := i + 1;
    }
  }

  /** A default core written to the file is found again exactly when neither value contains a quote. */
  lemma WrittenDefaults(path: string, name: string)
    requires path != "" && name != ""
    ensures DefaultsIn(PathLine(path), NameLine(name)) == Defaults(path, name) <==> '"' !in path && '"' !in name
  {
    QuotedValue(PATH_KEY, path);
    QuotedValue(NAME_KEY, name);
    assert PATH_KEY <= PathLine(path) && NAME_KEY <= NameLine(name);
  }

  // ---------------------------------------------------------------- the end of the file

  /** The last visible line of a record and the line before it. */
  function LastTwo(e: Entry): (string, string) {
    if !Empty(e.dbName) then (Str(e.crc32), Str(e.dbName))
    else if !Empty(e.crc32) then (Str(e.coreName), Str(e.crc32))
    else (Str(e.corePath), Str(e.coreName))
  }

  lemma JoinAppend(a: seq<string>, b: seq<string>)
    ensures JoinLines(a + b) == JoinLines(a) + JoinLines(b)
  {
    FlatMapAppend(WithEnd, a, b);
  }

  lemma JoinEndsInNewline(lines: seq<string>)
    requires lines != []
    ensures var t := JoinLines(lines); t != "" && t[|t| - 1] == '\n'
  {
  }

  /** Two lines and then k - 1 empty ones. */
  lemma {:induction false} JoinLastTwo(a: string, b: string, k: nat)
    requires k > 0
    ensures JoinLines([a, b] + seq(k - 1, _ => "")) == a + "\n" + (b + Newlines(k))
  {
    var lines := [a, b] + seq(k - 1, _ => "");
    if k == 1 {
      assert lines == [a] + [b];
      JoinAppend([a], [b]);
      FlatMapOne(WithEnd, a);
      FlatMapOne(WithEnd, b);
      assert Newlines(1) == Newlines(0) + "\n" == "\n";
    } else {
      assert lines == ([a, b] + seq(k - 2, _ => "")) + [""];
      JoinLastTwo(a, b, k - 1);
      FlatMapStep(WithEnd, [a, b] + seq(k - 2, _ => ""), "");
    }
  }

  /** The record lines of a file end in some lines, the last two visible ones, and empty ones. */
  lemma EndOfRecords(list: seq<Entry>) returns (before: seq<string>, k: nat)
    requires list != [] && AllOldWritable(list)
    ensures before != [] && k > 0
    ensures var e := list[|list| - 1];
            && FlatMap(FieldsOf, list) == before + ([LastTwo(e).0, LastTwo(e).1] + seq(k - 1, _ => ""))
            && CleanLine(LastTwo(e).0) && CleanLine(LastTwo(e).1) && LastTwo(e).1 != ""
  {
    var n := |list| - 1;
    var e := list[n];
    var f := FieldsOf(e);
    assert OldWritable(e);
    var head := FlatMap(FieldsOf, list[..n]);
    k := if !Empty(e.dbName) then 1 else if !Empty(e.crc32) then 2 else 3;
    before := head + f[..5 - k];
    var (a, b) := LastTwo(e);
    assert f == f[..5 - k] + ([f[5 - k], f[6 - k]] + f[7 - k..]);
    assert f[7 - k..] == seq(k - 1, _ => "");
    assert a == f[5 - k] && b == f[6 - k];
    assert FlatMap(FieldsOf, list) == head + f;
  }

  lemma LastLinesAreRead(lines: seq<string>, before: seq<string>, a: string, b: string, k: nat)
    requires before != [] && k > 0 && CleanLine(a) && CleanLine(b) && b != ""
    requires lines == before + ([a, b] + seq(k - 1, _ => ""))
    ensures forall cap: nat :: ReadOld(JoinLines(lines), cap) ==
                               OldPlaylist(ReadRecords(JoinLines(lines), cap), DefaultsIn(a, b))
  {
    JoinAppend(before, [a, b] + seq(k - 1, _ => ""));
    JoinLastTwo(a, b, k);
    JoinEndsInNewline(before);
    ScanFindsLastTwo(JoinLines(before), a, b, k);
    DefaultsIgnoreEnds(a, b);
  }

  // ---------------------------------------------------------------- the theorem

  /** The file has metadata lines. */
  predicate HasDefaults(path: Option<string>, name: Option<string>) {
    !Empty(path) && !Empty(name)
  }

  /** What a reader takes for the default core of such a file. */
  function ReadDefaults(list: seq<Entry>, path: Option<string>, name: Option<string>): Defaults
    requires list != []
  {
    if HasDefaults(path, name) then DefaultsIn(PathLine(path.value), NameLine(name.value))
    else DefaultsIn(LastTwo(list[|list| - 1]).0, LastTwo(list[|list| - 1]).1)
  }

  lemma ReadOldText(list: seq<Entry>, path: Option<string>, name: Option<string>, cap: nat)
    requires list != [] && AllOldWritable(list) && AllClean(MetadataLines(path, name))
    ensures ReadOld(OldText(list, path, name), cap) ==
            OldPlaylist(OldPersistedList(Take(list, cap)), ReadDefaults(list, path, name))
  {
    var records, extra := FlatMap(FieldsOf, list), MetadataLines(path, name);
    JoinAppend(records, extra);
    ReadRecordsOf(list, extra, cap);
    var before, k := EndOfRecords(list);
    if HasDefaults(path, name) {
      assert CleanLine(extra[0]) && CleanLine(extra[1]);
      assert records + extra == records + ([PathLine(path.value), NameLine(name.value)] + seq(0, _ => ""));
      LastLinesAreRead(records + extra, records, PathLine(path.value), NameLine(name.value), 1);
    } else {
      var e := list[|list| - 1];
      assert records + extra == records;
      LastLinesAreRead(records + extra, before, LastTwo(e).0, LastTwo(e).1, k);
    }
  }

  /** The last two visible lines of the last record look like a default core. */
  predicate LooksLikeDefaults(a: string, b: string) {
    PATH_KEY <= a && NAME_KEY <= b && MetadataValue(a) != "" && MetadataValue(b) != ""
  }

  /** Reading an old-format file gives exactly the first `cap` entries. The default core comes back, or
      its absence does, exactly when the written values are free of quotes, or no record line passes for
      metadata. */
  lemma OldRoundTrip(list: seq<Entry>, path: Option<string>, name: Option<string>, cap: nat)
    requires list != [] && AllOldWritable(list) && AllClean(MetadataLines(path, name))
    ensures var r := ReadOld(OldText(list, path, name), cap);
            var last := LastTwo(list[|list| - 1]);
            && r.list == OldPersistedList(Take(list, cap))
            && (HasDefaults(path, name) ==>
                  (r.defaults == Defaults(path.value, name.value) <==> '"' !in path.value && '"' !in name.value))
            && (!HasDefaults(path, name) ==>
                  (r.defaults == NoDefaults <==> !LooksLikeDefaults(last.0, last.1)))
  {
    ReadOldText(list, path, name, cap);
    if HasDefaults(path, name) {
      WrittenDefaults(path.value, name.value);
    }
  }

  lemma OneNewlineIsTooFew(a: string, b: string, k: nat)
    requires CleanLine(a) && CleanLine(b) && b != ""
    ensures MetadataStart(a + "\n" + b + Newlines(k)) == None
  {
    var t := a + "\n" + b;
    assert t[|t| - 1] == b[|b| - 1] && b[|b| - 1] in b;
    TrimNewlines(t, k);
    assert t[..|t| - 1] == a + ['\n'] + b[..|b| - 1];
    LastIndexAt(a, '\n', b[..|b| - 1]);
    assert t[..|a|] == a;
    LastIndexNone(a, '\n');
  }

  /** An empty playlist does not keep its default core: the scan wants a line in front of it. */
  lemma EmptyPlaylistLosesDefaults(path: string, name: string, cap: nat)
    requires path != "" && name != "" && CleanLine(PathLine(path)) && CleanLine(NameLine(name))
    ensures ReadOld(OldText([], Some(path), Some(name)), cap) == OldPlaylist([], NoDefaults)
  {
    var a, b := PathLine(path), NameLine(name);
    assert FlatMap(FieldsOf, []) + [a, b] == [a, b] + seq(0, _ => "");
    JoinLastTwo(a, b, 1);
    var end := Newlines(1);
    assert a + "\n" + (b + end) == a + "\n" + b + end;
    OneNewlineIsTooFew(a, b, 1);
  }

  // ---------------------------------------------------------------- taken for an old file at all

  /** The first visible character of some lines. */
  function FirstVisible(lines: seq<string>): Option<char> {
    if lines == [] then None
    else if FirstGraph(lines[0]).Some? then FirstGraph(lines[0])
    else FirstVisible(lines[1..])
  }

  lemma {:induction false} FirstGraphOfJoin(line: string, rest: string)
    ensures FirstGraph(line + "\n" + rest) == if FirstGraph(line).Some? then FirstGraph(line) else FirstGraph(rest)
    decreases |line|
  {
    var t := line + "\n" + rest;
    if line == "" {
      assert t[0] == '\n' && t[1..] == rest;
    } else {
      assert t[0] == line[0] && t[1..] == line[1..] + "\n" + rest;
      FirstGraphOfJoin(line[1..], rest);
    }
  }

  lemma {:induction false} FirstGraphOfLines(lines: seq<string>)
    ensures FirstGraph(JoinLines(lines)) == FirstVisible(lines)
    decreases |lines|
  {
    if lines != [] {
      assert lines == [lines[0]] + lines[1..];
      JoinAppend([lines[0]], lines[1..]);
      FlatMapOne(WithEnd, lines[0]);
      FirstGraphOfJoin(lines[0], JoinLines(lines[1..]));
      FirstGraphOfLines(lines[1..]);
    }
  }

  /** A written file is recognised as an old one exactly when something visible is in it and the first
      visible character is not an opening brace: a first path such as "{a" makes it JSON to the reader. */
  lemma RecognisedAsOld(list: seq<Entry>, path: Option<string>, name: Option<string>)
    ensures var first := FirstVisible(FileLines(list, path, name));
            && (FormatOf(OldText(list, path, name)) == OldLineFormat <==> first.Some? && first.value != '{')
            && (FormatOf(OldText(list, path, name)) == JsonFormat <==> first == Some('{'))
  {
    FirstGraphOfLines(FileLines(list, path, name));
  }
}
