/** The old format in place: a file with a cursor, the scan from its end, the record loop. */
module OldFormatFile {
  import opened CText
  import opened PlaylistModel
  import opened Playlist
  import opened OldFormat

  lemma LineGrows(text: string, i: nat, limit: nat)
    requires i <= |text| && limit > 0
    ensures LineLength(text[i..], limit) ==
            if i == |text| then 0 else if text[i] == '\n' then 1 else 1 + LineLength(text[i + 1..], limit - 1)
  {
    if i < |text| {
      assert text[i..][1..] == text[i + 1..];
    }
  }

  /** An open file. Seeking in front of the first byte sets the error flag and moves nothing. */
  class FileStream {
    const text: string
    var pos: nat
    var error: bool

    constructor (text: string)
      ensures this.text == text && pos == 0 && !error
    {
      this.text := text;
      pos, error := 0, false;
    }

    ghost function Rest(): string
      requires pos <= |text|
      reads this
    {
      text[pos..]
    }

    /** `filestream_getc`; None is EOF. */
    method Getc() returns (c: Option<char>)
      requires pos <= |text|
      modifies this`pos
      ensures c == if old(pos) < |text| then Some(text[old(pos)]) else None
      ensures pos == Min(old(pos) + 1, |text|)
    {
      if pos < |text| {
        c := Some(text[pos]);
        pos := pos + 1;
      } else {
        c := None;
      }
    }

    /** The loop of `filestream_gets` with a buffer of 1024. */
    method Collect() returns (s: string)
      requires pos <= |text|
      modifies this`pos
      ensures pos == old(pos) + LineLength(old(Rest()), LINE_LIMIT) <= |text|
      ensures s == text[old(pos)..pos]
    {
      s := "";
      ghost var start := pos;
      var c := None;
      while |s| < LINE_LIMIT
        invariant |s| <= LINE_LIMIT && pos == start + |s| <= |text| && s == text[start..pos]
        invariant LineLength(text[start..], LINE_LIMIT) == |s| + LineLength(text[pos..], LINE_LIMIT - |s|)
      {
        LineGrows(text, pos, LINE_LIMIT - |s|);
        c := Getc();
        if c.None? {
          return;
        }
        s := s + [c.value];
        if c.value == '\n' {
          return;
        }
      }
    }

    /** `filestream_gets` */
    method GetLine() returns (line: Option<string>)
      requires pos <= |text|
      modifies this`pos
      ensures pos <= |text|
      ensures var r := Gets(old(Rest()));
              if r.None? then line.None? && pos == old(pos) else line == Some(r.value.text) && Rest() == r.value.rest
    {
      ghost var start := pos;
      var s := Collect();
      assert text[start..][..|s|] == s && text[start..][|s|..] == text[pos..];
      if s == "" {
        return None;
      }
      return Some(s);
    }

    /** `filestream_seek` relative to the cursor or, before the last byte, to the end. */
    method SeekBack(from: nat, distance: nat)
      requires from <= |text|
      modifies this
      ensures if distance <= from then pos == from - distance && error == old(error)
              else pos == old(pos) && error
    {
      if distance <= from {
        pos := from - distance;
      } else {
        error := true;
      }
    }

    method Rewind()
      modifies this`pos
      ensures pos == 0
    {
      pos := 0;
    }
  }

  lemma SkipInvisible(text: string, i: nat)
    requires i < |text| && !IsGraph(text[i])
    ensures FirstGraph(text[i..]) == FirstGraph(text[i + 1..])
  {
    assert text[i..][1..] == text[i + 1..];
  }

  lemma FirstGraphAt(text: string, i: nat)
    requires i <= |text| && (i < |text| ==> IsGraph(text[i]))
    ensures FirstGraph(text[i..]) == if i < |text| then Some(text[i]) else None
  {
    assert i < |text| ==> text[i..][0] == text[i];
  }

  /** The format detection loop. */
  method DetectFormat(f: FileStream) returns (format: Format)
    requires f.pos == 0
    modifies f
    ensures format == FormatOf(f.text) && f.pos == 0 && f.error == old(f.error)
  {
    var c := f.Getc();
    ghost var at := 0;
    assert f.text[0..] == f.text;
    while c.Some? && !IsGraph(c.value)
      invariant at <= |f.text| && f.pos == Min(at + 1, |f.text|) && f.error == old(f.error)
      invariant c == if at < |f.text| then Some(f.text[at]) else None
      invariant FirstGraph(f.text) == FirstGraph(f.text[at..])
      decreases |f.text| - at
    {
      SkipInvisible(f.text, at);
      c := f.Getc();
      at := at + 1;
    }
    FirstGraphAt(f.text, at);
    f.Rewind();
    return if c.None? then NothingToRead else if c.value == '{' then JsonFormat else OldLineFormat;
  }

  /** Steps back over the line ends at the end of the file; the cursor ends up after the last visible
      character. */
  method SkipTrailingLineEnds(f: FileStream) returns (found: bool)
    requires !f.error
    modifies f
    ensures f.pos <= |f.text| && f.error == !found
    ensures found == (TrimEnd(f.text) != "")
    ensures found ==> f.pos == |TrimEnd(f.text)|
  {
    f.SeekBack(|f.text|, 1);
    if f.error {
      f.Rewind();
      return false;
    }
    var c := f.Getc();
    assert f.text[..f.pos] == f.text;
    while c == Some('\n') || c == Some('\r')
      invariant 1 <= f.pos <= |f.text| && !f.error && c == Some(f.text[f.pos - 1])
      invariant TrimEnd(f.text) == TrimEnd(f.text[..f.pos])
      decreases f.pos
    {
      assert f.text[..f.pos][..f.pos - 1] == f.text[..f.pos - 1];
      f.SeekBack(f.pos, 2);
      if f.error {
        assert f.text[..f.pos - 1] == "";
        return false;
      }
      c := f.Getc();
    }
    return true;
  }

  /** Steps back until a newline has been read; the cursor ends up after it. */
  method BackToNewline(f: FileStream) returns (found: bool)
    requires 1 <= f.pos <= |f.text| && !f.error
    modifies f
    ensures f.pos <= |f.text| && f.error == !found
    ensures var at := LastIndex(f.text[..old(f.pos) - 1], '\n');
            found == at.Some? && (found ==> f.pos == at.value + 1)
  {
    ghost var from := f.pos - 1;
    var c := None;
    while c != Some('\n')
      invariant 1 <= f.pos <= from + 1 && !f.error
      invariant if c == Some('\n')
                then LastIndex(f.text[..from], '\n') == Some(f.pos - 1)
                else LastIndex(f.text[..from], '\n') == LastIndex(f.text[..f.pos - 1], '\n')
      decreases c != Some('\n'), f.pos
    {
      f.SeekBack(f.pos, 2);
      if f.error {
        return false;
      }
      ghost var head := f.text[..f.pos + 1];
      assert head[..|head| - 1] == f.text[..f.pos];
      c := f.Getc();
    }
    return true;
  }

  /** The backward scan: past the line ends, then back over two newlines. */
  method FindMetadata(f: FileStream) returns (found: bool)
    requires !f.error
    modifies f
    ensures f.pos <= |f.text|
    ensures MetadataStart(f.text) == if found then Some(f.pos) else None
  {
    found := SkipTrailingLineEnds(f);
    if !found {
      return;
    }
    ghost var t := TrimEnd(f.text);
    assert f.text[..|t| - 1] == t[..|t| - 1];
    found := BackToNewline(f);
    if !found {
      return;
    }
    ghost var a := f.pos - 1;
    assert f.text[..a] == t[..a];
    found := BackToNewline(f);
  }

  /** The metadata part of the old-format reader. */
  method ReadMetadata(f: FileStream, ghost cap: nat) returns (found: bool, defaults: Defaults)
    requires !f.error
    modifies f
    ensures f.pos <= |f.text|
    ensures ReadOld(f.text, cap) == if found then OldPlaylist(ReadRecords(f.text, cap), defaults)
                                    else OldPlaylist([], NoDefaults)
  {
    defaults := NoDefaults;
    found := FindMetadata(f);
    if !found {
      return;
    }
    var pathLine := f.GetLine();
    if pathLine.None? {
      return false, NoDefaults;
    }
    var nameLine := f.GetLine();
    if nameLine.None? {
      return false, NoDefaults;
    }
    defaults := DefaultsIn(pathLine.value, nameLine.value);
  }

  lemma OneField(s: string)
    ensures ReadFields(s, 1) ==
            if Gets(s).None? then None else Some(Fields([StripEnd(Gets(s).value.text)], Gets(s).value.rest))
  {
    if Gets(s).Some? {
      var line := Gets(s).value;
      var one: nat := 1;
      assert ReadFields(line.rest, one - 1) == Some(Fields([], line.rest));
      assert [StripEnd(line.text)] + [] == [StripEnd(line.text)];
    }
  }

  /** The first of some lines, and the others. */
  lemma FirstField(s: string, k: nat, buf: seq<string>, left: string)
    requires k > 0
    ensures ReadFields(s, k) == Some(Fields(buf, left)) <==>
            && Gets(s).Some? && buf != [] && buf[0] == StripEnd(Gets(s).value.text)
            && ReadFields(Gets(s).value.rest, k - 1) == Some(Fields(buf[1..], left))
  {
    if Gets(s).Some? && buf != [] {
      assert buf == [buf[0]] + buf[1..];
      var more := ReadFields(Gets(s).value.rest, k - 1);
      if more.Some? {
        assert ([StripEnd(Gets(s).value.text)] + more.value.fields)[1..] == more.value.fields;
      }
    }
  }

  lemma RestEnds(s: string, k: nat)
    requires k > 0 && Gets(s).Some? && ReadFields(Gets(s).value.rest, k - 1).None?
    ensures ReadFields(s, k).None?
  {
  }

  lemma OneMoreThanNone(s: string, buf: seq<string>, left: string)
    requires buf == [] && left == s
    ensures var line := Gets(left);
            ReadFields(s, 1) ==
            if line.None? then None else Some(Fields(buf + [StripEnd(line.value.text)], line.value.rest))
  {
    OneField(s);
    if Gets(s).Some? {
      var x := StripEnd(Gets(s).value.text);
      assert buf + [x] == [x];
    }
  }

  /** One more line than before. */
  lemma {:induction false} ReadOneMore(s: string, k: nat, buf: seq<string>, left: string)
    requires ReadFields(s, k) == Some(Fields(buf, left))
    ensures var line := Gets(left);
            ReadFields(s, k + 1) ==
            if line.None? then None else Some(Fields(buf + [StripEnd(line.value.text)], line.value.rest))
    decreases k
  {
    if k == 0 {
      OneMoreThanNone(s, buf, left);
    } else {
      FirstField(s, k, buf, left);
      ReadOneMore(Gets(s).value.rest, k - 1, buf[1..], left);
      OneMoreInFront(s, k, buf, left);
    }
  }

  lemma OneMoreInFront(s: string, k: nat, buf: seq<string>, left: string)
    requires k > 0 && Gets(s).Some? && buf != [] && buf[0] == StripEnd(Gets(s).value.text)
    requires var line := Gets(left);
             ReadFields(Gets(s).value.rest, k) ==
             if line.None? then None else Some(Fields(buf[1..] + [StripEnd(line.value.text)], line.value.rest))
    ensures var line := Gets(left);
            ReadFields(s, k + 1) ==
            if line.None? then None else Some(Fields(buf + [StripEnd(line.value.text)], line.value.rest))
  {
    var line := Gets(left);
    if line.Some? {
      var longer := buf + [StripEnd(line.value.text)];
      assert longer[1..] == buf[1..] + [StripEnd(line.value.text)];
      FirstField(s, k + 1, longer, line.value.rest);
    } else {
      RestEnds(s, k + 1);
    }
  }

  /** Once the file has ended, asking for more lines does not help. */
  lemma {:induction false} EndedEarly(s: string, k: nat, n: nat)
    requires k <= n && ReadFields(s, k).None?
    ensures ReadFields(s, n).None?
    decreases k
  {
    if k > 0 && Gets(s).Some? {
      EndedEarly(Gets(s).value.rest, k - 1, n - 1);
    }
  }

  lemma NoMoreLines(s: string, n: nat, buf: seq<string>, left: string)
    requires |buf| < n && ReadFields(s, |buf|) == Some(Fields(buf, left)) && Gets(left).None?
    ensures ReadFields(s, n).None?
  {
    ReadOneMore(s, |buf|, buf, left);
    EndedEarly(s, |buf| + 1, n);
  }

  lemma {:induction false} OneLineMore(s: string, buf: seq<string>, left: string, longer: seq<string>)
    requires ReadFields(s, |buf|) == Some(Fields(buf, left)) && Gets(left).Some?
    requires longer == buf + [StripEnd(Gets(left).value.text)]
    ensures ReadFields(s, |longer|) == Some(Fields(longer, Gets(left).value.rest))
  {
    ReadOneMore(s, |buf|, buf, left);
  }

  /** The inner loop of the record loop, for n lines. */
  method GetLines(f: FileStream, n: nat) returns (fields: Option<seq<string>>)
    requires f.pos <= |f.text|
    modifies f`pos
    ensures old(f.pos) <= f.pos <= |f.text|
    ensures var r := ReadFields(old(f.Rest()), n);
            if r.None? then fields.None?
            else fields == Some(r.value.fields) && f.Rest() == r.value.rest && f.pos >= old(f.pos) + n
  {
    var buf := [];
    ghost var start, left := f.Rest(), f.Rest();
    while |buf| < n
      invariant |buf| <= n && old(f.pos) + |buf| <= f.pos <= |f.text|
      invariant left == f.Rest() && ReadFields(start, |buf|) == Some(Fields(buf, left))
    {
      var line := f.GetLine();
      if line.None? {
        NoMoreLines(start, n, buf, left);
        return None;
      }
      OneLineMore(start, buf, left, buf + [StripEnd(line.value)]);
      buf := buf + [StripEnd(line.value)];
      left := f.Rest();
    }
    return Some(buf);
  }

  /** The six lines of a record. */
  method GetRecord(f: FileStream) returns (fields: Option<seq<string>>)
    requires f.pos <= |f.text|
    modifies f`pos
    ensures old(f.pos) <= f.pos <= |f.text|
    ensures var r := ReadFields(old(f.Rest()), 6);
            if r.None? then fields.None?
            else fields == Some(r.value.fields) && f.Rest() == r.value.rest && f.pos > old(f.pos)
  {
    fields := GetLines(f, 6);
  }

  /** The string assignments that fill a fresh slot. */
  method FillSlot(slot: Entry, fields: seq<string>) returns (e: Entry)
    requires |fields| == 6 && slot == BLANK
    ensures e == EntryOf(fields)
  {
    e := slot;
    if fields[0] != "" {
      e := e.(path := Some(fields[0]));
    }
    if fields[1] != "" {
      e := e.(labelText := Some(fields[1]));
    }
    e := e.(corePath := Some(fields[2]), coreName := Some(fields[3]));
    if fields[4] != "" {
      e := e.(crc32 := Some(fields[4]));
    }
    if fields[5] != "" {
      e := e.(dbName := Some(fields[5]));
    }
  }

  /** The slots that hold no entry yet. */
  ghost predicate BlankTail(p: Playlist)
    requires p.Valid()
    reads p, p.entries
  {
    forall j :: p.size <= j < p.entries.Length ==> p.entries[j] == BLANK
  }

  method StoreRecord(p: Playlist, fields: seq<string>)
    requires |fields| == 6 && p.Valid() && p.size < p.entries.Length && BlankTail(p)
    modifies p`size, p.entries
    ensures p.Valid() && BlankTail(p) && p.size == old(p.size) + 1
    ensures p.List() == old(p.List()) + [EntryOf(fields)]
  {
    var e := FillSlot(p.entries[p.size], fields);
    p.entries[p.size] := e;
    p.size := p.size + 1;
  }

  /** What the playlist will hold in the end: its entries and those still to be read. */
  ghost function Pending(f: FileStream, p: Playlist): seq<Entry>
    requires f.pos <= |f.text| && p.Valid()
    reads f, p, p.entries
  {
    p.List() + ReadRecords(f.Rest(), p.Capacity() - p.size)
  }

  /** One round of the record loop. */
  method ReadRecord(f: FileStream, p: Playlist) returns (more: bool)
    requires f.pos <= |f.text| && p.Valid() && p.size < p.entries.Length && BlankTail(p)
    modifies f`pos, p`size, p.entries
    ensures f.pos <= |f.text| && p.Valid() && BlankTail(p)
    ensures !more ==> p.List() == old(Pending(f, p))
    ensures more ==> f.pos > old(f.pos) && Pending(f, p) == old(Pending(f, p))
  {
    ghost var here, list, room, before := f.Rest(), p.List(), p.Capacity() - p.size, Pending(f, p);
    var record := GetRecord(f);
    if record.None? {
      RecordsEnd(list, here, room);
      return false;
    }
    more := true;
    if record.value[2] == "" || record.value[3] == "" {
      RecordSkipped(f, p, here, record.value);
      return;
    }
    StoreRecord(p, record.value);
    RecordStored(f, p, list, here, record.value);
  }

  lemma RecordsEnd(list: seq<Entry>, s: string, room: nat)
    requires ReadFields(s, 6).None?
    ensures list + ReadRecords(s, room) == list
  {
  }

  lemma RecordSkipped(f: FileStream, p: Playlist, s: string, fields: seq<string>)
    requires f.pos <= |f.text| && p.Valid() && p.size < p.Capacity()
    requires ReadFields(s, 6) == Some(Fields(fields, f.Rest())) && |fields| == 6
    requires fields[2] == "" || fields[3] == ""
    ensures Pending(f, p) == p.List() + ReadRecords(s, p.Capacity() - p.size)
  {
  }

  lemma RecordStored(f: FileStream, p: Playlist, list: seq<Entry>, s: string, fields: seq<string>)
    requires f.pos <= |f.text| && p.Valid()
    requires ReadFields(s, 6) == Some(Fields(fields, f.Rest())) && |fields| == 6
    requires fields[2] != "" && fields[3] != "" && p.List() == list + [EntryOf(fields)]
    ensures Pending(f, p) == list + ReadRecords(s, p.Capacity() - p.size + 1)
  {
    var room := p.Capacity() - p.size;
    OneRecord(s, room + 1, fields, f.Rest());
    Associative(list, [EntryOf(fields)], ReadRecords(f.Rest(), room));
  }

  lemma OneRecord(s: string, room: nat, fields: seq<string>, rest: string)
    requires room > 0 && ReadFields(s, 6) == Some(Fields(fields, rest)) && |fields| == 6
    requires fields[2] != "" && fields[3] != ""
    ensures ReadRecords(s, room) == [EntryOf(fields)] + ReadRecords(rest, room - 1)
  {
  }

  lemma Associative<T>(a: seq<T>, b: seq<T>, c: seq<T>)
    ensures (a + b) + c == a + (b + c)
  {
  }

  /** The record loop, into the slots of a playlist that `playlist_init` has just made. */
  method ReadEntries(f: FileStream, p: Playlist)
    requires f.pos == 0 && p.Valid()
    requires p.entries[..] == seq(p.Capacity(), _ => BLANK)
    modifies f`pos, p`size, p.entries
    ensures p.Valid() && p.List() == ReadRecords(f.text, p.Capacity())
  {
    p.size := 0;
    assert f.Rest() == f.text;
    forall j | 0 <= j < p.entries.Length ensures p.entries[j] == BLANK {
      assert p.entries[j] == p.entries[..][j];
    }
    while p.size < p.entries.Length
      invariant p.Valid() && f.pos <= |f.text| && BlankTail(p)
      invariant ReadRecords(f.text, p.Capacity()) == Pending(f, p)
      decreases |f.text| - f.pos
    {
      var more := ReadRecord(f, p);
      if !more {
        return;
      }
    }
  }

  /** The playlist shows what was read of a file. */
  ghost predicate Shows(p: Playlist, r: OldPlaylist)
    requires p.Valid()
    reads p, p.entries
  {
    && p.List() == r.list
    && p.defaultCorePath == (if r.defaults.NoDefaults? then None else Some(r.defaults.corePath))
    && p.defaultCoreName == (if r.defaults.NoDefaults? then None else Some(r.defaults.coreName))
  }

  /** The default core first, from the end of the file, and then the records from its start. */
  method ReadOldLines(f: FileStream, p: Playlist)
    requires f.pos == 0 && !f.error && p.Valid() && p.List() == []
    requires p.defaultCorePath.None? && p.defaultCoreName.None?
    requires p.entries[..] == seq(p.Capacity(), _ => BLANK)
    modifies f, p, p.entries
    ensures p.Valid() && Shows(p, ReadOld(f.text, p.Capacity()))
  {
    var found, defaults := ReadMetadata(f, p.Capacity());
    if !found {
      return;
    }
    TakeDefaults(p, defaults);
    f.Rewind();
    ReadEntries(f, p);
  }

  /** `playlist_read_file` on a file that is not JSON. */
  method ReadOldFile(f: FileStream, p: Playlist) returns (format: Format)
    requires f.pos == 0 && !f.error && p.Valid() && p.List() == []
    requires p.defaultCorePath.None? && p.defaultCoreName.None?
    requires p.entries[..] == seq(p.Capacity(), _ => BLANK)
    modifies f, p, p.entries
    ensures p.Valid() && format == FormatOf(f.text)
    ensures format != OldLineFormat ==> p.List() == [] && p.defaultCorePath.None? && p.defaultCoreName.None?
    ensures format == OldLineFormat ==> Shows(p, ReadOld(f.text, p.Capacity()))
  {
    format := DetectFormat(f);
    if format == OldLineFormat {
      ReadOldLines(f, p);
    }
  }

  method TakeDefaults(p: Playlist, defaults: Defaults)
    requires p.defaultCorePath.None? && p.defaultCoreName.None?
    modifies p`defaultCorePath, p`defaultCoreName
    ensures p.defaultCorePath == if defaults.NoDefaults? then None else Some(defaults.corePath)
    ensures p.defaultCoreName == if defaults.NoDefaults? then None else Some(defaults.coreName)
  {
    if defaults.Defaults? {
      p.defaultCorePath := Some(defaults.corePath);
      p.defaultCoreName := Some(defaults.coreName);
    }
  }

  /** The loop that writes six lines an entry. */
  method WriteRecords(p: Playlist) returns (text: string)
    requires p.Valid() && forall i :: 0 <= i < p.size ==> p.entries[i].corePath.Some? && p.entries[i].coreName.Some?
    ensures text == JoinLines(FlatMap(FieldsOf, p.List()))
  {
    text := "";
    var i := 0;
    while i < p.size
      invariant i <= p.size
      invariant text == JoinLines(FlatMap(FieldsOf, p.entries[..i]))
    {
      var e := p.entries[i];
      assert p.entries[..i + 1] == p.entries[..i] + [e];
      RecordText(p.entries[..i], e);
      text := text + TwoLines(Str(e.path), Str(e.labelText)) + TwoLines(e.corePath.value, e.coreName.value) +
              TwoLines(Str(e.crc32), Str(e.dbName));
      i := i + 1;
    }
  }

  /** The metadata lines behind the records. */
  method WriteMetadata(p: Playlist, records: string, ghost lines: seq<string>) returns (text: string)
    requires records == JoinLines(lines)
    ensures text == JoinLines(lines + MetadataLines(p.defaultCorePath, p.defaultCoreName))
  {
    if !Empty(p.defaultCorePath) && !Empty(p.defaultCoreName) {
      var path, name := p.defaultCorePath.value, p.defaultCoreName.value;
      MetadataText(lines, path, name);
      text := records + TwoLines("default_core_path = \"" + path + "\"", "default_core_name = \"" + name + "\"");
    } else {
      assert lines + [] == lines;
      text := records;
    }
  }

  /** The old-format branch of `playlist_write_file`. */
  method WriteOldFile(p: Playlist, canOpen: bool) returns (file: Option<string>)
    requires p.Valid() && forall i :: 0 <= i < p.size ==> p.entries[i].corePath.Some? && p.entries[i].coreName.Some?
    modifies p`modified
    ensures p.Valid()
    ensures file == if old(p.modified) && canOpen
                    then Some(OldText(p.List(), p.defaultCorePath, p.defaultCoreName)) else None
    ensures p.modified == (old(p.modified) && !canOpen)
  {
    if !p.modified || !canOpen {
      return None;
    }
    var records := WriteRecords(p);
    var text := WriteMetadata(p, records, FlatMap(FieldsOf, p.List()));
    p.modified := false;
    return Some(text);
  }

  function TwoLines(a: string, b: string): string {
    a + "\n" + b + "\n"
  }

  lemma JoinTwo(a: string, b: string)
    ensures JoinLines([a, b]) == TwoLines(a, b)
  {
    FlatMapOne(WithEnd, a);
    FlatMapStep(WithEnd, [a], b);
    assert [a] + [b] == [a, b];
  }

  lemma JoinSix(base: string, f: seq<string>)
    requires |f| == 6
    ensures base + JoinLines(f) == base + TwoLines(f[0], f[1]) + TwoLines(f[2], f[3]) + TwoLines(f[4], f[5])
  {
    FlatMapAfter(WithEnd, base, [f[0], f[1]], [f[2], f[3]], [f[4], f[5]]);
    assert f == [f[0], f[1]] + [f[2], f[3]] + [f[4], f[5]];
    JoinTwo(f[0], f[1]);
    JoinTwo(f[2], f[3]);
    JoinTwo(f[4], f[5]);
  }

  lemma RecordText(list: seq<Entry>, e: Entry)
    ensures JoinLines(FlatMap(FieldsOf, list + [e])) ==
            JoinLines(FlatMap(FieldsOf, list)) + TwoLines(Str(e.path), Str(e.labelText)) +
            TwoLines(Str(e.corePath), Str(e.coreName)) + TwoLines(Str(e.crc32), Str(e.dbName))
  {
    FlatMapStep(FieldsOf, list, e);
    FlatMapAppend(WithEnd, FlatMap(FieldsOf, list), FieldsOf(e));
    JoinSix(JoinLines(FlatMap(FieldsOf, list)), FieldsOf(e));
  }

  lemma LinesAsPrinted(path: string, name: string)
    ensures PathLine(path) == "default_core_path = \"" + path + "\""
    ensures NameLine(name) == "default_core_name = \"" + name + "\""
  {
    assert PATH_KEY + " = \"" == "default_core_path = \"" && NAME_KEY + " = \"" == "default_core_name = \"";
  }

  lemma MetadataText(lines: seq<string>, path: string, name: string)
    ensures JoinLines(lines + [PathLine(path), NameLine(name)]) ==
            JoinLines(lines) + TwoLines("default_core_path = \"" + path + "\"", "default_core_name = \"" + name + "\"")
  {
    FlatMapAppend(WithEnd, lines, [PathLine(path), NameLine(name)]);
    JoinTwo(PathLine(path), NameLine(name));
    LinesAsPrinted(path, name);
  }
}
