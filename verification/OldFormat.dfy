/** The six-lines-per-entry playlist format: writing, telling it from JSON, finding the default core
    at the end of the file, and reading the records. A file is a sequence of bytes. */
module OldFormat {
  import opened CText
  import opened PlaylistModel

  const LINE_LIMIT: nat := 1023  // what fits in a buffer of 1024 with its terminator

  // ---------------------------------------------------------------- lines

  /** How many characters `filestream_gets` takes: through the first newline, at most `limit`. */
  function LineLength(s: string, limit: nat): (n: nat)
    ensures n <= |s| && n <= limit
    ensures s != "" && limit > 0 ==> n > 0
  {
    if s == "" || limit == 0 then 0
    else if s[0] == '\n' then 1
    else 1 + LineLength(s[1..], limit - 1)
  }

  datatype Line = Line(text: string, rest: string)

  /** `filestream_gets` on what is left of a file; None at its end. */
  function Gets(s: string): (r: Option<Line>)
    ensures r.Some? ==> |r.value.rest| < |s|
  {
    if s == "" then None
    else
      var n := LineLength(s, LINE_LIMIT);
      Some(Line(s[..n], s[n..]))
  }

  /** `strrchr`, as an index. */
  function LastIndex(s: string, c: char): (r: Option<nat>)
    ensures r.Some? ==> r.value < |s|
  {
    if s == "" then None
    else if s[|s| - 1] == c then Some(|s| - 1)
    else LastIndex(s[..|s| - 1], c)
  }

  /** Cuts a line at its last carriage return, or else at its last newline. */
  function StripEnd(s: string): string {
    var cr, nl := LastIndex(s, '\r'), LastIndex(s, '\n');
    if cr.Some? then s[..cr.value] else if nl.Some? then s[..nl.value] else s
  }

  // ---------------------------------------------------------------- records

  datatype Fields = Fields(fields: seq<string>, rest: string)

  /** The next n lines without their ends; None if the file ends before. */
  function ReadFields(s: string, n: nat): (r: Option<Fields>)
    ensures r.Some? ==> |r.value.fields| == n && |r.value.rest| <= |s| && (n > 0 ==> |r.value.rest| < |s|)
    decreases |s|
  {
    if n == 0 then Some(Fields([], s))
    else
      var line := Gets(s);
      if line.None? then None
      else
        var more := ReadFields(line.value.rest, n - 1);
        if more.None? then None else Some(Fields([StripEnd(line.value.text)] + more.value.fields, more.value.rest))
  }

  function EntryOf(f: seq<string>): Entry
    requires |f| == 6
  {
    BLANK.(path := NonEmpty(f[0]), labelText := NonEmpty(f[1]), corePath := Some(f[2]), coreName := Some(f[3]),
           crc32 := NonEmpty(f[4]), dbName := NonEmpty(f[5]))
  }

  /** The record loop: records without a core path or core name are skipped. */
  function ReadRecords(s: string, room: nat): (list: seq<Entry>)
    ensures |list| <= room
    decreases |s|
  {
    if room == 0 then []
    else
      var r := ReadFields(s, 6);
      if r.None? then []
      else if r.value.fields[2] == "" || r.value.fields[3] == "" then ReadRecords(r.value.rest, room)
      else [EntryOf(r.value.fields)] + ReadRecords(r.value.rest, room - 1)
  }

  // ---------------------------------------------------------------- metadata

  function TrimEnd(s: string): (t: string)
    ensures t <= s
    ensures t != "" ==> t[|t| - 1] != '\n' && t[|t| - 1] != '\r'
  {
    if s == "" then s
    else if s[|s| - 1] == '\n' || s[|s| - 1] == '\r' then TrimEnd(s[..|s| - 1])
    else s
  }

  /** Where the backward scan stops: after the second newline before the last visible character. */
  function MetadataStart(text: string): (r: Option<nat>)
    ensures r.Some? ==> r.value <= |text|
  {
    var t := TrimEnd(text);
    if t == "" then None
    else
      var a := LastIndex(t[..|t| - 1], '\n');
      if a.None? then None
      else
        var b := LastIndex(t[..a.value], '\n');
        if b.None? then None else Some(b.value + 1)
  }

  /** `get_old_format_metadata_value`: the text between the first two quotes. */
  function MetadataValue(line: string): string {
    var start := FirstIndex(line, '"');
    if start.None? then ""
    else
      var value := line[start.value + 1..];
      var end := FirstIndex(value, '"');
      if end.None? then "" else value[..end.value]
  }

  datatype Defaults = NoDefaults | Defaults(corePath: string, coreName: string)

  const PATH_KEY := "default_core_path"
  const NAME_KEY := "default_core_name"

  /** The default core in two consecutive lines: both must be there. */
  function DefaultsIn(pathLine: string, nameLine: string): Defaults {
    var path := if PATH_KEY <= pathLine then MetadataValue(pathLine) else "";
    var name := if NAME_KEY <= nameLine then MetadataValue(nameLine) else "";
    if path != "" && name != "" then Defaults(path, name) else NoDefaults
  }

  datatype OldPlaylist = OldPlaylist(list: seq<Entry>, defaults: Defaults)

  /** The old-format branch of `playlist_read_file`: nothing at all is read when the metadata scan
      runs into the start of the file. */
  function ReadOld(text: string, cap: nat): OldPlaylist {
    var start := MetadataStart(text);
    var first := if start.None? then None else Gets(text[start.value..]);
    var second := if first.None? then None else Gets(first.value.rest);
    if second.None? then OldPlaylist([], NoDefaults)
    else OldPlaylist(ReadRecords(text, cap), DefaultsIn(first.value.text, second.value.text))
  }

  // ---------------------------------------------------------------- format detection

  predicate IsGraph(c: char) {
    '!' <= c <= '~'
  }

  /** The first printable non-blank ASCII character. */
  function FirstGraph(s: string): Option<char> {
    if s == "" then None else if IsGraph(s[0]) then Some(s[0]) else FirstGraph(s[1..])
  }

  datatype Format = NothingToRead | JsonFormat | OldLineFormat

  function FormatOf(text: string): Format {
    var c := FirstGraph(text);
    if c.None? then NothingToRead else if c.value == '{' then JsonFormat else OldLineFormat
  }

  // ---------------------------------------------------------------- writing

  function WithEnd(line: string): string {
    line + "\n"
  }

  function JoinLines(lines: seq<string>): string {
    FlatMap(WithEnd, lines)
  }

  function FieldsOf(e: Entry): (f: seq<string>)
    ensures |f| == 6
  {
    [Str(e.path), Str(e.labelText), Str(e.corePath), Str(e.coreName), Str(e.crc32), Str(e.dbName)]
  }

  function PathLine(path: string): string {
    PATH_KEY + " = \"" + path + "\""
  }

  function NameLine(name: string): string {
    NAME_KEY + " = \"" + name + "\""
  }

  function MetadataLines(path: Option<string>, name: Option<string>): seq<string> {
    if Empty(path) || Empty(name) then [] else [PathLine(path.value), NameLine(name.value)]
  }

  function FileLines(list: seq<Entry>, path: Option<string>, name: Option<string>): seq<string> {
    FlatMap(FieldsOf, list) + MetadataLines(path, name)
  }

  function OldText(list: seq<Entry>, path: Option<string>, name: Option<string>): string {
    JoinLines(FileLines(list, path, name))
  }
}
