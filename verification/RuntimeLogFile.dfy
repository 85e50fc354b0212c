/** The runtime log on disk: two formatted strings in a JSON object, scanned back field by field. */
module RuntimeLogFile {
  import opened CText
  import opened JsonEvents
  import opened RuntimeLog

  // ---------------------------------------------------------------- printing

  /** "%u:%02u:%02u" */
  function RuntimeText(log: Log): string {
    Dec(log.hours) + (":" + (Padded(log.minutes, 2) + (":" + Padded(log.seconds, 2))))
  }

  function ClockText(log: Log): string {
    Padded(log.hour, 2) + (":" + (Padded(log.minute, 2) + (":" + Padded(log.second, 2))))
  }

  /** "%04u-%02u-%02u %02u:%02u:%02u" */
  function LastPlayedText(log: Log): string {
    Padded(log.year, 4) + ("-" + (Padded(log.month, 2) + ("-" + (Padded(log.day, 2) + (" " + ClockText(log))))))
  }

  function SavedEvents(log: Log): seq<Event> {
    [StartObject, Member("version"), Text("1.0"), Member("runtime"), Text(RuntimeText(log)),
     Member("last_played"), Text(LastPlayedText(log)), EndObject]
  }

  /** `runtime_log_save` */
  method Save(log: RuntimeLog) returns (events: seq<Event>)
    ensures events == SavedEvents(log.View())
  {
    events := [StartObject, Member("version"), Text("1.0")];
    var value := Dec(log.hours) + (":" + (Padded(log.minutes, 2) + (":" + Padded(log.seconds, 2))));
    events := events + [Member("runtime"), Text(value)];
    var clock := Padded(log.hour, 2) + (":" + (Padded(log.minute, 2) + (":" + Padded(log.second, 2))));
    value := Padded(log.year, 4) + ("-" + (Padded(log.month, 2) + ("-" + (Padded(log.day, 2) + (" " + clock)))));
    events := events + [Member("last_played"), Text(value)];
    events := events + [EndObject];
  }

  // ---------------------------------------------------------------- scanning

  datatype Field = Field(value: uint32, rest: string)

  /** One "%u" conversion of at most `width` characters. */
  function ScanField(s: string, width: nat): Option<Field> {
    var n := Scan(s, width);
    if n.None? then None else Some(Field(ToUnsigned(n.value), n.value.rest))
  }

  /** A "%u" conversion, then a literal character. */
  function ScanThen(s: string, width: nat, c: char): Option<Field> {
    var f := ScanField(s, width);
    if f.None? || f.value.rest == "" || f.value.rest[0] != c then None
    else Some(Field(f.value.value, f.value.rest[1..]))
  }

  /** A "%u" conversion, then a blank, which matches any white space, also none. */
  function ScanThenSpace(s: string, width: nat): Option<Field> {
    var f := ScanField(s, width);
    if f.None? then None else Some(Field(f.value.value, SkipSpace(f.value.rest)))
  }

  /** `sscanf` with the runtime format: all three conversions or nothing. */
  function ScanRuntime(s: string, log: Log): Option<Log> {
    var h := ScanThen(s, |s|, ':');
    if h.None? then None
    else
      var m := ScanThen(h.value.rest, 2, ':');
      if m.None? then None
      else
        var sec := ScanField(m.value.rest, 2);
        if sec.None? then None
        else Some(log.(hours := h.value.value, minutes := m.value.value, seconds := sec.value.value))
  }

  /** `sscanf` with the last-played format. */
  function ScanLastPlayed(s: string, log: Log): Option<Log> {
    var y := ScanThen(s, 4, '-');
    if y.None? then None
    else
      var mo := ScanThen(y.value.rest, 2, '-');
      if mo.None? then None
      else
        var d := ScanThenSpace(mo.value.rest, 2);
        if d.None? then None
        else ScanClock(d.value.rest, log.(year := y.value.value, month := mo.value.value, day := d.value.value))
  }

  function ScanClock(s: string, log: Log): Option<Log> {
    var h := ScanThen(s, 2, ':');
    if h.None? then None
    else
      var m := ScanThen(h.value.rest, 2, ':');
      if m.None? then None
      else
        var sec := ScanField(m.value.rest, 2);
        if sec.None? then None
        else Some(log.(hour := h.value.value, minute := m.value.value, second := sec.value.value))
  }

  // ---------------------------------------------------------------- the JSON reader

  datatype Target = ToRuntime | ToLastPlayed

  datatype Context = Context(target: Option<Target>, runtime: Option<string>, lastPlayed: Option<string>)

  const START := Context(None, None, None)

  /** The member and string handlers; the other events have none. None is an abort. */
  function Step(c: Context, ev: Event): Option<Context> {
    match ev
    case Member(name) =>
      if c.target.Some? then None
      else if name == "runtime" then Some(c.(target := Some(ToRuntime)))
      else if name == "last_played" then Some(c.(target := Some(ToLastPlayed)))
      else Some(c)
    case Text(s) =>
      var d := if c.target.None? || s == "" then c
               else if c.target.value.ToRuntime? then c.(runtime := Some(s))
               else c.(lastPlayed := Some(s));
      Some(d.(target := None))
    case _ => Some(c)
  }

  function Run(c: Context, evs: seq<Event>): Option<Context> {
    if evs == [] then Some(c)
    else
      var prefix := Run(c, evs[..|evs| - 1]);
      if prefix.None? then None else Step(prefix.value, evs[|evs| - 1])
  }

  /** Turning the two strings into a log; a missing string stands for zeroes. */
  function Parse(runtime: Option<string>, lastPlayed: Option<string>): Option<Log> {
    var withRuntime := if Empty(runtime) then Some(EMPTY_LOG) else ScanRuntime(runtime.value, EMPTY_LOG);
    if withRuntime.None? then None
    else if Empty(lastPlayed) then withRuntime
    else ScanLastPlayed(lastPlayed.value, withRuntime.value)
  }

  /** What a log holds after reading a file: all of it or nothing of it. */
  function Loaded(log: Log, evs: seq<Event>): Log {
    var c := Run(START, evs);
    var parsed := if c.None? then None else Parse(c.value.runtime, c.value.lastPlayed);
    if parsed.None? then log else parsed.value
  }

  lemma RunAborts(c: Context, evs: seq<Event>, k: nat)
    requires k <= |evs| && Run(c, evs[..k]).None?
    ensures Run(c, evs).None?
    decreases |evs| - k
  {
    if k < |evs| {
      assert evs[..k + 1][..k] == evs[..k];
      RunAborts(c, evs, k + 1);
    } else {
      assert evs[..k] == evs;
    }
  }

  /** `RtlJSONContext`: the handlers and the loop that feeds them. */
  class RtlContext {
    var target: Option<Target>
    var runtime: Option<string>
    var lastPlayed: Option<string>

    ghost function View(): Context
      reads this
    {
      Context(target, runtime, lastPlayed)
    }

    constructor ()
      ensures View() == START
    {
      target, runtime, lastPlayed := None, None, None;
    }

    method HandleMember(name: string) returns (proceed: bool)
      modifies this
      ensures var r := Step(old(View()), Member(name));
              proceed == r.Some? && View() == if r.Some? then r.value else old(View())
    {
      if target.Some? {
        return false;
      }
      if name != "" {
        if name == "runtime" {
          target := Some(ToRuntime);
        } else if name == "last_played" {
          target := Some(ToLastPlayed);
        }
      }
      return true;
    }

    method HandleText(s: string)
      modifies this
      ensures Step(old(View()), Text(s)) == Some(View())
    {
      if target.Some? && s != "" {
        match target.value {
          case ToRuntime => runtime := Some(s);
          case ToLastPlayed => lastPlayed := Some(s);
        }
      }
      target := None;
    }

    method Feed(events: seq<Event>) returns (complete: bool)
      modifies this
      ensures var r := Run(old(View()), events); complete == r.Some? && (complete ==> View() == r.value)
    {
      var i := 0;
      ghost var start := View();
      while i < |events|
        invariant i <= |events|
        invariant Run(start, events[..i]) == Some(View())
      {
        assert events[..i + 1][..i] == events[..i];
        match events[i] {
          case Member(name) =>
            var proceed := HandleMember(name);
            if !proceed {
              RunAborts(start, events, i + 1);
              return false;
            }
          case Text(s) => HandleText(s);
          case _ =>
        }
        i := i + 1;
      }
      assert events[..i] == events;
      return true;
    }
  }

  method ParseStrings(runtime: Option<string>, lastPlayed: Option<string>) returns (parsed: Option<Log>)
    ensures parsed == Parse(runtime, lastPlayed)
  {
    parsed := Some(EMPTY_LOG);
    if !Empty(runtime) {
      parsed := ScanRuntime(runtime.value, EMPTY_LOG);
      if parsed.None? {
        return None;
      }
    }
    if !Empty(lastPlayed) {
      parsed := ScanLastPlayed(lastPlayed.value, parsed.value);
    }
  }

  /** `runtime_log_read_file`, from the parser on. */
  method Load(log: RuntimeLog, events: seq<Event>)
    modifies log
    ensures log.View() == Loaded(old(log.View()), events)
  {
    var context := new RtlContext();
    var complete := context.Feed(events);
    if !complete {
      return;
    }
    var parsed := ParseStrings(context.runtime, context.lastPlayed);
    if parsed.None? {
      return;
    }
    var read := parsed.value;
    log.hours, log.minutes, log.seconds := read.hours, read.minutes, read.seconds;
    log.year, log.month, log.day := read.year, read.month, read.day;
    log.hour, log.minute, log.second := read.hour, read.minute, read.second;
  }

  // ---------------------------------------------------------------- round trip

  predicate NoDigitFirst(s: string) {
    s == "" || !IsDigit(s[0])
  }

  lemma {:induction false} DigitsBound(s: string)
    requires AllDigits(s)
    ensures Digits(s) < Pow10(|s|)
  {
    if s != "" {
      DigitsBound(s[..|s| - 1]);
    } else {
      assert Pow10(0) == 1;
    }
  }

  lemma {:induction false} PrefixIsSmaller(s: string, k: nat)
    requires AllDigits(s) && k <= |s|
    ensures Digits(s[..k]) <= Digits(s)
  {
    if k < |s| {
      PrefixIsSmaller(s[..|s| - 1], k);
      assert s[..|s| - 1][..k] == s[..k];
    } else {
      assert s[..k] == s;
    }
  }

  /** Leading digits of a 32-bit number are a 32-bit number, so scanning them does not wrap. */
  lemma {:induction false} ScanFieldDigits(ds: string, rest: string, width: nat)
    requires ds != "" && AllDigits(ds) && width >= 1 && Digits(ds) < 0x1_0000_0000
    requires width <= |ds| || NoDigitFirst(rest)
    ensures var k := Min(|ds|, width);
            && Digits(ds[..k]) < 0x1_0000_0000
            && ScanField(ds + rest, width) == Some(Field(Digits(ds[..k]), ds[k..] + rest))
  {
    var k := Min(|ds|, width);
    ScanDigits(ds, rest, width);
    PrefixIsSmaller(ds, k);
    SmallIsUnsigned(Scanned(false, Digits(ds[..k]), ds[k..] + rest));
  }

  lemma {:induction false} PaddedFits(n: uint32, width: nat, rest: string)
    requires width >= 1 && NoDigitFirst(rest) && n < Pow10(width)
    ensures ScanField(Padded(n, width) + rest, width) == Some(Field(n, rest))
  {
    var p := Padded(n, width);
    DigitsOfPadded(n, width);
    DecLength(n, width);
    ScanFieldDigits(p, rest, width);
    assert p[..|p|] == p && p[|p|..] + rest == rest;
  }

  lemma {:induction false} PaddedIsCut(n: uint32, width: nat, rest: string)
    requires width >= 1 && n >= Pow10(width)
    ensures var f := ScanField(Padded(n, width) + rest, width);
            && f.Some? && f.value.value < Pow10(width)
            && f.value.rest != "" && IsDigit(f.value.rest[0])
  {
    var p := Padded(n, width);
    DigitsOfPadded(n, width);
    DecLength(n, width);
    ScanFieldDigits(p, rest, width);
    DigitsBound(p[..width]);
    assert (p[width..] + rest)[0] == p[width];
  }

  /** A zero-padded number scanned with its own width: exact when it fits, cut short otherwise. */
  lemma {:induction false} PaddedField(n: uint32, width: nat, rest: string)
    requires width >= 1 && NoDigitFirst(rest)
    ensures var f := ScanField(Padded(n, width) + rest, width);
            && f.Some?
            && f.value.value < Pow10(width)
            && (n < Pow10(width) ==> f == Some(Field(n, rest)))
            && (n >= Pow10(width) ==> f.value.rest != "" && IsDigit(f.value.rest[0]))
  {
    if n < Pow10(width) {
      PaddedFits(n, width, rest);
    } else {
      PaddedIsCut(n, width, rest);
    }
  }

  lemma PaddedThen(n: uint32, width: nat, c: char, rest: string)
    requires width >= 1 && !IsDigit(c)
    ensures ScanThen(Padded(n, width) + ([c] + rest), width, c) ==
            if n < Pow10(width) then Some(Field(n, rest)) else None
  {
    PaddedField(n, width, [c] + rest);
    assert ([c] + rest)[1..] == rest;
  }

  lemma HoursThen(n: uint32, rest: string)
    ensures var s := Dec(n) + (":" + rest); ScanThen(s, |s|, ':') == Some(Field(n, rest))
  {
    var d, tail := Dec(n), ":" + rest;
    var width := |d + tail|;
    DigitsOfDec(n);
    ScanFieldDigits(d, tail, width);
    assert Min(|d|, width) == |d|;
    assert d[..|d|] == d && d[|d|..] + tail == tail;
    assert tail[1..] == rest;
  }

  /** The last number of a text. */
  lemma PaddedLast(n: uint32)
    ensures var f := ScanField(Padded(n, 2), 2);
            f.Some? && f.value.value < 100 && (f.value.value == n <==> n < 100)
  {
    PaddedField(n, 2, "");
    Pow10Values();
    assert Padded(n, 2) + "" == Padded(n, 2);
  }

  lemma RuntimeTextScan(log: Log, base: Log)
    ensures var r := ScanRuntime(RuntimeText(log), base);
            && (r.Some? <==> log.minutes < 100)
            && (r.Some? ==> r.value.seconds < 100)
            && (r == Some(base.(hours := log.hours, minutes := log.minutes, seconds := log.seconds)) <==>
                log.minutes < 100 && log.seconds < 100)
  {
    Pow10Values();
    var s2 := Padded(log.seconds, 2);
    var s1 := Padded(log.minutes, 2) + (":" + s2);
    HoursThen(log.hours, s1);
    PaddedThen(log.minutes, 2, ':', s2);
    PaddedLast(log.seconds);
  }

  /** Every field of the date but the last fits its columns. */
  predicate ColumnsFit(log: Log) {
    log.year < 10000 && log.month < 100 && log.day < 100 && log.hour < 100 && log.minute < 100
  }

  lemma SpaceThen(n: uint32, rest: string)
    requires rest != "" && IsDigit(rest[0])
    ensures var r := ScanThenSpace(Padded(n, 2) + ([' '] + rest), 2);
            r.Some? && r.value.value < 100 && (n < 100 ==> r == Some(Field(n, rest)))
  {
    Pow10Values();
    var tail := [' '] + rest;
    PaddedField(n, 2, tail);
    assert tail[1..] == rest;
    assert SkipSpace(rest) == rest;
    assert SkipSpace(tail) == rest;
  }

  lemma ClockScan(log: Log, base: Log)
    ensures var r := ScanClock(ClockText(log), base);
            && (r.Some? <==> log.hour < 100 && log.minute < 100)
            && (r.Some? ==> r.value.second < 100)
            && (log.hour < 100 && log.minute < 100 && log.second < 100 ==>
                  r == Some(base.(hour := log.hour, minute := log.minute, second := log.second)))
            && (r.Some? ==> r.value.year == base.year && r.value.month == base.month && r.value.day == base.day &&
                            SamePlayTime(r.value, base))
  {
    Pow10Values();
    PaddedThen(log.hour, 2, ':', Padded(log.minute, 2) + (":" + Padded(log.second, 2)));
    PaddedThen(log.minute, 2, ':', Padded(log.second, 2));
    PaddedLast(log.second);
  }

  predicate SamePlayTime(a: Log, b: Log) {
    a.hours == b.hours && a.minutes == b.minutes && a.seconds == b.seconds
  }

  lemma ScanClockKeepsDate(s: string, base: Log)
    ensures var r := ScanClock(s, base);
            r.Some? ==> r.value == base.(hour := r.value.hour, minute := r.value.minute, second := r.value.second)
  {
  }

  function DayText(log: Log): string {
    Padded(log.day, 2) + (" " + ClockText(log))
  }

  /** The day is followed by a blank, then the clock. */
  lemma DayScan(log: Log)
    ensures var d := ScanThenSpace(DayText(log), 2);
            && d.Some? && d.value.value < 100
            && (log.day < 100 ==> d == Some(Field(log.day, ClockText(log))))
  {
    SpaceThen(log.day, ClockText(log));
  }

  /** Year and month are scanned or not, depending on whether they fit. */
  lemma DateScan(log: Log, base: Log)
    ensures ScanThenSpace(DayText(log), 2).Some?
    ensures var d := ScanThenSpace(DayText(log), 2).value;
            ScanLastPlayed(LastPlayedText(log), base) ==
            if log.year < 10000 && log.month < 100
            then ScanClock(d.rest, base.(year := log.year, month := log.month, day := d.value)) else None
  {
    Pow10Values();
    DayScan(log);
    PaddedThen(log.year, 4, '-', Padded(log.month, 2) + ("-" + DayText(log)));
    PaddedThen(log.month, 2, '-', DayText(log));
  }

  lemma LastPlayedTextScan(log: Log, base: Log)
    ensures var r := ScanLastPlayed(LastPlayedText(log), base);
            && (r.Some? ==> SamePlayTime(r.value, base))
            && (r == Some(base.(year := log.year, month := log.month, day := log.day,
                                hour := log.hour, minute := log.minute, second := log.second)) <==>
                ColumnsFit(log) && log.second < 100)
  {
    DateScan(log, base);
    DayScan(log);
    var d := ScanThenSpace(DayText(log), 2).value;
    var dated := base.(year := log.year, month := log.month, day := d.value);
    ScanClockKeepsDate(d.rest, dated);
    ClockScan(log, dated);
  }

  // ---------------------------------------------------------------- the theorems

  /** Minutes and seconds fit two digits, the year four, and the rest of the date two. */
  predicate FitsColumns(log: Log) {
    log.minutes < 100 && log.seconds < 100 && ColumnsFit(log) && log.second < 100
  }

  lemma RunOneMore(c: Context, evs: seq<Event>, d: Context, ev: Event, next: Context)
    requires Run(c, evs) == Some(d) && Step(d, ev) == Some(next)
    ensures Run(c, evs + [ev]) == Some(next)
  {
    assert (evs + [ev])[..|evs|] == evs;
  }

  /** A member that is not tracked, or one that is, with its text. */
  lemma RunPair(evs: seq<Event>, d: Context, name: string, s: string, next: Context)
    requires Run(START, evs) == Some(d) && d.target.None? && s != ""
    requires next == if name == "runtime" then d.(runtime := Some(s))
                     else if name == "last_played" then d.(lastPlayed := Some(s)) else d
    ensures Run(START, evs + [Member(name), Text(s)]) == Some(next)
  {
    var named := Step(d, Member(name)).value;
    RunOneMore(START, evs, d, Member(name), named);
    RunOneMore(START, evs + [Member(name)], named, Text(s), next);
    assert evs + [Member(name)] + [Text(s)] == evs + [Member(name), Text(s)];
  }

  lemma RunStart()
    ensures Run(START, [StartObject]) == Some(START)
  {
    RunOneMore(START, [], START, StartObject, START);
    assert [] + [StartObject] == [StartObject];
  }

  lemma SavedStrings(log: Log)
    ensures Run(START, SavedEvents(log)) == Some(Context(None, Some(RuntimeText(log)), Some(LastPlayedText(log))))
  {
    var e0 := [StartObject];
    var e1 := e0 + [Member("version"), Text("1.0")];
    var e2 := e1 + [Member("runtime"), Text(RuntimeText(log))];
    var e3 := e2 + [Member("last_played"), Text(LastPlayedText(log))];
    var c2 := Context(None, Some(RuntimeText(log)), None);
    var c3 := Context(None, Some(RuntimeText(log)), Some(LastPlayedText(log)));
    RunStart();
    RunPair(e0, START, "version", "1.0", START);
    RunPair(e1, START, "runtime", RuntimeText(log), c2);
    RunPair(e2, c2, "last_played", LastPlayedText(log), c3);
    RunOneMore(START, e3, c3, EndObject, c3);
    SavedParts(log);
  }

  lemma SavedParts(log: Log)
    ensures SavedEvents(log) ==
            [StartObject] + [Member("version"), Text("1.0")] + [Member("runtime"), Text(RuntimeText(log))]
            + [Member("last_played"), Text(LastPlayedText(log))] + [EndObject]
  {
  }

  /** The two strings of a log are taken apart into it exactly when it fits its columns. */
  lemma PrintedTextsParse(log: Log)
    ensures Parse(Some(RuntimeText(log)), Some(LastPlayedText(log))) == Some(log) <==> FitsColumns(log)
  {
    RuntimeTextScan(log, EMPTY_LOG);
    var r := ScanRuntime(RuntimeText(log), EMPTY_LOG);
    if r.Some? {
      LastPlayedTextScan(log, r.value);
    }
  }

  /** A saved log loads back into a fresh log as the identical log exactly when it fits its columns. */
  lemma SaveLoadRoundTrip(log: Log)
    ensures Loaded(EMPTY_LOG, SavedEvents(log)) == log <==> FitsColumns(log)
  {
    SavedStrings(log);
    PrintedTextsParse(log);
  }

  /** A log that fits its columns loads back whatever the log read into held before. */
  lemma SaveLoadReplaces(log: Log, before: Log)
    requires FitsColumns(log)
    ensures Loaded(before, SavedEvents(log)) == log
  {
    SavedStrings(log);
    PrintedTextsParse(log);
  }

  /** A conversion of at most `width` characters finds a minus sign and a number other than zero. */
  predicate Minus(s: string, width: nat) {
    var n := Scan(s, width);
    n.Some? && n.value.negative && n.value.magnitude > 0
  }

  /** The width of a conversion bounds its value unless there is a minus sign in front of a number. */
  lemma FieldFitsUnlessMinus(s: string, width: nat)
    requires 1 <= width <= 4
    ensures ScanField(s, width).Some? ==> (ScanField(s, width).value.value < Pow10(width) <==> !Minus(s, width))
  {
    if Scan(s, width).Some? {
      ScanBound(s, width);
      SignedIsLarge(Scan(s, width).value);
    }
  }

  lemma ScanBound(s: string, width: nat)
    requires 1 <= width <= 4 && Scan(s, width).Some?
    ensures Scan(s, width).value.magnitude < Pow10(width) <= 10000
  {
    var field := Take(SkipSpace(s), width);
    var sign := if field[0] == '-' || field[0] == '+' then 1 else 0;
    var run := DigitRun(field[sign..]);
    DigitsBound(field[sign..][..run]);
    Pow10Monotone(run, width);
    Pow10Monotone(width, 4);
    Pow10Values();
  }

  lemma SignedIsLarge(n: Scanned)
    requires n.magnitude < 10000
    ensures ToUnsigned(n) == if n.negative && n.magnitude > 0 then 0x1_0000_0000 - n.magnitude else n.magnitude
  {
  }

  lemma {:induction false} Pow10Monotone(a: nat, b: nat)
    requires a <= b
    ensures Pow10(a) <= Pow10(b)
  {
    if a < b {
      Pow10Monotone(a, b - 1);
    }
  }

  // ---------------------------------------------------------------- a minus sign in a file

  function RestAfter(f: Option<Field>): string {
    if f.None? then "" else f.value.rest
  }

  /** The minutes or the seconds of a play time are negative; the hours are not limited anyway. */
  predicate RuntimeMinus(s: string) {
    var h := ScanThen(s, |s|, ':');
    var m := ScanThen(RestAfter(h), 2, ':');
    (h.Some? && Minus(h.value.rest, 2)) || (h.Some? && m.Some? && Minus(m.value.rest, 2))
  }

  predicate ClockMinus(s: string) {
    var h := ScanThen(s, 2, ':');
    var m := ScanThen(RestAfter(h), 2, ':');
    Minus(s, 2) || (h.Some? && Minus(h.value.rest, 2)) || (h.Some? && m.Some? && Minus(m.value.rest, 2))
  }

  /** Some number of a date is negative. */
  predicate DateMinus(s: string) {
    var y := ScanThen(s, 4, '-');
    var mo := ScanThen(RestAfter(y), 2, '-');
    var d := ScanThenSpace(RestAfter(mo), 2);
    || Minus(s, 4)
    || (y.Some? && Minus(y.value.rest, 2))
    || (y.Some? && mo.Some? && (Minus(mo.value.rest, 2) || (d.Some? && ClockMinus(d.value.rest))))
  }

  lemma RuntimeFitsUnlessMinus(s: string, base: Log)
    ensures var r := ScanRuntime(s, base);
            r.Some? ==> (r.value.minutes < 100 && r.value.seconds < 100 <==> !RuntimeMinus(s)) &&
                        r.value == base.(hours := r.value.hours, minutes := r.value.minutes, seconds := r.value.seconds)
  {
    Pow10Values();
    var h := ScanThen(s, |s|, ':');
    var m := ScanThen(RestAfter(h), 2, ':');
    FieldFitsUnlessMinus(RestAfter(h), 2);
    FieldFitsUnlessMinus(RestAfter(m), 2);
  }

  lemma ClockFitsUnlessMinus(s: string, base: Log)
    ensures var r := ScanClock(s, base);
            r.Some? ==> (r.value.hour < 100 && r.value.minute < 100 && r.value.second < 100 <==> !ClockMinus(s))
  {
    Pow10Values();
    var h := ScanThen(s, 2, ':');
    var m := ScanThen(RestAfter(h), 2, ':');
    FieldFitsUnlessMinus(s, 2);
    FieldFitsUnlessMinus(RestAfter(h), 2);
    FieldFitsUnlessMinus(RestAfter(m), 2);
  }

  lemma DateFitsUnlessMinus(s: string, base: Log)
    ensures var r := ScanLastPlayed(s, base);
            r.Some? ==> (ColumnsFit(r.value) && r.value.second < 100 <==> !DateMinus(s)) &&
                        SamePlayTime(r.value, base)
  {
    Pow10Values();
    var y := ScanThen(s, 4, '-');
    var mo := ScanThen(RestAfter(y), 2, '-');
    var d := ScanThenSpace(RestAfter(mo), 2);
    FieldFitsUnlessMinus(s, 4);
    FieldFitsUnlessMinus(RestAfter(y), 2);
    FieldFitsUnlessMinus(RestAfter(mo), 2);
    if ScanLastPlayed(s, base).Some? {
      var dated := base.(year := y.value.value, month := mo.value.value, day := d.value.value);
      ClockFitsUnlessMinus(d.value.rest, dated);
      ScanClockKeepsDate(d.value.rest, dated);
    }
  }

  /** A file that is taken over shows a negative number where a column is limited. */
  predicate MinusInFile(file: seq<Event>) {
    var c := Run(START, file);
    c.Some? && Parse(c.value.runtime, c.value.lastPlayed).Some? &&
    (RuntimeMinus(Str(c.value.runtime)) || DateMinus(Str(c.value.lastPlayed)))
  }

  /** A log that fits its columns goes on doing so through a load exactly when the file shows no such number. */
  lemma LoadFitsUnlessMinus(log: Log, file: seq<Event>)
    requires FitsColumns(log)
    ensures FitsColumns(Loaded(log, file)) <==> !MinusInFile(file)
  {
    var c := Run(START, file);
    if c.Some? {
      var runtime, lastPlayed := Str(c.value.runtime), Str(c.value.lastPlayed);
      var first := if runtime == "" then Some(EMPTY_LOG) else ScanRuntime(runtime, EMPTY_LOG);
      RuntimeFitsUnlessMinus(runtime, EMPTY_LOG);
      NothingIsNotNegative();
      if first.Some? {
        DateFitsUnlessMinus(lastPlayed, first.value);
      }
    }
  }

  lemma NothingIsNotNegative()
    ensures !RuntimeMinus("") && !DateMinus("")
  {
  }

  /** So what a file brings saves to text that loads back to it exactly when the file shows no such number. */
  lemma LoadedLogRoundTrips(log: Log, file: seq<Event>)
    requires FitsColumns(log)
    ensures Loaded(EMPTY_LOG, SavedEvents(Loaded(log, file))) == Loaded(log, file) <==> !MinusInFile(file)
  {
    LoadFitsUnlessMinus(log, file);
    SaveLoadRoundTrip(Loaded(log, file));
  }

  /** The field width does not stop a minus sign. */
  lemma SignEscapesWidth(rest: string)
    ensures ScanField("-5" + rest, 2) == Some(Field(0xFFFF_FFFB, rest))
  {
    var s := "-5" + rest;
    assert s[0] == '-' && SkipSpace(s) == s && Take(s, 2) == "-5" && s[2..] == rest;
    assert "-5"[1..] == "5" && "5"[1..] == "" && "5"[..0] == "";
    assert DigitRun("5") == 1 && "5"[..1] == "5" && Digits("5") == 5;
  }

  /** A play time of minus five minutes. */
  function SignedText(hours: uint32, seconds: uint32): string {
    Dec(hours) + (":" + ("-5" + (":" + Padded(seconds, 2))))
  }

  lemma SignedTextExample()
    ensures SignedText(0, 0) == "0:-5:00"
  {
    assert Dec(0) == "0" && Zeros(1) == "0";
  }

  function SignedFile(hours: uint32, seconds: uint32): seq<Event> {
    [StartObject, Member("runtime"), Text(SignedText(hours, seconds)), EndObject]
  }

  lemma SignedFileIsRead(hours: uint32, seconds: uint32)
    ensures Run(START, SignedFile(hours, seconds)) == Some(Context(None, Some(SignedText(hours, seconds)), None))
  {
    var e0 := [StartObject];
    var e1 := e0 + [Member("runtime"), Text(SignedText(hours, seconds))];
    var c1 := Context(None, Some(SignedText(hours, seconds)), None);
    RunStart();
    RunPair(e0, START, "runtime", SignedText(hours, seconds), c1);
    RunOneMore(START, e1, c1, EndObject, c1);
    assert SignedFile(hours, seconds) == e1 + [EndObject];
  }

  lemma MinusThen(rest: string)
    ensures ScanThen("-5" + (":" + rest), 2, ':') == Some(Field(0xFFFF_FFFB, rest))
  {
    var tail := ":" + rest;
    SignEscapesWidth(tail);
    assert tail[1..] == rest;
  }

  lemma SignedTextIsScanned(hours: uint32, seconds: uint32, base: Log)
    requires seconds < 100
    ensures ScanRuntime(SignedText(hours, seconds), base) ==
            Some(base.(hours := hours, minutes := 0xFFFF_FFFB, seconds := seconds))
  {
    var last := Padded(seconds, 2);
    HoursThen(hours, "-5" + (":" + last));
    MinusThen(last);
    PaddedLast(seconds);
  }

  /** A file with such a play time, "0:-5:00" say, is taken over as 2^32 - 5 minutes, and that log does not come
      back from disk. */
  lemma SignedFileDoesNotRoundTrip(hours: uint32, seconds: uint32)
    requires seconds < 100
    ensures var log := Loaded(EMPTY_LOG, SignedFile(hours, seconds));
            && log == EMPTY_LOG.(hours := hours, minutes := 0xFFFF_FFFB, seconds := seconds)
            && Loaded(EMPTY_LOG, SavedEvents(log)) != log
  {
    SignedFileIsRead(hours, seconds);
    SignedTextIsScanned(hours, seconds, EMPTY_LOG);
    SaveLoadRoundTrip(Loaded(EMPTY_LOG, SignedFile(hours, seconds)));
  }

  // ---------------------------------------------------------------- runs

  /** What the operations of a log do, as steps of a run. */
  datatype Operation =
    | SetHmsOp(h: uint32, m: uint32, s: uint32)
    | SetUsecOp(usec: int64)
    | AddHmsOp(h: uint32, m: uint32, s: uint32)
    | AddUsecOp(usec: int64)
    | SetLastPlayedOp(year: uint32, month: uint32, day: uint32, hour: uint32, minute: uint32, second: uint32)
    | ResetOp
    | LoadOp(file: seq<Event>)

  /** Play times stay within 64 bits, dates fit their columns, and a file that is read shows no negative number
      where a column is limited. */
  ghost predicate Allowed(log: Log, op: Operation) {
    match op
    case SetHmsOp(h, m, s) => (h * 3600 + m * 60 + s) * USEC < 0x8000_0000_0000_0000
    case SetUsecOp(_) => true
    case AddHmsOp(h, m, s) => (TotalSeconds(log) + h * 3600 + m * 60 + s) * USEC < 0x8000_0000_0000_0000
    case AddUsecOp(usec) =>
      && TotalSeconds(log) * USEC < 0x8000_0000_0000_0000
      && -0x8000_0000_0000_0000 <= TotalSeconds(log) * USEC + usec < 0x8000_0000_0000_0000
    case SetLastPlayedOp(y, mo, d, h, mi, s) =>
      y < 10000 && mo < 100 && d < 100 && h < 100 && mi < 100 && s < 100
    case ResetOp => true
    case LoadOp(file) => !MinusInFile(file)
  }

  function After(log: Log, op: Operation): Log
    requires Allowed(log, op)
  {
    match op
    case SetHmsOp(h, m, s) => WithSeconds(log, (h * 3600 + m * 60 + s) % 0x1_0000_0000)
    case SetUsecOp(usec) => WithSeconds(log, WholeSeconds(usec))
    case AddHmsOp(h, m, s) => WithSeconds(log, (TotalSeconds(log) + h * 3600 + m * 60 + s) % 0x1_0000_0000)
    case AddUsecOp(usec) => WithSeconds(log, WholeSeconds(TotalSeconds(log) * USEC + usec))
    case SetLastPlayedOp(y, mo, d, h, mi, s) =>
      log.(year := y, month := mo, day := d, hour := h, minute := mi, second := s)
    case ResetOp => EMPTY_LOG
    case LoadOp(file) => Loaded(log, file)
  }

  lemma StepFitsColumns(log: Log, op: Operation)
    requires FitsColumns(log) && Allowed(log, op)
    ensures FitsColumns(After(log, op))
  {
    if op.LoadOp? {
      LoadFitsUnlessMinus(log, op.file);
    }
  }

  /** Every log that a run of operations reaches from a fresh one saves to text that loads back to the
      identical log. */
  lemma {:induction false} EveryReachableLogRoundTrips(logs: seq<Log>, ops: seq<Operation>, k: nat)
    requires |logs| == |ops| + 1 && logs[0] == EMPTY_LOG && k < |logs|
    requires forall i :: 0 <= i < |ops| ==> Allowed(logs[i], ops[i]) && logs[i + 1] == After(logs[i], ops[i])
    ensures FitsColumns(logs[k])
    ensures forall before: Log :: Loaded(before, SavedEvents(logs[k])) == logs[k]
  {
    if k > 0 {
      EveryReachableLogRoundTrips(logs, ops, k - 1);
      StepFitsColumns(logs[k - 1], ops[k - 1]);
    }
    forall before: Log
      ensures Loaded(before, SavedEvents(logs[k])) == logs[k]
    {
      SaveLoadReplaces(logs[k], before);
    }
  }
}
