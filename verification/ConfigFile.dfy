/** Configuration files as the lists of key/value lines that `config_file` keeps, and the text form of
    settings values in them. */
module ConfigFile {
  import opened CText

  datatype Line = Line(key: string, value: string)

  type Config = seq<Line>

  /** `config_get_entry`: the first line with the key. */
  function Get(conf: Config, key: string): Option<string> {
    if conf == [] then None
    else if conf[0].key == key then Some(conf[0].value)
    else Get(conf[1..], key)
  }

  /** `config_append_file` puts the new lines in front. */
  function Append(conf: Config, added: Config): Config {
    added + conf
  }

  lemma {:induction false} GetAppend(conf: Config, added: Config, key: string)
    ensures Get(Append(conf, added), key) == if Get(added, key).Some? then Get(added, key) else Get(conf, key)
  {
    if added == [] {
      assert added + conf == conf;
    } else {
      assert (added + conf)[1..] == added[1..] + conf;
      GetAppend(conf, added[1..], key);
    }
  }

  /** What is read back of a value that was written between quotes: up to the first quote, and the
      line is dropped when nothing is left. */
  function ReadBackText(value: string): Option<string> {
    var quote := FirstIndex(value, '"');
    NonEmpty(if quote.None? then value else value[..quote.value])
  }

  /** Writing a configuration to a file and reading the file. */
  function ReadBack(conf: Config): Config {
    if conf == [] then []
    else
      var v := ReadBackText(conf[0].value);
      (if v.None? then [] else [Line(conf[0].key, v.value)]) + ReadBack(conf[1..])
  }

  predicate Plain(value: string) {
    value != "" && '"' !in value
  }

  lemma {:induction false} QuoteIsFound(s: string)
    ensures FirstIndex(s, '"').None? <==> '"' !in s
    ensures FirstIndex(s, '"').Some? ==> s[FirstIndex(s, '"').value] == '"'
  {
    if s != "" {
      QuoteIsFound(s[1..]);
      assert '"' in s <==> s[0] == '"' || '"' in s[1..];
    }
  }

  /** A value comes back exactly when it is not empty and has no quote in it. */
  lemma PlainReadsBack(value: string)
    ensures ReadBackText(value) == Some(value) <==> Plain(value)
    ensures ReadBackText(value).Some? ==> ReadBackText(value).value != ""
  {
    QuoteIsFound(value);
  }

  // ---------------------------------------------------------------- values as text

  function DigitValue(c: char): nat {
    if IsDigit(c) then c as nat - '0' as nat
    else if 'a' <= c <= 'f' then c as nat - 'a' as nat + 10
    else if 'A' <= c <= 'F' then c as nat - 'A' as nat + 10
    else 99
  }

  /** The value of the leading run of digits of a base, after `acc`. */
  function BaseValue(acc: nat, s: string, base: nat): nat
    decreases |s|
  {
    if s != "" && DigitValue(s[0]) < base then BaseValue(acc * base + DigitValue(s[0]), s[1..], base) else acc
  }

  function Magnitude(u: string): nat {
    if |u| >= 3 && u[0] == '0' && (u[1] == 'x' || u[1] == 'X') && DigitValue(u[2]) < 16 then BaseValue(0, u[2..], 16)
    else if u != "" && u[0] == '0' then BaseValue(0, u, 8)
    else BaseValue(0, u, 10)
  }

  /** `strtol` with base 0, before the range check. */
  function ReadLong(s: string): int {
    var t := SkipSpace(s);
    var signed := t != "" && (t[0] == '-' || t[0] == '+');
    var m: int := Magnitude(if signed then t[1..] else t);
    if t != "" && t[0] == '-' then -m else m
  }

  /** `config_get_int`: refused when out of the range of a 64-bit long, then cut to 32 bits. */
  function ReadInt(s: string): Option<int> {
    var n := ReadLong(s);
    if -0x8000_0000_0000_0000 <= n < 0x8000_0000_0000_0000 then Some(Int32(n)) else None
  }

  const SIZE_RANGE: nat := 0x1_0000_0000_0000_0000

  function ToSize(n: Scanned): (r: nat)
    ensures r < SIZE_RANGE
  {
    if n.magnitude >= SIZE_RANGE then SIZE_RANGE - 1
    else if n.negative && n.magnitude > 0 then SIZE_RANGE - n.magnitude
    else n.magnitude
  }

  /** `config_get_size_t`: an unsigned 64-bit conversion, which accepts a sign. */
  function ReadSize(s: string): Option<nat> {
    match Scan(s, |s|)
    case None => None
    case Some(n) => Some(ToSize(n))
  }

  /** "%d" */
  function SignedDec(i: int): string {
    if i < 0 then "-" + Dec(-i) else Dec(i)
  }

  lemma {:induction false} BaseValueSnoc(acc: nat, s: string, c: char)
    requires AllDigits(s) && IsDigit(c)
    ensures BaseValue(acc, s + [c], 10) == BaseValue(acc, s, 10) * 10 + DigitVal(c)
    decreases |s|
  {
    if s == "" {
      assert (s + [c])[1..] == "";
    } else {
      assert (s + [c])[1..] == s[1..] + [c];
      BaseValueSnoc(acc * 10 + DigitValue(s[0]), s[1..], c);
    }
  }

  lemma {:induction false} BaseValueOfDec(n: nat)
    ensures BaseValue(0, Dec(n), 10) == n
  {
    if n < 10 {
      assert Dec(n)[1..] == "";
    } else {
      BaseValueOfDec(n / 10);
      BaseValueSnoc(0, Dec(n / 10), DigitChar(n % 10));
    }
  }

  lemma {:induction false} DecStartsAboveZero(n: nat)
    requires n > 0
    ensures Dec(n)[0] != '0'
  {
    if n >= 10 {
      DecStartsAboveZero(n / 10);
    }
  }

  lemma MagnitudeOfDec(n: nat)
    ensures Magnitude(Dec(n)) == n
  {
    if n == 0 {
      assert Dec(0) == "0" && "0"[1..] == "";
    } else {
      DecStartsAboveZero(n);
      BaseValueOfDec(n);
    }
  }

  lemma ReadLongOfDec(i: int)
    ensures ReadLong(SignedDec(i)) == i
  {
    if i < 0 {
      MagnitudeOfDec(-i);
      var s := "-" + Dec(-i);
      assert s[1..] == Dec(-i) && SkipSpace(s) == s;
    } else {
      MagnitudeOfDec(i);
      assert SkipSpace(Dec(i)) == Dec(i);
    }
  }

  lemma LongInRange(s: string, i: int)
    requires ReadLong(s) == i && -0x8000_0000 <= i < 0x8000_0000
    ensures ReadInt(s) == Some(i)
  {
  }

  /** A 32-bit signed number comes back from its decimal text. */
  lemma IntRoundTrip(i: int)
    requires -0x8000_0000 <= i < 0x8000_0000
    ensures ReadInt(SignedDec(i)) == Some(i)
  {
    ReadLongOfDec(i);
    LongInRange(SignedDec(i), i);
  }

  /** Unsigned settings are written through a signed conversion and still come back. */
  lemma UnsignedThroughInt(u: uint32)
    ensures ReadInt(SignedDec(Int32(u))) == Some(Int32(u))
    ensures Int32(u) % 0x1_0000_0000 == u
  {
    IntRoundTrip(Int32(u));
    SignedThenUnsigned(u);
  }

  lemma SignedThenUnsigned(u: uint32)
    ensures Int32(u) % 0x1_0000_0000 == u
  {
  }

  lemma ScanDec(n: nat)
    ensures Scan(Dec(n), |Dec(n)|) == Some(Scanned(false, n, ""))
  {
    ScanWhole(Dec(n));
    DigitsOfDec(n);
  }

  lemma ScanMinusDec(n: nat)
    ensures var s := "-" + Dec(n); Scan(s, |s|) == Some(Scanned(true, n, ""))
  {
    var d := Dec(n);
    var s := "-" + d;
    assert SkipSpace(s) == s && Take(s, |s|) == s && s[1..] == d;
    assert d + "" == d;
    RunOfDigits(d, "");
    DigitsOfDec(n);
    assert d[..|d|] == d && s[1 + |d|..] == "";
  }

  /** What is read of the 32-bit text of a size. */
  lemma SizeText(n: nat)
    requires n < SIZE_RANGE
    ensures var i := Int32(n); ReadSize(SignedDec(i)) == Some(if i >= 0 then i else SIZE_RANGE + i)
  {
    var i := Int32(n);
    if i >= 0 {
      ScanDec(i);
    } else {
      ScanMinusDec(-i);
    }
  }

  /** A size is written through a 32-bit signed conversion: it comes back exactly when it is below
      2^31 or so large that its sign extension restores it. */
  lemma SizeRoundTrip(n: nat)
    requires n < SIZE_RANGE
    ensures ReadSize(SignedDec(Int32(n))) == Some(n) <==> n < 0x8000_0000 || n >= SIZE_RANGE - 0x8000_0000
  {
    SizeText(n);
    SignExtension(n);
  }

  lemma SignExtension(n: nat)
    requires n < SIZE_RANGE
    ensures var i := Int32(n);
            (if i >= 0 then i else SIZE_RANGE + i) == n <==> n < 0x8000_0000 || n >= SIZE_RANGE - 0x8000_0000
  {
  }
}
