/** C strings and C integers: the pieces of the C library that the modelled files lean on.
    A `char *` that may be NULL is an `Option<string>`; a string never contains NUL. */
module CText {

  datatype Option<+T> = None | Some(value: T)

  type uint32 = x: int | 0 <= x < 0x1_0000_0000

  /** `string_is_empty`: NULL or "". */
  predicate Empty(s: Option<string>) {
    s.None? || s.value == ""
  }

  /** The text of a pointer, with NULL read as "". */
  function Str(s: Option<string>): string {
    if s.None? then "" else s.value
  }

  /** The pointer that a `strdup` guarded by `!string_is_empty` leaves behind. */
  function NonEmpty(s: string): Option<string> {
    if s == "" then None else Some(s)
  }

  function Min(a: int, b: int): int {
    if a <= b then a else b
  }

  function Take<T>(s: seq<T>, n: nat): seq<T> {
    if |s| <= n then s else s[..n]
  }

  /** `tolower` */
  function LowerChar(c: char): char {
    if 'A' <= c <= 'Z' then (c as int + 32) as char else c
  }

  function Lower(s: string): (r: string)
    ensures |r| == |s|
  {
    seq(|s|, i requires 0 <= i < |s| => LowerChar(s[i]))
  }

  /** `strchr`, as an index. */
  function FirstIndex(s: string, c: char): (r: Option<nat>)
    ensures r.Some? ==> r.value < |s|
  {
    if s == "" then None
    else if s[0] == c then Some(0)
    else
      var r := FirstIndex(s[1..], c);
      if r.None? then None else Some(r.value + 1)
  }

  /** The concatenation of f over a sequence. */
  function FlatMap<A, B>(f: A -> seq<B>, s: seq<A>): seq<B> {
    if s == [] then [] else FlatMap(f, s[..|s| - 1]) + f(s[|s| - 1])
  }

  lemma FlatMapStep<A, B>(f: A -> seq<B>, s: seq<A>, x: A)
    ensures FlatMap(f, s + [x]) == FlatMap(f, s) + f(x)
  {
    assert (s + [x])[..|s|] == s;
  }

  lemma FlatMapOne<A, B>(f: A -> seq<B>, x: A)
    ensures FlatMap(f, [x]) == f(x)
  {
    FlatMapStep(f, [], x);
    assert [] + [x] == [x];
  }

  lemma {:induction false} FlatMapAppend<A, B>(f: A -> seq<B>, a: seq<A>, b: seq<A>)
    ensures FlatMap(f, a + b) == FlatMap(f, a) + FlatMap(f, b)
  {
    if b == [] {
      assert a + b == a;
    } else {
      var n := |b| - 1;
      assert a + b == (a + b[..n]) + [b[n]];
      FlatMapStep(f, a + b[..n], b[n]);
      FlatMapAppend(f, a, b[..n]);
    }
  }

  lemma FlatMapAfter<A, B>(f: A -> seq<B>, base: seq<B>, a: seq<A>, b: seq<A>, c: seq<A>)
    ensures base + FlatMap(f, a) + FlatMap(f, b) + FlatMap(f, c) == base + FlatMap(f, a + b + c)
  {
    FlatMapAppend(f, a, b);
    FlatMapAppend(f, a + b, c);
  }

  // ---------------------------------------------------------------- decimal text

  predicate IsDigit(c: char) {
    '0' <= c <= '9'
  }

  predicate AllDigits(s: string) {
    forall i :: 0 <= i < |s| ==> IsDigit(s[i])
  }

  function DigitChar(d: int): (c: char)
    requires 0 <= d < 10
    ensures IsDigit(c) && DigitVal(c) == d
  {
    ('0' as int + d) as char
  }

  function DigitVal(c: char): (d: int)
    requires IsDigit(c)
    ensures 0 <= d < 10
  {
    c as int - '0' as int
  }

  /** `%u`. */
  function Dec(n: nat): (s: string)
    ensures s != "" && AllDigits(s)
  {
    if n < 10 then [DigitChar(n)] else Dec(n / 10) + [DigitChar(n % 10)]
  }

  function Zeros(n: nat): (s: string)
    ensures |s| == n && AllDigits(s)
  {
    seq(n, _ => '0')
  }

  /** `%0<width>u`. */
  function Padded(n: nat, width: nat): (s: string)
    ensures s != "" && AllDigits(s)
  {
    if |Dec(n)| < width then Zeros(width - |Dec(n)|) + Dec(n) else Dec(n)
  }

  function Digits(s: string): nat
    requires AllDigits(s)
  {
    if s == "" then 0 else Digits(s[..|s| - 1]) * 10 + DigitVal(s[|s| - 1])
  }

  lemma {:induction false} DigitsOfDec(n: nat)
    ensures Digits(Dec(n)) == n
  {
    if n >= 10 {
      DigitsOfDec(n / 10);
      var d := Dec(n);
      assert d[..|d| - 1] == Dec(n / 10);
    } else {
      assert Dec(n)[..0] == "";
    }
  }

  lemma {:induction false} DigitsLeadingZeros(k: nat, s: string)
    requires AllDigits(s)
    ensures Digits(Zeros(k) + s) == Digits(s)
  {
    var z := Zeros(k) + s;
    if s != "" {
      assert z[..|z| - 1] == Zeros(k) + s[..|s| - 1];
      DigitsLeadingZeros(k, s[..|s| - 1]);
    } else if k > 0 {
      assert z[..|z| - 1] == Zeros(k - 1) + "";
      DigitsLeadingZeros(k - 1, "");
    }
  }

  lemma DigitsOfPadded(n: nat, width: nat)
    ensures Digits(Padded(n, width)) == n
  {
    DigitsOfDec(n);
    if |Dec(n)| < width {
      DigitsLeadingZeros(width - |Dec(n)|, Dec(n));
    }
  }

  function Pow10(k: nat): nat {
    if k == 0 then 1 else 10 * Pow10(k - 1)
  }

  /** A number has at most k digits exactly when it is below 10^k. */
  lemma {:induction false} DecLength(n: nat, k: nat)
    requires k >= 1
    ensures |Dec(n)| <= k <==> n < Pow10(k)
  {
    if k == 1 {
      assert Pow10(1) == 10 * Pow10(0);
    } else if n >= 10 {
      DecLength(n / 10, k - 1);
    } else {
      Pow10AtLeast10(k);
    }
  }

  lemma {:induction false} Pow10AtLeast10(k: nat)
    requires k >= 1
    ensures Pow10(k) >= 10
  {
    if k > 1 {
      Pow10AtLeast10(k - 1);
    } else {
      assert Pow10(0) == 1;
    }
  }

  lemma Pow10Values()
    ensures Pow10(2) == 100 && Pow10(4) == 10000
  {
    assert Pow10(1) == 10 * Pow10(0);
    assert Pow10(2) == 10 * Pow10(1);
    assert Pow10(3) == 10 * Pow10(2);
    assert Pow10(4) == 10 * Pow10(3);
  }

  // ---------------------------------------------------------------- sscanf and strtoul

  predicate IsSpace(c: char) {
    c == ' ' || '\t' as int <= c as int <= '\r' as int
  }

  function SkipSpace(s: string): string {
    if s != "" && IsSpace(s[0]) then SkipSpace(s[1..]) else s
  }

  /** Length of the leading run of decimal digits. */
  function DigitRun(s: string): (n: nat)
    ensures n <= |s| && AllDigits(s[..n])
  {
    if s != "" && IsDigit(s[0]) then 1 + DigitRun(s[1..]) else 0
  }

  datatype Scanned = Scanned(negative: bool, magnitude: nat, rest: string)

  /** One decimal conversion of at most `width` characters: white space, an optional sign, digits. */
  function Scan(s: string, width: nat): Option<Scanned> {
    var t := SkipSpace(s);
    var field := Take(t, width);
    var sign := if field != "" && (field[0] == '-' || field[0] == '+') then 1 else 0;
    var run := DigitRun(field[sign..]);
    if run == 0 then None
    else Some(Scanned(sign == 1 && field[0] == '-', Digits(field[sign..][..run]), t[sign + run..]))
  }

  const ULONG_MAX := 0xFFFF_FFFF_FFFF_FFFF

  /** The 32 low bits as a signed number. */
  function Int32(n: int): (i: int)
    ensures -0x8000_0000 <= i < 0x8000_0000
  {
    var low := n % 0x1_0000_0000;
    if low < 0x8000_0000 then low else low - 0x1_0000_0000
  }

  /** `(unsigned)strtoul`: a 64-bit result that saturates, then is cut to 32 bits. */
  function ToUnsigned(n: Scanned): uint32 {
    var m: int := n.magnitude;
    (if m > ULONG_MAX then ULONG_MAX else if n.negative then -m else m) % 0x1_0000_0000
  }

  function StrToUnsigned(s: string): uint32 {
    match Scan(s, |s|)
    case None => 0
    case Some(n) => ToUnsigned(n)
  }

  lemma NoSpaceToSkip(s: string)
    requires s == "" || !IsSpace(s[0])
    ensures SkipSpace(s) == s
  {
  }

  /** The field of a conversion starts with the digits, all of them or as many as fit. */
  lemma FieldOfDigits(ds: string, rest: string, width: nat)
    requires ds != "" && width >= 1
    requires width <= |ds| || rest == "" || !IsDigit(rest[0])
    ensures var k, field := Min(|ds|, width), Take(ds + rest, width);
            && |field| >= k && field == ds[..k] + field[k..] && (field[k..] == "" || !IsDigit(field[k..][0]))
  {
    var s, k := ds + rest, Min(|ds|, width);
    var field := Take(s, width);
    if width <= |ds| {
      assert field == ds[..k];
    } else {
      assert field[k..] == Take(rest, width - k);
    }
  }

  /** Scanning digits: `width` of them at most, stopping early only in front of a non-digit. */
  lemma {:induction false} ScanDigits(ds: string, rest: string, width: nat)
    requires ds != "" && AllDigits(ds) && width >= 1
    requires width <= |ds| || rest == "" || !IsDigit(rest[0])
    ensures var k := Min(|ds|, width);
            Scan(ds + rest, width) == Some(Scanned(false, Digits(ds[..k]), ds[k..] + rest))
  {
    var k, s := Min(|ds|, width), ds + rest;
    assert s[0] == ds[0];
    NoSpaceToSkip(s);
    FieldOfDigits(ds, rest, width);
    var field := Take(s, width);
    assert field[0] == ds[0] && field[0..] == field;
    RunOfDigits(ds[..k], field[k..]);
    assert field[..k] == ds[..k];
    assert s[k..] == ds[k..] + rest;
  }

  lemma {:induction false} RunOfDigits(ds: string, rest: string)
    requires AllDigits(ds)
    requires rest == "" || !IsDigit(rest[0])
    ensures DigitRun(ds + rest) == |ds|
  {
    if ds == "" {
      assert ds + rest == rest;
    } else {
      assert (ds + rest)[1..] == ds[1..] + rest;
      RunOfDigits(ds[1..], rest);
    }
  }

  /** A 32-bit magnitude without a sign survives the cut to 32 bits. */
  lemma SmallIsUnsigned(n: Scanned)
    requires !n.negative && n.magnitude < 0x1_0000_0000
    ensures ToUnsigned(n) == n.magnitude
  {
  }

  lemma {:induction false} ScanWhole(d: string)
    requires d != "" && AllDigits(d)
    ensures Scan(d, |d|) == Some(Scanned(false, Digits(d), ""))
  {
    ScanDigits(d, "", |d|);
    assert d + "" == d;
    assert d[..|d|] == d;
    assert d[|d|..] + "" == "";
  }

  /** Decimal text of a 32-bit unsigned value reads back as that value. */
  lemma UnsignedRoundTrip(n: uint32)
    ensures StrToUnsigned(Dec(n)) == n
  {
    ScanWhole(Dec(n));
    DigitsOfDec(n);
    SmallIsUnsigned(Scanned(false, n, ""));
  }
}
