/** Hardware API requirements of a core: a character state machine that un-reads one character, and
    the order-sensitive decision taken on what it parses. */
module CoreApi {
  import opened CText

  datatype Op = Equal | NotEqual | Less | LessEqual | Greater | GreaterEqual

  datatype Phase = InName | InOp | InVersion

  /** The parser's variables. */
  datatype Parse = Parse(
    phase: Phase, name: string, op: Op,
    major: string, minor: string, foundMajor: bool, foundMinor: bool)

  const START := Parse(InName, "", GreaterEqual, "", "", false, false)

  const DIGIT_LIMIT: nat := 15  // what fits in a buffer of 16 with its terminator

  predicate IsLetter(c: char) {
    'a' <= c <= 'z' || 'A' <= c <= 'Z'
  }

  /** The operator at the start of s, and how many characters it takes; anything else takes one and
      changes nothing. */
  function ReadOp(current: Op, s: string): (r: (Op, nat))
    requires |s| >= 2
    ensures 1 <= r.1 <= 2
  {
    if s[0] == '=' && s[1] == '=' then (Equal, 2)
    else if s[0] == '=' then (Equal, 1)
    else if s[0] == '!' && s[1] == '=' then (NotEqual, 2)
    else if s[0] == '<' && s[1] == '=' then (LessEqual, 2)
    else if s[0] == '>' && s[1] == '=' then (GreaterEqual, 2)
    else if s[0] == '<' then (Less, 1)
    else if s[0] == '>' then (Greater, 1)
    else (current, 1)
  }

  function VersionChar(p: Parse, c: char): Parse {
    if !p.foundMinor && IsDigit(c) then
      p.(foundMajor := true, major := if |p.major| < DIGIT_LIMIT then p.major + [c] else p.major)
    else if p.foundMajor && p.foundMinor && IsDigit(c) then
      p.(minor := if |p.minor| < DIGIT_LIMIT then p.minor + [c] else p.minor)
    else if c == '.' then p.(foundMinor := true)
    else p
  }

  /** The rest of a requirement, from a state of the parser. */
  function Consume(p: Parse, s: string): Parse
    decreases |s|, if p.phase.InName? then 1 else 0
  {
    if s == "" then p
    else if s[0] == ' ' then Consume(p, s[1..])
    else
      match p.phase
      case InName =>
        if IsLetter(s[0]) then Consume(p.(name := p.name + [s[0]]), s[1..])
        else Consume(p.(phase := InOp), s)
      case InOp =>
        var r := if |s| > 1 && !IsDigit(s[0]) then ReadOp(p.op, s) else (p.op, 1);
        Consume(p.(op := r.0, phase := InVersion), s[r.1..])
      case InVersion => Consume(VersionChar(p, s[0]), s[1..])
  }

  /** `sscanf("%d")` of a digit buffer: 0 for an empty one, cut to 32 bits. */
  function ToInt32(digits: string): int {
    var n := Scan(digits, |digits|);
    if n.None? then 0 else Int32(n.value.magnitude)
  }

  datatype Requirement = Requirement(name: string, op: Op, major: int, minor: int)

  function ParseRequirement(s: string): Requirement {
    var p := Consume(START, s);
    Requirement(p.name, p.op, ToInt32(p.major), ToInt32(p.minor))
  }

  function OpAt(current: Op, s: string, j: nat): (r: (Op, nat))
    requires j < |s|
    ensures 1 <= r.1 && j + r.1 <= |s|
  {
    if j + 1 < |s| && !IsDigit(s[j]) then ReadOp(current, s[j..]) else (current, 1)
  }

  /** The chain of operator tests at position j, which has a successor. */
  method OperatorAt(current: Op, s: string, j: nat) returns (op: Op, taken: nat)
    requires j + 1 < |s| && !IsDigit(s[j])
    ensures (op, taken) == OpAt(current, s, j)
  {
    var c, next := s[j], s[j + 1];
    op, taken := current, 1;
    if c == '=' && next == '=' {
      op, taken := Equal, 2;
    } else if c == '=' {
      op := Equal;
    } else if c == '!' && next == '=' {
      op, taken := NotEqual, 2;
    } else if c == '<' && next == '=' {
      op, taken := LessEqual, 2;
    } else if c == '>' && next == '=' {
      op, taken := GreaterEqual, 2;
    } else if c == '<' {
      op := Less;
    } else if c == '>' {
      op := Greater;
    }
  }

  /** One character of the version. */
  method VersionAt(c: char, major0: string, minor0: string, foundMajor0: bool, foundMinor0: bool)
    returns (major: string, minor: string, foundMajor: bool, foundMinor: bool)
    ensures forall name, op ::
              Parse(InVersion, name, op, major, minor, foundMajor, foundMinor) ==
              VersionChar(Parse(InVersion, name, op, major0, minor0, foundMajor0, foundMinor0), c)
  {
    major, minor, foundMajor, foundMinor := major0, minor0, foundMajor0, foundMinor0;
    if !foundMinor && IsDigit(c) {
      foundMajor := true;
      if |major| < DIGIT_LIMIT {
        major := major + [c];
      }
    } else if foundMajor && foundMinor && IsDigit(c) {
      if |minor| < DIGIT_LIMIT {
        minor := minor + [c];
      }
    } else if c == '.' {
      foundMinor := true;
    }
  }

  /** One round of the loop: the new state and position. Only un-reading leaves the position, and the name. */
  function Round(p: Parse, s: string, j: nat): (r: (Parse, nat))
    requires j < |s|
    ensures j <= r.1 <= |s| && (r.1 == j ==> p.phase == InName && r.0.phase == InOp)
  {
    if s[j] == ' ' then (p, j + 1)
    else
      match p.phase
      case InName =>
        if IsLetter(s[j]) then (p.(name := p.name + [s[j]]), j + 1) else (p.(phase := InOp), j)
      case InOp => (p.(op := OpAt(p.op, s, j).0, phase := InVersion), j + OpAt(p.op, s, j).1)
      case InVersion => (VersionChar(p, s[j]), j + 1)
  }

  lemma ConsumeRound(p: Parse, s: string, j: nat)
    requires j < |s|
    ensures Consume(p, s[j..]) == Consume(Round(p, s, j).0, s[Round(p, s, j).1..])
  {
    var t := s[j..];
    assert t[1..] == s[j + 1..];
    if p.phase == InOp {
      assert t[OpAt(p.op, s, j).1..] == s[j + OpAt(p.op, s, j).1..];
    }
  }

  /** The body of the loop, with its `j--`. */
  method ParseChar(p: Parse, s: string, j0: nat) returns (q: Parse, j: nat)
    requires j0 < |s|
    ensures (q, j) == Round(p, s, j0)
  {
    var name, op, phase := p.name, p.op, p.phase;
    var major, minor, foundMajor, foundMinor := p.major, p.minor, p.foundMajor, p.foundMinor;
    var i: int := j0;
    var c := s[i];
    if c != ' ' {
      match phase {
        case InName =>
          if IsLetter(c) {
            name := name + [c];
          } else {
            i := i - 1;
            phase := InOp;
          }
        case InOp =>
          if i < |s| - 1 && !IsDigit(c) {
            var taken;
            op, taken := OperatorAt(op, s, i);
            i := i + taken - 1;
          }
          phase := InVersion;
        case InVersion =>
          major, minor, foundMajor, foundMinor := VersionAt(c, major, minor, foundMajor, foundMinor);
      }
    }
    return Parse(phase, name, op, major, minor, foundMajor, foundMinor), i + 1;
  }

  /** The parsing loop. */
  method ParseLoop(s: string) returns (r: Requirement)
    ensures r == ParseRequirement(s)
  {
    var p, j := START, 0;
    assert s[0..] == s;
    while j < |s|
      invariant j <= |s|
      invariant Consume(START, s) == Consume(p, s[j..])
      decreases |s| - j, if p.phase.InName? then 1 else 0
    {
      ConsumeRound(p, s, j);
      p, j := ParseChar(p, s, j);
    }
    return Requirement(p.name, p.op, ToInt32(p.major), ToInt32(p.minor));
  }

  // ---------------------------------------------------------------- the parser inverts printing

  function StripBlanks(s: string): string {
    if s == "" then "" else (if s[0] == ' ' then [] else [s[0]]) + StripBlanks(s[1..])
  }

  predicate AllLetters(s: string) {
    forall i :: 0 <= i < |s| ==> IsLetter(s[i])
  }

  /** How an operator can be written: "=" and "==" mean the same. */
  predicate Writes(token: string, op: Op) {
    match op
    case Equal => token == "=" || token == "=="
    case NotEqual => token == "!="
    case Less => token == "<"
    case LessEqual => token == "<="
    case Greater => token == ">"
    case GreaterEqual => token == ">="
  }

  lemma {:induction false} ConsumeName(p: Parse, a: string, rest: string)
    requires p.phase == InName && AllLetters(StripBlanks(a))
    ensures Consume(p, a + rest) == Consume(p.(name := p.name + StripBlanks(a)), rest)
    decreases |a|
  {
    if a == "" {
      assert a + rest == rest && p.name + "" == p.name;
    } else {
      assert (a + rest)[1..] == a[1..] + rest;
      if a[0] == ' ' {
        assert StripBlanks(a) == StripBlanks(a[1..]);
        ConsumeName(p, a[1..], rest);
      } else {
        var stripped := StripBlanks(a);
        assert stripped[0] == a[0] && stripped[1..] == StripBlanks(a[1..]);
        ConsumeName(p.(name := p.name + [a[0]]), a[1..], rest);
        assert p.name + [a[0]] + StripBlanks(a[1..]) == p.name + stripped;
      }
    }
  }

  lemma ConsumeOp(p: Parse, token: string, op: Op, rest: string)
    requires p.phase == InName && Writes(token, op) && rest != "" && rest[0] != '='
    ensures Consume(p, token + rest) == Consume(p.(op := op, phase := InVersion), rest)
  {
    var s := token + rest;
    assert s[0] == token[0];
    assert Consume(p, s) == Consume(p.(phase := InOp), s);
    if |token| == 2 {
      assert s[1] == token[1] && s[2..] == rest;
    } else {
      assert s[1] == rest[0] && s[1..] == rest;
    }
  }

  /** Blanks do not matter inside a version. */
  function Version(p: Parse, s: string): Parse
    decreases |s|
  {
    if s == "" then p else Version(VersionChar(p, s[0]), s[1..])
  }

  lemma {:induction false} ConsumeVersion(p: Parse, s: string)
    requires p.phase == InVersion
    ensures Consume(p, s) == Version(p, StripBlanks(s))
    decreases |s|
  {
    if s != "" {
      if s[0] == ' ' {
        assert StripBlanks(s) == StripBlanks(s[1..]);
        ConsumeVersion(p, s[1..]);
      } else {
        assert StripBlanks(s)[0] == s[0] && StripBlanks(s)[1..] == StripBlanks(s[1..]);
        ConsumeVersion(VersionChar(p, s[0]), s[1..]);
      }
    }
  }

  lemma VersionStep(p: Parse, c: char, rest: string)
    ensures Version(p, [c] + rest) == Version(VersionChar(p, c), rest)
  {
    assert ([c] + rest)[1..] == rest;
  }

  lemma MajorDigit(p: Parse, c: char)
    requires IsDigit(c) && !p.foundMinor && |p.major| < DIGIT_LIMIT
    ensures VersionChar(p, c) == p.(major := p.major + [c], foundMajor := true)
  {
  }

  function WithMajor(p: Parse, ds: string): Parse {
    p.(major := p.major + ds, foundMajor := p.foundMajor || ds != "")
  }

  lemma MajorGrows(p: Parse, c: char, ds: string)
    ensures WithMajor(p, "") == p
    ensures WithMajor(p.(major := p.major + [c], foundMajor := true), ds) == WithMajor(p, [c] + ds)
  {
    assert p.major + [c] + ds == p.major + ([c] + ds);
  }

  lemma {:induction false} VersionMajor(p: Parse, ds: string, rest: string)
    requires AllDigits(ds) && !p.foundMinor && |p.major| + |ds| <= DIGIT_LIMIT
    ensures Version(p, ds + rest) == Version(WithMajor(p, ds), rest)
    decreases |ds|
  {
    if ds == "" {
      MajorGrows(p, '0', ds);
      assert ds + rest == rest;
    } else {
      var c, tail := ds[0], ds[1..];
      assert ds + rest == [c] + (tail + rest) && ds == [c] + tail;
      VersionStep(p, c, tail + rest);
      MajorDigit(p, c);
      VersionMajor(p.(major := p.major + [c], foundMajor := true), tail, rest);
      MajorGrows(p, c, tail);
    }
  }

  lemma {:induction false} VersionMinor(p: Parse, ds: string)
    requires AllDigits(ds) && p.foundMajor && p.foundMinor && |p.minor| + |ds| <= DIGIT_LIMIT
    ensures Version(p, ds) == p.(minor := p.minor + ds)
    decreases |ds|
  {
    if ds == "" {
      assert p.minor + ds == p.minor;
    } else {
      VersionMinor(VersionChar(p, ds[0]), ds[1..]);
      assert p.minor + [ds[0]] + ds[1..] == p.minor + ds;
    }
  }

  lemma {:induction false} VersionOf(p: Parse, major: string, minor: string)
    requires AllDigits(major) && AllDigits(minor) && major != "" && |major| <= DIGIT_LIMIT && |minor| <= DIGIT_LIMIT
    requires p.major == "" && p.minor == "" && !p.foundMajor && !p.foundMinor
    ensures var q := Version(p, major + "." + minor);
            q.major == major && q.minor == minor && q.name == p.name && q.op == p.op
  {
    var tail := "." + minor;
    assert major + "." + minor == major + tail;
    VersionMajor(p, major, tail);
    assert "" + major == major;
    var q := p.(major := major, foundMajor := true);
    assert tail[0] == '.' && tail[1..] == minor;
    assert VersionChar(q, '.') == q.(foundMinor := true);
    VersionMinor(q.(foundMinor := true), minor);
    assert "" + minor == minor;
  }

  lemma {:induction false} SmallDigits(ds: string)
    requires AllDigits(ds) && 1 <= |ds| <= 9
    ensures ToInt32(ds) == Digits(ds)
  {
    ScanWhole(ds);
    DigitsBelow(ds, 9);
    SmallInt32(Digits(ds));
  }

  lemma SmallInt32(m: nat)
    requires m < 0x8000_0000
    ensures Int32(m) == m
  {
  }

  lemma {:induction false} DigitsBelow(ds: string, k: nat)
    requires AllDigits(ds) && |ds| <= k <= 9
    ensures Digits(ds) < Pow10(k) <= 1_000_000_000
  {
    if k == 0 {
      assert ds == "" && Pow10(0) == 1;
    } else if ds == "" {
      DigitsBelow(ds, k - 1);
      Pow10Bound(k);
    } else {
      DigitsBelow(ds[..|ds| - 1], k - 1);
      Pow10Bound(k);
    }
  }

  lemma Pow10Bound(k: nat)
    requires k <= 9
    ensures 1 <= Pow10(k) <= 1_000_000_000
  {
    Pow10Values();
    assert Pow10(1) == 10 * Pow10(0);
    assert Pow10(3) == 10 * Pow10(2);
    assert Pow10(5) == 10 * Pow10(4);
    assert Pow10(6) == 10 * Pow10(5);
    assert Pow10(7) == 10 * Pow10(6);
    assert Pow10(8) == 10 * Pow10(7);
    assert Pow10(9) == 10 * Pow10(8);
  }

  lemma NoEqualsFirst(b: string, major: string, minor: string)
    requires StripBlanks(b) == major + "." + minor && AllDigits(major) && major != ""
    ensures b != "" && b[0] != '='
  {
    assert (major + "." + minor)[0] == major[0];
    assert b[0] == ' ' || StripBlanks(b)[0] == b[0];
  }

  lemma ConsumeNameAndOp(a: string, token: string, op: Op, b: string)
    requires AllLetters(StripBlanks(a)) && Writes(token, op) && b != "" && b[0] != '='
    ensures Consume(START, a + (token + b)) ==
            Consume(START.(name := StripBlanks(a), op := op, phase := InVersion), b)
  {
    var name := StripBlanks(a);
    ConsumeFirstName(START, a, token + b);
    ConsumeOp(START.(name := name), token, op, b);
  }

  lemma ConsumeFirstName(p: Parse, a: string, rest: string)
    requires p.phase == InName && p.name == "" && AllLetters(StripBlanks(a))
    ensures Consume(p, a + rest) == Consume(p.(name := StripBlanks(a)), rest)
  {
    ConsumeName(p, a, rest);
    assert p.name + StripBlanks(a) == StripBlanks(a);
  }

  /** Whatever blanks surround and split its parts, a requirement with an explicit operator is read as
      its name, its operator and its version. (Names of more than 31 letters do not fit the code's buffer and
      are outside what it defines; the lemma says nothing about the code there.) */
  lemma {:induction false} ParserInvertsPrinting(a: string, token: string, b: string, name: string, op: Op,
                                                 major: string, minor: string)
    requires StripBlanks(a) == name && AllLetters(name)
    requires Writes(token, op)
    requires StripBlanks(b) == major + "." + minor
    requires AllDigits(major) && AllDigits(minor) && 1 <= |major| <= 9 && 1 <= |minor| <= 9
    ensures ParseRequirement(a + (token + b)) == Requirement(name, op, Digits(major), Digits(minor))
  {
    NoEqualsFirst(b, major, minor);
    ConsumeNameAndOp(a, token, op, b);
    ConsumeNumbers(START.(name := name, op := op, phase := InVersion), b, major, minor);
  }

  lemma {:induction false} ConsumeNumbers(q: Parse, b: string, major: string, minor: string)
    requires q.phase == InVersion && q.major == "" && q.minor == "" && !q.foundMajor && !q.foundMinor
    requires StripBlanks(b) == major + "." + minor
    requires AllDigits(major) && AllDigits(minor) && 1 <= |major| <= 9 && 1 <= |minor| <= 9
    ensures var p := Consume(q, b);
            Requirement(p.name, p.op, ToInt32(p.major), ToInt32(p.minor)) ==
            Requirement(q.name, q.op, Digits(major), Digits(minor))
  {
    ConsumeVersion(q, b);
    VersionOf(q, major, minor);
    SmallDigits(major);
    SmallDigits(minor);
  }

  /** Without an operator the first digit of the version is taken for one and lost. */
  lemma NoOperatorLosesDigit(a: string, b: string, name: string, d: char, rest: string)
    requires StripBlanks(a) == name && AllLetters(name)
    requires b != "" && b[0] == d && IsDigit(d) && StripBlanks(b[1..]) == rest
    ensures var v := Version(START.(name := name, phase := InVersion), rest);
            ParseRequirement(a + b) == Requirement(name, GreaterEqual, ToInt32(v.major), ToInt32(v.minor))
  {
    ConsumeName(START, a, b);
    assert "" + name == name;
    var named := START.(name := name);
    assert Consume(named, b) == Consume(named.(phase := InOp), b);
    assert Consume(named.(phase := InOp), b) == Consume(named.(phase := InVersion), b[1..]);
    var q := named.(phase := InVersion);
    assert q == START.(name := name, phase := InVersion);
    ConsumeVersion(q, b[1..]);
    VersionKeepsNameAndOp(q, rest);
  }

  lemma {:induction false} VersionKeepsNameAndOp(p: Parse, s: string)
    ensures Version(p, s).name == p.name && Version(p, s).op == p.op
    decreases |s|
  {
    if s != "" {
      VersionKeepsNameAndOp(VersionChar(p, s[0]), s[1..]);
    }
  }

  lemma {:induction false} NoMajorNoMinor(p: Parse, ds: string)
    requires AllDigits(ds) && !p.foundMajor && p.foundMinor
    ensures Version(p, ds) == p
    decreases |ds|
  {
    if ds != "" {
      NoMajorNoMinor(p, ds[1..]);
    }
  }

  /** ... so a one-digit major version without an operator demands nothing: at least 0.0. */
  lemma NoOperatorDemandsNothing(a: string, name: string, d: char, minor: string)
    requires StripBlanks(a) == name && AllLetters(name) && IsDigit(d) && AllDigits(minor)
    ensures ParseRequirement(a + ([d, '.'] + minor)) == Requirement(name, GreaterEqual, 0, 0)
  {
    var b := [d, '.'] + minor;
    var rest := "." + minor;
    assert b[1..] == rest;
    NoBlanksInDigits(minor);
    assert StripBlanks(rest) == rest by { assert rest[1..] == minor; }
    NoOperatorLosesDigit(a, b, name, d, rest);
    var p := START.(name := name, phase := InVersion);
    assert rest[0] == '.' && rest[1..] == minor;
    NoMajorNoMinor(VersionChar(p, '.'), minor);
  }

  lemma {:induction false} NoBlanksInDigits(ds: string)
    requires AllDigits(ds)
    ensures StripBlanks(ds) == ds
  {
    if ds != "" {
      NoBlanksInDigits(ds[1..]);
    }
  }

  lemma {:induction false} StripTrailingBlank(a: string)
    ensures StripBlanks(a + " ") == StripBlanks(a)
  {
    if a == "" {
      assert ("" + " ")[1..] == "";
    } else {
      assert (a + " ")[1..] == a[1..] + " ";
      StripTrailingBlank(a[1..]);
    }
  }

  /** Blanks in front of the version belong to the name as well. */
  lemma {:induction false} FirstDigitIsConsumed(a: string, b: string, name: string, version: string)
    requires StripBlanks(a) == name && AllLetters(name)
    requires StripBlanks(b) == version && version != "" && IsDigit(version[0])
    ensures var v := Version(START.(name := name, phase := InVersion), version[1..]);
            ParseRequirement(a + b) == Requirement(name, GreaterEqual, ToInt32(v.major), ToInt32(v.minor))
    decreases |b|
  {
    if b[0] == ' ' {
      StripTrailingBlank(a);
      assert a + " " + b[1..] == a + b;
      FirstDigitIsConsumed(a + " ", b[1..], name, version);
    } else {
      assert version[1..] == StripBlanks(b[1..]);
      NoOperatorLosesDigit(a, b, name, b[0], version[1..]);
    }
  }

  /** What a requirement without an operator is read as: the version without its first digit, and no version
      at all when nothing is left in front of the dot. */
  lemma {:induction false} NoOperatorResult(a: string, b: string, name: string, major: string, minor: string)
    requires StripBlanks(a) == name && AllLetters(name) && StripBlanks(b) == major + "." + minor
    requires AllDigits(major) && AllDigits(minor) && 1 <= |major| <= 9 && 1 <= |minor| <= 9
    ensures ParseRequirement(a + b) ==
            Requirement(name, GreaterEqual, Digits(major[1..]), if |major| == 1 then 0 else Digits(minor))
  {
    assert (major + "." + minor)[0] == major[0];
    FirstDigitIsConsumed(a, b, name, major + "." + minor);
    RestOfVersion(START.(name := name, phase := InVersion), major, minor);
  }

  lemma DroppingFirst(major: string, minor: string)
    requires major != ""
    ensures (major + "." + minor)[1..] == major[1..] + "." + minor
  {
  }

  lemma RestOfOneDigit(p: Parse, major: string, minor: string)
    requires AllDigits(major) && AllDigits(minor) && |major| == 1
    requires p.major == p.minor == "" && !p.foundMajor && !p.foundMinor
    ensures var v := Version(p, (major + "." + minor)[1..]);
            ToInt32(v.major) == Digits(major[1..]) && ToInt32(v.minor) == 0
  {
    DroppingFirst(major, minor);
    assert major[1..] == "" && "" + "." + minor == "." + minor;
    MinorAlone(p, minor);
  }

  lemma {:induction false} RestOfLonger(p: Parse, major: string, minor: string)
    requires AllDigits(major) && AllDigits(minor) && 2 <= |major| <= 9 && 1 <= |minor| <= 9
    requires p.major == p.minor == "" && !p.foundMajor && !p.foundMinor
    ensures var v := Version(p, (major + "." + minor)[1..]);
            ToInt32(v.major) == Digits(major[1..]) && ToInt32(v.minor) == Digits(minor)
  {
    var rest := major[1..];
    DroppingFirst(major, minor);
    VersionOf(p, rest, minor);
    SmallDigits(rest);
    SmallDigits(minor);
  }

  lemma {:induction false} RestOfVersion(p: Parse, major: string, minor: string)
    requires AllDigits(major) && AllDigits(minor) && 1 <= |major| <= 9 && 1 <= |minor| <= 9
    requires p.major == p.minor == "" && !p.foundMajor && !p.foundMinor
    ensures var v := Version(p, (major + "." + minor)[1..]);
            ToInt32(v.major) == Digits(major[1..]) && ToInt32(v.minor) == if |major| == 1 then 0 else Digits(minor)
  {
    if |major| == 1 {
      RestOfOneDigit(p, major, minor);
    } else {
      RestOfLonger(p, major, minor);
    }
  }

  lemma MinorAlone(p: Parse, minor: string)
    requires AllDigits(minor) && !p.foundMajor && !p.foundMinor
    ensures Version(p, "." + minor) == p.(foundMinor := true)
  {
    var rest := "." + minor;
    assert rest[0] == '.' && rest[1..] == minor;
    NoMajorNoMinor(VersionChar(p, '.'), minor);
  }

  /** Only a leading zero can be dropped from a number. */
  lemma {:induction false} FirstDigitCounts(ds: string)
    requires AllDigits(ds) && ds != ""
    ensures Digits(ds) >= Digits(ds[1..]) && (Digits(ds) == Digits(ds[1..]) <==> ds[0] == '0')
  {
    var n := |ds| - 1;
    if n == 0 {
      assert ds[..0] == ds[1..] == "";
    } else {
      FirstDigitCounts(ds[..n]);
      assert ds[1..][..n - 1] == ds[..n][1..];
    }
  }

  /** Without an operator name and version come back exactly when the lost digit is a zero that does not count:
      one of several digits of the major version, or the whole major version in front of a minor version 0. */
  lemma {:induction false} NoOperatorRoundTrip(a: string, b: string, name: string, major: string, minor: string)
    requires StripBlanks(a) == name && AllLetters(name) && StripBlanks(b) == major + "." + minor
    requires AllDigits(major) && AllDigits(minor) && 1 <= |major| <= 9 && 1 <= |minor| <= 9
    ensures ParseRequirement(a + b) == Requirement(name, GreaterEqual, Digits(major), Digits(minor)) <==>
            major[0] == '0' && (|major| > 1 || Digits(minor) == 0)
  {
    NoOperatorResult(a, b, name, major, minor);
    FirstDigitCounts(major);
  }

  /** A parsed name never contains a digit. (The name has no bound here. The code's buffer holds 31 letters;
      what it does with a longer name is undefined.) */
  lemma {:induction false} NamesAreLetters(p: Parse, s: string)
    requires AllLetters(p.name)
    ensures AllLetters(Consume(p, s).name)
    decreases |s|, if p.phase.InName? then 1 else 0
  {
    if s != "" {
      if s[0] == ' ' {
        NamesAreLetters(p, s[1..]);
      } else {
        match p.phase {
          case InName =>
            if IsLetter(s[0]) {
              NamesAreLetters(p.(name := p.name + [s[0]]), s[1..]);
            } else {
              NamesAreLetters(p.(phase := InOp), s);
            }
          case InOp =>
            var r := if |s| > 1 && !IsDigit(s[0]) then ReadOp(p.op, s) else (p.op, 1);
            NamesAreLetters(p.(op := r.0, phase := InVersion), s[r.1..]);
          case InVersion =>
            NamesAreLetters(VersionChar(p, s[0]), s[1..]);
        }
      }
    }
  }

  // ---------------------------------------------------------------- the decision

  datatype Api =
    | OpenGL | OpenGLES | Direct3D8 | Direct3D9 | Direct3D10 | Direct3D11 | Direct3D12 | Vulkan | Metal | OtherApi

  /** The running video driver. The version is what `sscanf` finds in the driver's version text. */
  datatype System = System(api: Api, coreContext: bool, major: int, minor: int)

  /** `core_info_compare_api_version` */
  predicate CompareVersion(sysMajor: int, sysMinor: int, major: int, minor: int, op: Op) {
    match op
    case Equal => sysMajor == major && sysMinor == minor
    case NotEqual => !(sysMajor == major && sysMinor == minor)
    case Less => sysMajor < major || (sysMajor == major && sysMinor < minor)
    case LessEqual => sysMajor < major || (sysMajor == major && sysMinor <= minor)
    case Greater => sysMajor > major || (sysMajor == major && sysMinor > minor)
    case GreaterEqual => sysMajor > major || (sysMajor == major && sysMinor >= minor)
  }

  predicate CompareNumbers(x: int, y: int, op: Op) {
    match op
    case Equal => x == y
    case NotEqual => x != y
    case Less => x < y
    case LessEqual => x <= y
    case Greater => x > y
    case GreaterEqual => x >= y
  }

  /** Versions compare like numbers whose last digit, in a base that is large enough, is the minor version. */
  lemma VersionsAreNumbers(base: nat, sysMajor: int, sysMinor: int, major: int, minor: int, op: Op)
    requires 0 <= sysMinor < base && 0 <= minor < base
    ensures CompareVersion(sysMajor, sysMinor, major, minor, op) <==>
            CompareNumbers(sysMajor * base + sysMinor, major * base + minor, op)
  {
    if sysMajor < major {
      RowsApart(base, sysMajor, major);
    } else if sysMajor > major {
      RowsApart(base, major, sysMajor);
    }
  }

  lemma RowsApart(base: nat, a: int, b: int)
    requires a < b
    ensures a * base + base <= b * base
  {
    var more: nat := b - a - 1;
    assert b * base == a * base + base + more * base;
  }

  predicate PlainOpenGL(name: string) {
    Lower(name) == "opengl" || Lower(name) == "openglcompat" || Lower(name) == "openglcompatibility"
  }

  /** The requirement names the API that is running. */
  predicate NamesApi(api: Api, name: string) {
    match api
    case OpenGL => PlainOpenGL(name) || Lower(name) == "openglcore"
    case OpenGLES => Lower(name) == "opengles"
    case Direct3D8 => Lower(name) == "direct3d8"
    case Direct3D9 => Lower(name) == "direct3d9"
    case Direct3D10 => Lower(name) == "direct3d10"
    case Direct3D11 => Lower(name) == "direct3d11"
    case Direct3D12 => Lower(name) == "direct3d12"
    case Vulkan => Lower(name) == "vulkan"
    case Metal => Lower(name) == "metal"
    case OtherApi => false
  }

  function SystemMajor(sys: System): int {
    match sys.api
    case Direct3D8 => 8
    case Direct3D9 => 9
    case Direct3D10 => 10
    case Direct3D11 => 11
    case Direct3D12 => 12
    case _ => sys.major
  }

  function SystemMinor(sys: System): int {
    match sys.api
    case Direct3D8 => 0
    case Direct3D9 => 0
    case Direct3D10 => 0
    case Direct3D11 => 0
    case Direct3D12 => 0
    case _ => sys.minor
  }

  /** A requirement that ends the search: plain or compatibility OpenGL on a core context. */
  predicate Refuses(sys: System, text: string) {
    text != "" && sys.api == OpenGL && sys.coreContext && PlainOpenGL(ParseRequirement(text).name)
  }

  /** A requirement that the running driver meets. */
  predicate Satisfies(sys: System, text: string) {
    text != "" &&
    var r := ParseRequirement(text);
    NamesApi(sys.api, r.name) && CompareVersion(SystemMajor(sys), SystemMinor(sys), r.major, r.minor, r.op)
  }

  datatype Verdict = Met | Refused | Passed

  /** One element of the list, parsed and compared. */
  method Judge(sys: System, text: string) returns (v: Verdict)
    ensures v == Refused <==> Refuses(sys, text)
    ensures v == Met <==> Satisfies(sys, text) && !Refuses(sys, text)
  {
    if text == "" {
      return Passed;
    }
    var r := ParseLoop(text);
    if PlainOpenGL(r.name) && sys.api == OpenGL {
      if sys.coreContext {
        return Refused;
      }
      return if CompareVersion(sys.major, sys.minor, r.major, r.minor, r.op) then Met else Passed;
    }
    if NamesApi(sys.api, r.name) {
      return if CompareVersion(SystemMajor(sys), SystemMinor(sys), r.major, r.minor, r.op) then Met else Passed;
    }
    return Passed;
  }

  /** Some requirement of a list is met, and none up to it refuses. */
  ghost predicate Answer(sys: System, reqs: seq<string>) {
    exists i :: 0 <= i < |reqs| && Satisfies(sys, reqs[i]) && forall j :: 0 <= j <= i ==> !Refuses(sys, reqs[j])
  }

  /** `core_info_hw_api_supported`. Without requirements the answer is yes. */
  method HwApiSupported(sys: System, list: Option<seq<string>>) returns (ok: bool)
    ensures list.None? || list.value == [] ==> ok
    ensures list.Some? && list.value != [] ==> (ok <==> Answer(sys, list.value))
  {
    if list.None? || |list.value| == 0 {
      return true;
    }
    var reqs := list.value;
    var i := 0;
    while i < |reqs|
      invariant i <= |reqs|
      invariant forall j :: 0 <= j < i ==> !Satisfies(sys, reqs[j]) && !Refuses(sys, reqs[j])
    {
      var v := Judge(sys, reqs[i]);
      if v == Refused {
        return false;
      }
      if v == Met {
        return true;
      }
      i := i + 1;
    }
    return false;
  }

  /** No requirement, however it is written, can be met on a Direct3D system: a name loses its digits. */
  lemma Direct3DIsNeverMet(sys: System, text: string)
    requires sys.api in {Direct3D8, Direct3D9, Direct3D10, Direct3D11, Direct3D12}
    ensures !Satisfies(sys, text)
  {
    NamesAreLetters(START, text);
    var name := ParseRequirement(text).name;
    if |name| > 8 {
      assert IsLetter(name[8]);
      assert Lower(name)[8] == LowerChar(name[8]);
      assert "direct3d8"[8] == '8' && "direct3d9"[8] == '9' && "direct3d10"[8] == '1' &&
             "direct3d11"[8] == '1' && "direct3d12"[8] == '1';
    }
  }
}
