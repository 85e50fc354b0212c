/** Which requirement a driver meets, by the names of the drivers, and which files a core supports, by the
    extensions it lists. */
module CoreAnswers {
  import opened CText
  import opened CoreApi
  import Support = CoreSupport

  // ---------------------------------------------------------------- requirements

  /** A version is below another one: the major versions decide, and the minor versions when they are equal. */
  predicate Below(major: int, minor: int, major': int, minor': int) {
    major < major' || (major == major' && minor < minor')
  }

  /** What an operator, as it is written, asks of the driver's version. */
  predicate Asks(token: string, sysMajor: int, sysMinor: int, major: int, minor: int)
  {
    var equal := sysMajor == major && sysMinor == minor;
    if token == "=" || token == "==" then equal
    else if token == "!=" then !equal
    else if token == "<" then Below(sysMajor, sysMinor, major, minor)
    else if token == "<=" then Below(sysMajor, sysMinor, major, minor) || equal
    else if token == ">" then Below(major, minor, sysMajor, sysMinor)
    else Below(major, minor, sysMajor, sysMinor) || equal
  }

  /** The driver that a name asks for, in any case. A core context has no plain or compatibility OpenGL. */
  predicate Names(name: string, sys: System) {
    match Lower(name)
    case "vulkan" => sys.api == Vulkan
    case "metal" => sys.api == Metal
    case "opengles" => sys.api == OpenGLES
    case "openglcore" => sys.api == OpenGL
    case "opengl" => sys.api == OpenGL && !sys.coreContext
    case "openglcompat" => sys.api == OpenGL && !sys.coreContext
    case "openglcompatibility" => sys.api == OpenGL && !sys.coreContext
    case _ => false
  }

  lemma OperatorsAsk(token: string, op: Op, sysMajor: int, sysMinor: int, major: int, minor: int)
    requires Writes(token, op)
    ensures CompareVersion(sysMajor, sysMinor, major, minor, op) <==> Asks(token, sysMajor, sysMinor, major, minor)
  {
  }

  predicate IsDirect3D(api: Api) {
    api in {Direct3D8, Direct3D9, Direct3D10, Direct3D11, Direct3D12}
  }

  lemma NamesAgree(name: string, sys: System)
    requires !IsDirect3D(sys.api)
    ensures Names(name, sys) <==>
            NamesApi(sys.api, name) && !(sys.api == OpenGL && sys.coreContext && PlainOpenGL(name))
  {
  }

  /** A list of one requirement, with its name, its operator and its version. Whatever case its name is in, the
      answer is yes exactly on the driver of that name, if the driver's version is what the operator asks for. */
  lemma {:induction false} OneRequirement(sys: System, a: string, token: string, b: string, name: string, op: Op,
                                          major: string, minor: string)
    requires StripBlanks(a) == name && AllLetters(name) && Writes(token, op)
    requires StripBlanks(b) == major + "." + minor
    requires AllDigits(major) && AllDigits(minor) && 1 <= |major| <= 9 && 1 <= |minor| <= 9
    ensures Answer(sys, [a + (token + b)]) <==>
            Names(name, sys) && Asks(token, sys.major, sys.minor, Digits(major), Digits(minor))
  {
    var text := a + (token + b);
    assert text != "";
    AnswerToOne(sys, text);
    ParserInvertsPrinting(a, token, b, name, op, major, minor);
    OperatorsAsk(token, op, sys.major, sys.minor, Digits(major), Digits(minor));
    if IsDirect3D(sys.api) {
      Direct3DIsNeverMet(sys, text);
    } else {
      NamesAgree(name, sys);
    }
  }

  lemma AnswerToOne(sys: System, text: string)
    ensures Answer(sys, [text]) <==> Satisfies(sys, text) && !Refuses(sys, text)
  {
    assert [text][0] == text;
  }

  /** A version of many digits: the first fifteen of each part count. */
  lemma {:induction false} LongMajor(p: Parse, ds: string)
    requires AllDigits(ds) && !p.foundMinor && |p.major| <= 15
    ensures Version(p, ds).major == Take(p.major + ds, 15)
    decreases |ds|
  {
    if ds == "" {
      assert p.major + ds == p.major;
    } else {
      LongMajor(VersionChar(p, ds[0]), ds[1..]);
      if |p.major| < 15 {
        assert p.major + [ds[0]] + ds[1..] == p.major + ds;
      } else {
        assert Take(p.major + ds, 15) == p.major;
        assert Take(p.major + ds[1..], 15) == p.major;
      }
    }
  }

  lemma {:induction false} LongMinor(p: Parse, ds: string)
    requires AllDigits(ds) && p.foundMajor && p.foundMinor && |p.minor| <= 15
    ensures Version(p, ds).minor == Take(p.minor + ds, 15)
    decreases |ds|
  {
    if ds == "" {
      assert p.minor + ds == p.minor;
    } else {
      LongMinor(VersionChar(p, ds[0]), ds[1..]);
      if |p.minor| < 15 {
        assert p.minor + [ds[0]] + ds[1..] == p.minor + ds;
      } else {
        assert Take(p.minor + ds, 15) == p.minor;
        assert Take(p.minor + ds[1..], 15) == p.minor;
      }
    }
  }

  // ---------------------------------------------------------------- supported files

  /** Two characters are the same letter, or the same character. */
  predicate SameChar(a: char, b: char) {
    || a == b
    || ('A' <= a <= 'Z' && b as int == a as int + 32)
    || ('A' <= b <= 'Z' && a as int == b as int + 32)
  }

  predicate SameText(a: string, b: string) {
    |a| == |b| && forall k :: 0 <= k < |a| ==> SameChar(a[k], b[k])
  }

  lemma SameTextIsLower(a: string, b: string)
    ensures SameText(a, b) <==> Lower(a) == Lower(b)
  {
    if Lower(a) == Lower(b) {
      forall k | 0 <= k < |a|
        ensures SameChar(a[k], b[k])
      {
        assert Lower(a)[k] == Lower(b)[k];
      }
    }
  }

  /** A core lists an extension, with a dot in front of it or without, in any case. */
  ghost predicate Lists(core: Support.Core, ext: string) {
    core.extensions.Some? &&
    exists x :: x in core.extensions.value && (SameText(x, ext) || (x != "" && x[0] == '.' && SameText(x[1..], ext)))
  }

  lemma WithDot(x: string, ext: string)
    ensures SameText(x, "." + ext) <==> x != "" && x[0] == '.' && SameText(x[1..], ext)
  {
    var dotted := "." + ext;
    if SameText(x, dotted) {
      assert SameChar(x[0], dotted[0]);
      forall k | 0 <= k < |ext|
        ensures SameChar(x[1..][k], ext[k])
      {
        assert SameChar(x[k + 1], dotted[k + 1]);
      }
    }
  }

  lemma ListsIsFound(core: Support.Core, ext: string)
    requires core.extensions.Some?
    ensures Support.HasExtension(core.extensions.value, ext) <==> Lists(core, ext)
  {
    var list := core.extensions.value;
    forall x: string
      ensures Lower(x) == Lower(ext) || Lower(x) == Lower("." + ext) <==>
              SameText(x, ext) || (x != "" && x[0] == '.' && SameText(x[1..], ext))
    {
      SameTextIsLower(x, ext);
      SameTextIsLower(x, "." + ext);
      WithDot(x, ext);
    }
  }

  /** The files that are asked for: the path, if it is not empty, and the members of an archive. */
  predicate IsAskedFor(q: Support.Query, file: string) {
    (file != "" && q.path == Some(file)) || (q.members.Some? && file in q.members.value)
  }

  /** The core lists the extension of one of the files. */
  ghost predicate ListsOneOf(core: Support.Core, q: Support.Query) {
    exists file :: IsAskedFor(q, file) && Lists(core, q.extension(file))
  }

  /** A core supports what is asked for exactly when it lists the extension of one of the files. */
  lemma SupportsExactly(core: Support.Core, q: Support.Query)
    ensures Support.Supports(core, q) <==> ListsOneOf(core, q)
  {
    if core.extensions.Some? {
      forall file: string
        ensures Support.HasExtension(core.extensions.value, q.extension(file)) <==> Lists(core, q.extension(file))
      {
        ListsIsFound(core, q.extension(file));
      }
      if file :| IsAskedFor(q, file) && Lists(core, q.extension(file)) {
        assert q.members.Some? && file in q.members.value ==>
                 exists i :: 0 <= i < |q.members.value| && q.members.value[i] == file;
      } else if Support.SupportsFile(core, q) {
        assert IsAskedFor(q, q.path.value);
      } else if Support.SupportsAnyMember(core, q) {
        var i :| 0 <= i < |q.members.value| &&
                 Support.HasExtension(core.extensions.value, q.extension(q.members.value[i]));
        assert IsAskedFor(q, q.members.value[i]);
      }
    }
  }

  /** Where those cores are in a list. */
  ghost function Wanted(list: seq<Support.Core>, q: Support.Query): set<nat> {
    set i: nat | i < |list| && ListsOneOf(list[i], q)
  }

  lemma WantedStep(list: seq<Support.Core>, core: Support.Core, q: Support.Query)
    ensures |Wanted(list + [core], q)| == |Wanted(list, q)| + if Support.Supports(core, q) then 1 else 0
  {
    SupportsExactly(core, q);
    var before, after := Wanted(list, q), Wanted(list + [core], q);
    assert |list| !in before;
    if Support.Supports(core, q) {
      assert after == before + {|list|};
    } else {
      assert after == before;
    }
  }

  lemma OneMoreSupporting(list: seq<Support.Core>, core: Support.Core, q: Support.Query)
    ensures Support.Supporting(list + [core], q) ==
            Support.Supporting(list, q) + if Support.Supports(core, q) then 1 else 0
  {
    Support.SupportingAppend(list, [core], q);
    assert [core][1..] == [];
  }

  /** The reported count is the number of those cores. */
  lemma {:induction false} CountExactly(list: seq<Support.Core>, q: Support.Query)
    ensures Support.Supporting(list, q) == |Wanted(list, q)|
  {
    if list == [] {
      assert Wanted(list, q) == {};
    } else {
      var n := |list| - 1;
      CountExactly(list[..n], q);
      OneMoreSupporting(list[..n], list[n], q);
      WantedStep(list[..n], list[n], q);
      assert list == list[..n] + [list[n]];
    }
  }

  // ---------------------------------------------------------------- the order of names

  /** Capital letters are compared as small ones. */
  function Folded(c: char): int {
    if 'A' <= c <= 'Z' then c as int + 32 else c as int
  }

  /** a comes before b: they agree up to some point, in any case, and there a ends or has the smaller character. */
  ghost predicate Before(a: string, b: string) {
    exists k: nat :: k <= |a| && k <= |b| && SameText(a[..k], b[..k]) &&
                     ((k == |a| && k < |b|) || (k < |a| && k < |b| && Folded(a[k]) < Folded(b[k])))
  }

  /** The comparison of names orders them by their first difference, and takes names that differ in case alone for
      equal. */
  lemma {:induction false} NamesInOrder(a: string, b: string)
    requires Support.NoNul(a) && Support.NoNul(b)
    ensures Support.CompareNoCase(a, b) == 0 <==> SameText(a, b)
    ensures Support.CompareNoCase(a, b) < 0 <==> Before(a, b)
    decreases |a|
  {
    if a != "" && b != "" && LowerChar(a[0]) == LowerChar(b[0]) {
      NamesInOrder(a[1..], b[1..]);
      TailsDecide(a, b);
    } else {
      DifferAtOnce(a, b);
    }
  }

  lemma DifferAtOnce(a: string, b: string)
    requires Support.NoNul(a) && Support.NoNul(b)
    requires a == "" || b == "" || LowerChar(a[0]) != LowerChar(b[0])
    ensures Support.CompareNoCase(a, b) == 0 <==> SameText(a, b)
    ensures Support.CompareNoCase(a, b) < 0 <==> Before(a, b)
  {
    if Support.CompareNoCase(a, b) < 0 {
      assert SameText(a[..0], b[..0]);
    } else if Before(a, b) {
      var k: nat :| k <= |a| && k <= |b| && SameText(a[..k], b[..k]) &&
                    ((k == |a| && k < |b|) || (k < |a| && k < |b| && Folded(a[k]) < Folded(b[k])));
      assert false;
    }
  }

  lemma TailsDecide(a: string, b: string)
    requires a != "" && b != "" && LowerChar(a[0]) == LowerChar(b[0])
    ensures SameText(a, b) <==> SameText(a[1..], b[1..])
    ensures Before(a, b) <==> Before(a[1..], b[1..])
  {
    HeadAndTail(a, b);
    if Before(a, b) {
      var k: nat :| k <= |a| && k <= |b| && SameText(a[..k], b[..k]) &&
                    ((k == |a| && k < |b|) || (k < |a| && k < |b| && Folded(a[k]) < Folded(b[k])));
      HeadAndTail(a[..k], b[..k]);
      assert a[..k][1..] == a[1..][..k - 1] && b[..k][1..] == b[1..][..k - 1];
    }
    if Before(a[1..], b[1..]) {
      var x, y := a[1..], b[1..];
      var k: nat :| k <= |x| && k <= |y| && SameText(x[..k], y[..k]) &&
                    ((k == |x| && k < |y|) || (k < |x| && k < |y| && Folded(x[k]) < Folded(y[k])));
      assert a[..k + 1][1..] == x[..k] && b[..k + 1][1..] == y[..k];
      HeadAndTail(a[..k + 1], b[..k + 1]);
    }
  }

  lemma HeadAndTail(a: string, b: string)
    requires a != "" && b != "" && LowerChar(a[0]) == LowerChar(b[0])
    ensures SameText(a, b) <==> SameText(a[1..], b[1..])
  {
    if SameText(a, b) {
      forall k | 0 <= k < |a| - 1
        ensures SameChar(a[1..][k], b[1..][k])
      {
        assert SameChar(a[k + 1], b[k + 1]);
      }
    } else if SameText(a[1..], b[1..]) {
      forall k | 0 <= k < |a|
        ensures SameChar(a[k], b[k])
      {
        assert k > 0 ==> SameChar(a[1..][k - 1], b[1..][k - 1]);
      }
    }
  }
}
