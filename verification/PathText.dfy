/** Path settings as text: the application and the home directory are abbreviated when a path is written and
    expanded when it is read. */
module PathText {
  import opened CText

  /** Empty on consoles, where nothing is abbreviated. */
  datatype Dirs = Dirs(application: string, home: string)

  predicate SlashFirst(s: string) {
    s != "" && s[0] == '/'
  }

  predicate SlashLast(s: string) {
    s != "" && s[|s| - 1] == '/'
  }

  /** The part of a path behind a directory it starts with. */
  function Rest(dir: string, p: string): string
    requires dir <= p
  {
    p[|dir|..]
  }

  function Slash(present: bool): string {
    if present then "" else "/"
  }

  function Fold(sign: char, dir: string, p: string): string
    requires dir <= p
  {
    [sign] + Slash(SlashFirst(Rest(dir, p))) + Rest(dir, p)
  }

  predicate Under(dir: string, p: string) {
    dir != "" && dir <= p
  }

  /** What `fill_pathname_abbreviate_special` makes of a path. */
  function Abbreviate(d: Dirs, p: string): string {
    if Under(d.application, p) then Fold(':', d.application, p)
    else if Under(d.home, p) then Fold('~', d.home, p)
    else p
  }

  function Drop(s: string, n: nat): string {
    if |s| <= n then "" else s[n..]
  }

  /** The two characters in front are skipped, whatever the second one is. */
  function Unfold(dir: string, q: string): string {
    dir + Slash(SlashLast(dir)) + Drop(q, 2)
  }

  /** What `fill_pathname_expand_special` makes of a text. */
  function Expand(d: Dirs, q: string): string {
    if q != "" && q[0] == '~' then if d.home != "" then Unfold(d.home, q) else q
    else if q != "" && q[0] == ':' then if d.application != "" then Unfold(d.application, q) else q
    else q
  }

  /** The loop over the two directories, which stops at the first that the path starts with. */
  method FillAbbreviated(d: Dirs, p: string) returns (out: string)
    ensures out == Abbreviate(d, p)
  {
    var candidates, notations := [d.application, d.home], [':', '~'];
    out := p;
    var i := 0;
    while i < 2
      invariant 0 <= i <= 2 && out == p
      invariant forall k :: 0 <= k < i ==> !Under(candidates[k], p)
    {
      if candidates[i] != "" && candidates[i] <= p {
        out := [notations[i]];
        var rest := p[|candidates[i]|..];
        if rest == "" || rest[0] != '/' {
          out := out + "/";
        }
        out := out + rest;
        assert out == Fold(notations[i], candidates[i], p);
        assert i == 1 ==> !Under(candidates[0], p);
        return;
      }
      i := i + 1;
    }
    assert !Under(candidates[0], p) && !Under(candidates[1], p);
  }

  method FillExpanded(d: Dirs, q: string) returns (out: string)
    ensures out == Expand(d, q)
  {
    out := q;
    if q != "" && (q[0] == '~' || q[0] == ':') {
      var dir := if q[0] == '~' then d.home else d.application;
      if dir != "" {
        out := dir;
        if out[|out| - 1] != '/' {
          out := out + "/";
        }
        out := out + Drop(q, 2);
      }
    }
  }

  // ---------------------------------------------------------------- there and back

  /** One slash, no more and no less, stands between the directory and the rest. */
  predicate OneSlash(dir: string, p: string) {
    dir <= p && (SlashLast(dir) <==> !SlashFirst(Rest(dir, p)))
  }

  /** The paths that abbreviating and expanding leave alone. */
  predicate Survives(d: Dirs, p: string) {
    if Under(d.application, p) then OneSlash(d.application, p)
    else if Under(d.home, p) then OneSlash(d.home, p)
    else p == "" || ((p[0] == '~' ==> d.home == "") && (p[0] == ':' ==> d.application == ""))
  }

  lemma FoldUnfold(sign: char, dir: string, p: string)
    requires Under(dir, p)
    ensures Unfold(dir, Fold(sign, dir, p)) == p <==> OneSlash(dir, p)
  {
    var rest, q := Rest(dir, p), Fold(sign, dir, p);
    assert p == dir + rest;
    if SlashFirst(rest) {
      assert Drop(q, 2) == rest[1..] && rest == "/" + rest[1..];
      assert !SlashLast(dir) ==> Unfold(dir, q) == p;
    } else {
      assert Drop(q, 2) == rest;
      assert SlashLast(dir) ==> Unfold(dir, q) == p;
    }
  }

  /** A path comes back from its text exactly when one slash follows the directory that was abbreviated, or none
      was and the path does not start with the sign of one. So a neighbour "/home/user2/x" of the home directory
      "/home/user" does not come back. */
  lemma PathRoundTrip(d: Dirs, p: string)
    ensures Expand(d, Abbreviate(d, p)) == p <==> Survives(d, p)
  {
    if Under(d.application, p) {
      FoldUnfold(':', d.application, p);
    } else if Under(d.home, p) {
      FoldUnfold('~', d.home, p);
    } else if !Survives(d, p) {
      assert !(d.home <= p && p[0] == '~') && !(d.application <= p && p[0] == ':');
    }
  }

  lemma UnfoldStartsWith(dir: string, q: string)
    ensures dir <= Unfold(dir, q)
  {
  }

  /** A text that was cut short behind the sign and the slash does not expand to the whole path. */
  lemma CutFoldIsLost(sign: char, dir: string, p: string, n: nat)
    requires Under(dir, p) && 2 <= n < |Fold(sign, dir, p)|
    ensures Unfold(dir, Fold(sign, dir, p)[..n]) != p
  {
    var rest, q := Rest(dir, p), Fold(sign, dir, p);
    assert p == dir + rest;
    var u := Unfold(dir, q[..n]);
    if SlashFirst(rest) {
      assert |Drop(q[..n], 2)| < |rest| - 1;
    } else if !SlashLast(dir) {
      assert u[|dir|] == '/';
      assert rest != "" && p[|dir|] == rest[0];
    }
  }

  /** Nor does any other text that was cut at a quote. */
  lemma CutPathIsLost(d: Dirs, p: string, n: nat)
    requires 0 < n < |Abbreviate(d, p)| && Abbreviate(d, p)[n] == '"'
    ensures Expand(d, Abbreviate(d, p)[..n]) != p
  {
    var q := Abbreviate(d, p);
    if Under(d.application, p) {
      CutFoldIsLost(':', d.application, p, n);
    } else if Under(d.home, p) {
      CutFoldIsLost('~', d.home, p, n);
    } else {
      UnfoldStartsWith(d.home, q[..n]);
      UnfoldStartsWith(d.application, q[..n]);
    }
  }

  /** No text disappears on the way. */
  lemma NeverEmpty(d: Dirs, p: string)
    ensures p != "" <==> Abbreviate(d, p) != ""
    ensures p != "" ==> Expand(d, p) != ""
  {
  }
}
