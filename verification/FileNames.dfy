/** The file name of a saved controller profile: every character that a file name cannot hold becomes
    an underscore, one at a time. */
module FileNames {
  import opened CText

  const INVALID: seq<char> :=
    ['~', '#', '%', '&', '*', '{', '}', '\\', ':', '[', ']', '?', '/', '|', '\'', '"']

  function Cleaned(c: char): char {
    if c in INVALID then '_' else c
  }

  /** Sixteen characters are replaced, and no others. */
  lemma CleanedExactly(c: char)
    ensures Cleaned(c) == if c in {'~', '#', '%', '&', '*', '{', '}', '\\', ':', '[', ']', '?', '/', '|', '\'', '"'}
                          then '_' else c
  {
    assert INVALID[0] == '~' && INVALID[1] == '#' && INVALID[2] == '%' && INVALID[3] == '&' && INVALID[4] == '*';
    assert INVALID[5] == '{' && INVALID[6] == '}' && INVALID[7] == '\\' && INVALID[8] == ':' && INVALID[9] == '[';
    assert INVALID[10] == ']' && INVALID[11] == '?' && INVALID[12] == '/' && INVALID[13] == '|';
    assert INVALID[14] == '\'' && INVALID[15] == '"' && |INVALID| == 16;
  }

  function Replaced(s: string, c: char): (r: string)
    ensures |r| == |s|
  {
    seq(|s|, i requires 0 <= i < |s| => if s[i] == c then '_' else s[i])
  }

  function Occurrences(s: string, c: char): nat {
    multiset(s)[c]
  }

  lemma {:induction false} FoundAtFirstIndex(s: string, c: char)
    ensures var r := FirstIndex(s, c); if r.None? then c !in s else s[r.value] == c
  {
    if s != "" {
      FoundAtFirstIndex(s[1..], c);
      assert c in s <==> s[0] == c || c in s[1..];
    }
  }

  lemma ReplacingOne(s: string, i: nat, c: char)
    requires i < |s| && s[i] == c && c != '_'
    ensures Occurrences(s[i := '_'], c) == Occurrences(s, c) - 1
    ensures Replaced(s[i := '_'], c) == Replaced(s, c)
  {
    assert s == s[..i] + [s[i]] + s[i + 1..];
    assert s[i := '_'] == s[..i] + ['_'] + s[i + 1..];
  }

  /** The inner loop: as long as `strstr` finds the character, it is overwritten. */
  method ReplaceAll(name: array<char>, c: char)
    requires c != '_'
    modifies name
    ensures name[..] == Replaced(old(name[..]), c)
  {
    while true
      invariant Replaced(name[..], c) == Replaced(old(name[..]), c)
      decreases Occurrences(name[..], c)
    {
      var found := FirstIndex(name[..], c);
      FoundAtFirstIndex(name[..], c);
      if found.None? {
        assert name[..] == Replaced(name[..], c);
        return;
      }
      ReplacingOne(name[..], found.value, c);
      ghost var was := name[..];
      name[found.value] := '_';
      assert name[..] == was[found.value := '_'];
    }
  }

  /** The loop nest of `config_save_autoconf_profile`: it terminates, as the underscore is not itself
      replaced, keeps the length, and maps every character on its own. */
  method CleanName(name: array<char>)
    modifies name
    ensures forall i :: 0 <= i < name.Length ==> name[i] == Cleaned(old(name[i]))
  {
    ghost var was := name[..];
    var i := 0;
    while i < |INVALID|
      invariant i <= |INVALID|
      invariant forall k :: 0 <= k < name.Length ==>
                  name[..][k] == if was[k] in INVALID[..i] then '_' else was[k]
    {
      ghost var before := name[..];
      ReplaceAll(name, INVALID[i]);
      assert INVALID[..i + 1] == INVALID[..i] + [INVALID[i]];
      i := i + 1;
    }
    assert INVALID[..i] == INVALID;
    forall k | 0 <= k < name.Length
      ensures name[k] == Cleaned(was[k])
    {
      assert name[k] == name[..][k];
    }
  }
}
