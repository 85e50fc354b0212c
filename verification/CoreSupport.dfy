/** Which cores support a file: sorted to the front of the list in place, then counted. */
module CoreSupport {
  import opened CText

  datatype Core = Core(displayName: string, extensions: Option<seq<string>>)

  /** What is asked for: a path, the members of the archive it may be, and how extensions are found. */
  datatype Query = Query(path: Option<string>, members: Option<seq<string>>, extension: string -> string)

  /** `string_list_find_elem_prefix` with the prefix ".": with or without a dot, in any case. */
  predicate HasExtension(list: seq<string>, ext: string) {
    exists i :: 0 <= i < |list| && (Lower(list[i]) == Lower(ext) || Lower(list[i]) == Lower("." + ext))
  }

  /** `core_info_does_support_file` */
  predicate SupportsFile(core: Core, q: Query) {
    core.extensions.Some? && !Empty(q.path) && HasExtension(core.extensions.value, q.extension(q.path.value))
  }

  /** `core_info_does_support_any_file` */
  predicate SupportsAnyMember(core: Core, q: Query) {
    core.extensions.Some? && q.members.Some? &&
    exists i :: 0 <= i < |q.members.value| && HasExtension(core.extensions.value, q.extension(q.members.value[i]))
  }

  predicate Supports(core: Core, q: Query) {
    SupportsAnyMember(core, q) || SupportsFile(core, q)
  }

  // ---------------------------------------------------------------- the order

  /** `strcasecmp`, with 0 for the end of a string. */
  function CompareNoCase(a: string, b: string): int
    decreases |a|
  {
    if a == "" || b == "" then
      (if a == "" then 0 else LowerChar(a[0]) as int) - (if b == "" then 0 else LowerChar(b[0]) as int)
    else if LowerChar(a[0]) != LowerChar(b[0]) then LowerChar(a[0]) as int - LowerChar(b[0]) as int
    else CompareNoCase(a[1..], b[1..])
  }

  /** C strings hold no NUL. */
  predicate NoNul(s: string) {
    forall i :: 0 <= i < |s| ==> s[i] as int > 0
  }

  /** `core_info_qsort_cmp` */
  function Compare(a: Core, b: Core, q: Query): int {
    var supportA := if Supports(a, q) then 1 else 0;
    var supportB := if Supports(b, q) then 1 else 0;
    if supportA != supportB then supportB - supportA else CompareNoCase(a.displayName, b.displayName)
  }

  lemma {:induction false} NoCaseAntisymmetric(a: string, b: string)
    ensures CompareNoCase(a, b) == -CompareNoCase(b, a)
    decreases |a|
  {
    if a != "" && b != "" && LowerChar(a[0]) == LowerChar(b[0]) {
      NoCaseAntisymmetric(a[1..], b[1..]);
    }
  }

  lemma {:induction false} NoCaseTransitive(a: string, b: string, c: string)
    requires NoNul(a) && NoNul(b) && NoNul(c)
    requires CompareNoCase(a, b) <= 0 && CompareNoCase(b, c) <= 0
    ensures CompareNoCase(a, c) <= 0
    decreases |a|
  {
    if a != "" && b != "" && c != "" && LowerChar(a[0]) == LowerChar(b[0]) == LowerChar(c[0]) {
      NoCaseTransitive(a[1..], b[1..], c[1..]);
    }
  }

  /** The comparison of cores is a total preorder, so sorting by it is meaningful. */
  lemma CompareIsPreorder(a: Core, b: Core, c: Core, q: Query)
    requires NoNul(a.displayName) && NoNul(b.displayName) && NoNul(c.displayName)
    ensures Compare(a, b, q) <= 0 || Compare(b, a, q) <= 0
    ensures Compare(a, b, q) <= 0 && Compare(b, c, q) <= 0 ==> Compare(a, c, q) <= 0
  {
    NoCaseAntisymmetric(a.displayName, b.displayName);
    if CompareNoCase(a.displayName, b.displayName) <= 0 && CompareNoCase(b.displayName, c.displayName) <= 0 {
      NoCaseTransitive(a.displayName, b.displayName, c.displayName);
    }
  }

  ghost predicate Sorted(list: seq<Core>, q: Query) {
    forall i, j :: 0 <= i < j < |list| ==> Compare(list[i], list[j], q) <= 0
  }

  ghost predicate NamesAreText(list: seq<Core>) {
    forall i :: 0 <= i < |list| ==> NoNul(list[i].displayName)
  }

  // ---------------------------------------------------------------- counting

  function Supporting(list: seq<Core>, q: Query): nat {
    if list == [] then 0 else (if Supports(list[0], q) then 1 else 0) + Supporting(list[1..], q)
  }

  lemma {:induction false} SupportingAppend(a: seq<Core>, b: seq<Core>, q: Query)
    ensures Supporting(a + b, q) == Supporting(a, q) + Supporting(b, q)
  {
    if a == [] {
      assert a + b == b;
    } else {
      assert (a + b)[1..] == a[1..] + b;
      SupportingAppend(a[1..], b, q);
    }
  }

  lemma RemoveOne(b: seq<Core>, i: nat)
    requires i < |b|
    ensures multiset(b[..i] + b[i + 1..]) == multiset(b) - multiset{b[i]}
  {
    var front, back := b[..i], b[i + 1..];
    assert b == front + ([b[i]] + back);
    assert multiset(b) == multiset(front) + (multiset([b[i]]) + multiset(back));
  }

  lemma SupportingWithout(b: seq<Core>, i: nat, q: Query)
    requires i < |b|
    ensures Supporting(b, q) ==
            (if Supports(b[i], q) then 1 else 0) + Supporting(b[..i] + b[i + 1..], q)
  {
    assert b == b[..i] + b[i..];
    SupportingAppend(b[..i], b[i..], q);
    assert b[i..][1..] == b[i + 1..];
    SupportingAppend(b[..i], b[i + 1..], q);
  }

  lemma FirstIsFound(a: seq<Core>, b: seq<Core>) returns (i: nat)
    requires a != [] && multiset(a) == multiset(b)
    ensures i < |b| && b[i] == a[0]
  {
    assert a[0] in multiset(a);
    assert a[0] in b;
    i :| 0 <= i < |b| && b[i] == a[0];
  }

  lemma TailsMatch(a: seq<Core>, b: seq<Core>, i: nat)
    requires multiset(a) == multiset(b) && a != [] && i < |b| && b[i] == a[0]
    ensures multiset(a[1..]) == multiset(b[..i] + b[i + 1..])
  {
    RemoveOne(b, i);
    assert a == [a[0]] + a[1..];
  }

  /** A rearrangement supports as often. */
  lemma {:induction false} SupportingPermutation(a: seq<Core>, b: seq<Core>, q: Query)
    requires multiset(a) == multiset(b)
    ensures Supporting(a, q) == Supporting(b, q)
  {
    if a == [] {
      assert |multiset(b)| == 0;
    } else {
      var i := FirstIsFound(a, b);
      TailsMatch(a, b, i);
      SupportingPermutation(a[1..], b[..i] + b[i + 1..], q);
      SupportingWithout(b, i, q);
    }
  }

  lemma {:induction false} SupportingAll(list: seq<Core>, q: Query, supported: bool)
    requires forall i :: 0 <= i < |list| ==> Supports(list[i], q) == supported
    ensures Supporting(list, q) == if supported then |list| else 0
  {
    if list != [] {
      SupportingAll(list[1..], q, supported);
    }
  }

  lemma OthersFollow(list: seq<Core>, q: Query, n: nat, i: nat)
    requires Sorted(list, q) && n <= i < |list| && !Supports(list[n], q)
    ensures !Supports(list[i], q)
  {
    if i > n {
      assert Compare(list[n], list[i], q) <= 0;
    }
  }

  lemma GroupIsByName(list: seq<Core>, q: Query, i: nat, j: nat)
    requires Sorted(list, q) && i < j < |list| && Supports(list[i], q) == Supports(list[j], q)
    ensures CompareNoCase(list[i].displayName, list[j].displayName) <= 0
  {
    assert Compare(list[i], list[j], q) <= 0;
  }

  lemma SupportingPrefix(list: seq<Core>, q: Query, n: nat)
    requires n <= |list|
    requires forall i :: 0 <= i < |list| ==> (Supports(list[i], q) <==> i < n)
    ensures n == Supporting(list, q)
  {
    assert list == list[..n] + list[n..];
    SupportingAppend(list[..n], list[n..], q);
    SupportingAll(list[..n], q, true);
    SupportingAll(list[n..], q, false);
  }

  /** In a sorted list the supporting cores come first, and each group is in the order of its names. */
  lemma SortedGroups(list: seq<Core>, q: Query, n: nat)
    requires Sorted(list, q) && n <= |list|
    requires forall i :: 0 <= i < n ==> Supports(list[i], q)
    requires n < |list| ==> !Supports(list[n], q)
    ensures forall i :: n <= i < |list| ==> !Supports(list[i], q)
    ensures n == Supporting(list, q)
    ensures forall i, j :: 0 <= i < j < |list| && (j < n || n <= i) ==>
              CompareNoCase(list[i].displayName, list[j].displayName) <= 0
  {
    forall i | n <= i < |list|
      ensures !Supports(list[i], q)
    {
      OthersFollow(list, q, n, i);
    }
    SupportingPrefix(list, q, n);
    forall i, j | 0 <= i < j < |list| && (j < n || n <= i)
      ensures CompareNoCase(list[i].displayName, list[j].displayName) <= 0
    {
      GroupIsByName(list, q, i, j);
    }
  }

  // ---------------------------------------------------------------- in place

  /** Stands for the C library's `qsort` with the comparison of cores. */
  method SortCores(list: array<Core>, q: Query)
    requires NamesAreText(list[..])
    modifies list
    ensures Sorted(list[..], q)
    ensures multiset(list[..]) == old(multiset(list[..]))
  {
    var n := 0;
    while n < list.Length
      invariant n <= list.Length
      invariant Sorted(list[..n], q) && NamesAreText(list[..])
      invariant multiset(list[..]) == old(multiset(list[..]))
    {
      Insert(list, n, q);
      n := n + 1;
    }
    assert list[..n] == list[..];
  }

  function Swapped(list: seq<Core>, j: nat): (r: seq<Core>)
    requires 0 < j < |list|
    ensures |r| == |list|
  {
    list[j - 1 := list[j]][j := list[j - 1]]
  }

  /** The cores up to n are in order, except that the one at j may belong further down. */
  ghost predicate SortedBut(list: seq<Core>, n: nat, j: nat, q: Query)
    requires j <= n < |list|
  {
    forall a, b :: 0 <= a < b <= n && b != j ==> Compare(list[a], list[b], q) <= 0
  }

  lemma SwapKeepsOrder(list: seq<Core>, n: nat, j: nat, q: Query)
    requires 0 < j <= n < |list| && SortedBut(list, n, j, q)
    requires NamesAreText(list) && Compare(list[j - 1], list[j], q) > 0
    ensures SortedBut(Swapped(list, j), n, j - 1, q)
  {
    CompareIsPreorder(list[j - 1], list[j], list[j], q);
  }

  lemma PlaceFound(list: seq<Core>, n: nat, j: nat, q: Query)
    requires j <= n < |list| && SortedBut(list, n, j, q) && NamesAreText(list)
    requires j > 0 ==> Compare(list[j - 1], list[j], q) <= 0
    ensures Sorted(list[..n + 1], q)
  {
    forall a | 0 <= a < j
      ensures Compare(list[a], list[j], q) <= 0
    {
      if a < j - 1 {
        CompareIsPreorder(list[a], list[j - 1], list[j], q);
      }
    }
  }

  method SwapDown(list: array<Core>, j: nat)
    requires 0 < j < list.Length
    modifies list
    ensures list[..] == old(Swapped(list[..], j))
    ensures multiset(list[..]) == old(multiset(list[..]))
  {
    list[j - 1], list[j] := list[j], list[j - 1];
  }

  /** Moves core n down, by swaps, to its place among the sorted ones before it. */
  method Insert(list: array<Core>, n: nat, q: Query)
    requires n < list.Length && Sorted(list[..n], q) && NamesAreText(list[..])
    modifies list
    ensures Sorted(list[..n + 1], q) && NamesAreText(list[..])
    ensures multiset(list[..]) == old(multiset(list[..]))
  {
    ghost var was := list[..];
    var j := n;
    BeforeTheLast(was, n, q);
    while j > 0 && Compare(list[j - 1], list[j], q) > 0
      invariant 0 <= j <= n
      invariant SortedBut(list[..], n, j, q) && NamesAreText(list[..])
      invariant multiset(list[..]) == multiset(was)
    {
      SwapKeepsOrder(list[..], n, j, q);
      SwapDown(list, j);
      SameNames(was, list[..]);
      j := j - 1;
    }
    PlaceFound(list[..], n, j, q);
  }

  lemma BeforeTheLast(list: seq<Core>, n: nat, q: Query)
    requires n < |list| && Sorted(list[..n], q)
    ensures SortedBut(list, n, n, q)
  {
    forall a, b | 0 <= a < b <= n && b != n
      ensures Compare(list[a], list[b], q) <= 0
    {
      assert list[..n][a] == list[a] && list[..n][b] == list[b];
    }
  }

  lemma SameNames(a: seq<Core>, b: seq<Core>)
    requires NamesAreText(a) && multiset(a) == multiset(b)
    ensures NamesAreText(b)
  {
    forall i | 0 <= i < |b|
      ensures NoNul(b[i].displayName)
    {
      assert b[i] in multiset(b);
      assert b[i] in a;
    }
  }

  /** `core_info_list_get_supported_cores`: the reported count is the number of supporting cores, which
      are the first ones of the rearranged list. */
  method GetSupportedCores(list: array<Core>, q: Query) returns (count: nat)
    requires NamesAreText(list[..])
    modifies list
    ensures multiset(list[..]) == old(multiset(list[..]))
    ensures count == old(Supporting(list[..], q)) && count <= list.Length
    ensures forall i :: 0 <= i < list.Length ==> (Supports(list[i], q) <==> i < count)
    ensures forall i, j :: 0 <= i < j < list.Length && (j < count || count <= i) ==>
              CompareNoCase(list[i].displayName, list[j].displayName) <= 0
  {
    ghost var was := list[..];
    SortCores(list, q);
    count := 0;
    while count < list.Length
      invariant count <= list.Length
      invariant forall i :: 0 <= i < count ==> Supports(list[i], q)
    {
      if SupportsFile(list[count], q) {
        count := count + 1;
        continue;
      }
      if SupportsAnyMember(list[count], q) {
        count := count + 1;
        continue;
      }
      break;
    }
    SortedGroups(list[..], q, count);
    SupportingPermutation(was, list[..], q);
  }
}
