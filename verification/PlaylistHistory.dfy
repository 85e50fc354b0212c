/** Runs of playlist operations: what a push compares is a key, the list never holds two entries
    that match, and with exact matching the list is the most-recently-used list of its history. */
module PlaylistHistory {
  import opened CText
  import opened PlaylistModel
  import opened PlaylistSlots

  // ---------------------------------------------------------------- keys

  datatype Key = Key(path: string, core: string, ident: string, name: string, roms: seq<string>)

  function RomKeys(env: Paths, roms: Option<seq<string>>): seq<string> {
    match roms
    case None => []
    case Some(l) => seq(|l|, j requires 0 <= j < |l| => RealRom(env, l[j]))
  }

  function KeyOf(env: Paths, e: Entry): Key {
    Key(if Empty(e.path) then "" else env.resolve(e.path.value),
        if Empty(e.corePath) then "" else env.RealCore(e.corePath.value),
        Str(e.subsystemIdent), Str(e.subsystemName), RomKeys(env, e.subsystemRoms))
  }

  function Keys(env: Paths, list: seq<Entry>): (ks: seq<Key>)
    ensures |ks| == |list|
  {
    seq(|list|, i requires 0 <= i < |list| => KeyOf(env, list[i]))
  }

  predicate PathMatch(env: Paths, a: string, b: string) {
    a == b || (env.fuzzy && a != "" && b != "" && env.ArchiveEqual(a, b))
  }

  predicate KeyMatch(env: Paths, a: Key, b: Key) {
    && PathMatch(env, a.path, b.path)
    && a.core == b.core && a.ident == b.ident && a.name == b.name
    && |a.roms| == |b.roms|
    && forall j :: 0 <= j < |a.roms| ==> PathMatch(env, a.roms[j], b.roms[j])
  }

  /** A ROM list goes with a subsystem identifier, and names existing paths. */
  ghost predicate GoodRoms(env: Paths, e: Entry) {
    && (e.subsystemRoms.Some? <==> !Empty(e.subsystemIdent))
    && (e.subsystemRoms.Some? ==> forall rom :: rom in e.subsystemRoms.value ==> RealRom(env, rom) != "")
  }

  /** A stored entry as a push leaves it: paths that are present resolve to something. */
  ghost predicate WellFormed(env: Paths, e: Entry) {
    && GoodRoms(env, e)
    && (!Empty(e.path) ==> env.resolve(e.path.value) != "")
    && !Empty(e.corePath) && env.RealCore(e.corePath.value) != ""
  }

  ghost predicate AllWellFormed(env: Paths, list: seq<Entry>) {
    forall i :: 0 <= i < |list| ==> WellFormed(env, list[i])
  }

  lemma ContentIsKey(env: Paths, e: Entry, r: Resolved, stored: Entry)
    requires ResolveRuntime(env, e).Some? && r.path == KeyOf(env, e).path && r.corePath == KeyOf(env, e).core
    requires WellFormed(env, stored)
    ensures SameContent(env, r, stored) <==>
            PathMatch(env, KeyOf(env, e).path, KeyOf(env, stored).path) &&
            KeyOf(env, e).core == KeyOf(env, stored).core
  {
  }

  /** The many-clause test of `playlist_push` depends on the two keys alone. */
  lemma MatchIsKeyMatch(env: Paths, e: Entry, r: Resolved, stored: Entry)
    requires ResolveRuntime(env, e).Some? && r.path == KeyOf(env, e).path && r.corePath == KeyOf(env, e).core
    requires GoodRoms(env, e) && WellFormed(env, stored)
    ensures RomsReadable(env, e, r, stored)
    ensures Matches(env, e, r, stored) <==> KeyMatch(env, KeyOf(env, e), KeyOf(env, stored))
  {
    ContentIsKey(env, e, r, stored);
    var a, b := KeyOf(env, e), KeyOf(env, stored);
    if a.ident == b.ident && e.subsystemRoms.Some? {
      var p, s := e.subsystemRoms.value, stored.subsystemRoms.value;
      if |p| == |s| {
        forall j | 0 <= j < |p|
          ensures env.PathEqual(RealRom(env, p[j]), Some(s[j])) <==> PathMatch(env, a.roms[j], b.roms[j])
        {
          assert p[j] in p && s[j] in s;
        }
      }
    }
  }

  lemma ArchiveEqualSymmetric(env: Paths, a: string, b: string)
    ensures env.ArchiveEqual(a, b) == env.ArchiveEqual(b, a)
  {
  }

  /** Matching is reflexive and symmetric, with fuzzy archive matching on or off. */
  lemma KeyMatchSymmetric(env: Paths, a: Key, b: Key)
    ensures KeyMatch(env, a, a)
    ensures KeyMatch(env, a, b) == KeyMatch(env, b, a)
  {
    ArchiveEqualSymmetric(env, a.path, b.path);
    if |a.roms| == |b.roms| {
      forall j | 0 <= j < |a.roms|
        ensures PathMatch(env, a.roms[j], b.roms[j]) == PathMatch(env, b.roms[j], a.roms[j])
      {
        ArchiveEqualSymmetric(env, a.roms[j], b.roms[j]);
      }
    }
  }

  /** With fuzzy matching off, matching is equality of keys. */
  lemma ExactMatchIsEquality(env: Paths, a: Key, b: Key)
    requires !env.fuzzy
    ensures KeyMatch(env, a, b) <==> a == b
  {
    if KeyMatch(env, a, b) {
      assert a.roms == b.roms;
    }
  }

  /** With fuzzy matching on it is not transitive: two files of one archive both match the archive. */
  lemma FuzzyMatchIsNotTransitive()
    ensures exists env: Paths, a: Key, b: Key, c: Key ::
              env.Lawful() && KeyMatch(env, a, b) && KeyMatch(env, b, c) && !KeyMatch(env, a, c)
  {
    var env := Paths(p => p, p => p == "/g.zip", p => if p == "/g.zip" then None else Some(6), p => p, true);
    var a := Key("/g.zip#1", "c", "", "", []);
    var b := Key("/g.zip", "c", "", "", []);
    var c := Key("/g.zip#2", "c", "", "", []);
    assert a.path[7] == '1' && c.path[7] == '2';
    assert |a.path| == |c.path| == 8 && |b.path| == 6;
    assert Take(a.path, 6) == b.path && Take(c.path, 6) == b.path;
    assert KeyMatch(env, a, b) && KeyMatch(env, b, c) && !KeyMatch(env, a, c);
  }

  // ---------------------------------------------------------------- one push, on keys

  ghost function FirstKey(env: Paths, ks: seq<Key>, k: Key): (i: nat)
    ensures i <= |ks|
    ensures i < |ks| ==> KeyMatch(env, k, ks[i])
    ensures forall j :: 0 <= j < i ==> !KeyMatch(env, k, ks[j])
  {
    if ks == [] || KeyMatch(env, k, ks[0]) then 0 else 1 + FirstKey(env, ks[1..], k)
  }

  function ToFront<T>(s: seq<T>, i: nat): seq<T>
    requires i < |s|
  {
    [s[i]] + s[..i] + s[i + 1..]
  }

  ghost function KeyPush(env: Paths, cap: nat, ks: seq<Key>, k: Key): seq<Key>
    requires 1 <= cap
  {
    var i := FirstKey(env, ks, k);
    if i < |ks| then ToFront(ks, i) else [k] + Take(ks, cap - 1)
  }

  lemma RealCoreIdempotent(env: Paths, p: string)
    requires env.Lawful()
    ensures env.RealCore(env.RealCore(p)) == env.RealCore(p)
  {
  }

  /** A fresh entry carries the key it was pushed with, although its paths are now resolved ones. */
  lemma NewEntryKey(env: Paths, e: Entry, r: Resolved)
    requires env.Lawful() && Resolve(env, e) == Some(r) && GoodRoms(env, e)
    ensures KeyOf(env, NewEntry(e, r)) == KeyOf(env, e)
    ensures WellFormed(env, NewEntry(e, r))
  {
    RealCoreIdempotent(env, e.corePath.value);
  }

  lemma {:induction false} AllAreReadable(env: Paths, list: seq<Entry>, e: Entry, r: Resolved)
    requires AllWellFormed(env, list) && GoodRoms(env, e)
    ensures Readable(env, e, r, list)
  {
    if list != [] {
      assert WellFormed(env, list[0]);
      AllAreReadable(env, list[1..], e, r);
    }
  }

  lemma BumpAt(list: seq<Entry>, i: nat, top: Entry, j: nat)
    requires i < |list| && j < |list|
    ensures Bump(list, i, top)[j] == if j == 0 then top else if j <= i then list[j - 1] else list[j]
  {
  }

  lemma ToFrontAt<T>(s: seq<T>, i: nat, j: nat)
    requires i < |s| && j < |s|
    ensures ToFront(s, i)[j] == if j == 0 then s[i] else if j <= i then s[j - 1] else s[j]
  {
  }

  lemma HitOnKeys(env: Paths, list: seq<Entry>, i: nat, top: Entry)
    requires AllWellFormed(env, list) && i < |list|
    requires KeyOf(env, top) == KeyOf(env, list[i]) && WellFormed(env, top)
    ensures AllWellFormed(env, Bump(list, i, top))
    ensures Keys(env, Bump(list, i, top)) == ToFront(Keys(env, list), i)
  {
    forall j | 0 <= j < |list|
      ensures WellFormed(env, Bump(list, i, top)[j])
      ensures KeyOf(env, Bump(list, i, top)[j]) == ToFront(Keys(env, list), i)[j]
    {
      BumpAt(list, i, top, j);
      ToFrontAt(Keys(env, list), i, j);
    }
  }

  lemma MissOnKeys(env: Paths, cap: nat, list: seq<Entry>, top: Entry)
    requires 1 <= cap && AllWellFormed(env, list) && WellFormed(env, top)
    ensures AllWellFormed(env, [top] + Take(list, cap - 1))
    ensures Keys(env, [top] + Take(list, cap - 1)) == [KeyOf(env, top)] + Take(Keys(env, list), cap - 1)
  {
    var kept := Take(list, cap - 1);
    assert forall j :: 0 <= j < |kept| ==> kept[j] == list[j];
    var after, ks := [top] + kept, [KeyOf(env, top)] + Take(Keys(env, list), cap - 1);
    forall j | 0 <= j < |after|
      ensures WellFormed(env, after[j]) && KeyOf(env, after[j]) == ks[j]
    {
    }
  }

  /** Filling blanks touches nothing that matching looks at. */
  lemma FillKeepsKey(env: Paths, stored: Entry, e: Entry)
    requires WellFormed(env, stored)
    ensures KeyOf(env, Fill(stored, e)) == KeyOf(env, stored) && WellFormed(env, Fill(stored, e))
  {
  }

  lemma {:induction false} SameFirstMatch(env: Paths, list: seq<Entry>, e: Entry, r: Resolved)
    requires AllWellFormed(env, list) && GoodRoms(env, e) && Resolve(env, e) == Some(r)
    ensures Readable(env, e, r, list)
    ensures FirstMatch(env, e, r, list) == FirstKey(env, Keys(env, list), KeyOf(env, e))
  {
    AllAreReadable(env, list, e, r);
    forall j | 0 <= j < |list|
      ensures Matches(env, e, r, list[j]) <==> KeyMatch(env, KeyOf(env, e), Keys(env, list)[j])
    {
      MatchIsKeyMatch(env, e, r, list[j]);
    }
  }

  /** `playlist_push` on entries is `KeyPush` on keys; a rejected push changes nothing. */
  lemma PushRefinesKeyPush(env: Paths, cap: nat, list: seq<Entry>, e: Entry)
    requires env.Lawful() && 1 <= cap && |list| <= cap
    requires AllWellFormed(env, list) && GoodRoms(env, e)
    ensures Searchable(env, e, list)
    ensures var p := Push(env, cap, list, e);
            && AllWellFormed(env, p.list)
            && Keys(env, p.list) == if Resolve(env, e).None? then Keys(env, list)
                                    else KeyPush(env, cap, Keys(env, list), KeyOf(env, e))
  {
    var resolved := Resolve(env, e);
    if resolved.Some? {
      var r := resolved.value;
      SameFirstMatch(env, list, e, r);
      var i := FirstMatch(env, e, r, list);
      if i < |list| {
        FillKeepsKey(env, list[i], e);
        HitOnKeys(env, list, i, Fill(list[i], e));
      } else {
        NewEntryKey(env, e, r);
        MissOnKeys(env, cap, list, NewEntry(e, r));
      }
    }
  }

  /** An entry of a runtime list: only paths and play times. */
  predicate Bare(e: Entry) {
    && e.labelText.None? && e.coreName.None? && e.dbName.None? && e.crc32.None?
    && e.subsystemIdent.None? && e.subsystemName.None? && e.subsystemRoms.None?
  }

  ghost predicate AllBare(list: seq<Entry>) {
    forall i :: 0 <= i < |list| ==> Bare(list[i])
  }

  lemma SameFirstContent(env: Paths, list: seq<Entry>, e: Entry, r: Resolved)
    requires AllWellFormed(env, list) && AllBare(list) && Bare(e) && ResolveRuntime(env, e) == Some(r)
    ensures FirstSameContent(env, r, list) == FirstKey(env, Keys(env, list), KeyOf(env, e))
  {
    forall j | 0 <= j < |list|
      ensures SameContent(env, r, list[j]) <==> KeyMatch(env, KeyOf(env, e), Keys(env, list)[j])
    {
      assert WellFormed(env, list[j]) && Bare(list[j]);
      ContentIsKey(env, e, r, list[j]);
    }
  }

  lemma NewRuntimeEntryKey(env: Paths, e: Entry, r: Resolved, slot: Entry)
    requires env.Lawful() && ResolveRuntime(env, e) == Some(r) && GoodRoms(env, slot)
    ensures var top := NewRuntimeEntry(e, r, slot);
            && WellFormed(env, top)
            && KeyOf(env, top) == KeyOf(env, slot).(path := KeyOf(env, e).path, core := KeyOf(env, e).core)
  {
    RealCoreIdempotent(env, e.corePath.value);
  }

  lemma BareHit(list: seq<Entry>, i: nat)
    requires AllBare(list) && i < |list|
    ensures AllBare(Bump(list, i, list[i]))
  {
  }

  lemma BareMiss(cap: nat, list: seq<Entry>, top: Entry)
    requires AllBare(list) && Bare(top) && 1 <= cap
    ensures AllBare([top] + Take(list, cap - 1))
  {
  }

  /** On a list of bare entries `playlist_push_runtime` is the same abstract step. */
  lemma PushRuntimeRefinesKeyPush(env: Paths, cap: nat, list: seq<Entry>, e: Entry, slot: Entry)
    requires env.Lawful() && 1 <= cap && |list| <= cap
    requires AllWellFormed(env, list) && AllBare(list) && Bare(slot) && Bare(e)
    ensures var p := PushRuntime(env, cap, list, e, slot);
            && AllWellFormed(env, p.list) && AllBare(p.list)
            && Keys(env, p.list) == if ResolveRuntime(env, e).None? then Keys(env, list)
                                    else KeyPush(env, cap, Keys(env, list), KeyOf(env, e))
  {
    var resolved := ResolveRuntime(env, e);
    if resolved.Some? {
      var r := resolved.value;
      SameFirstContent(env, list, e, r);
      var i := FirstSameContent(env, r, list);
      if i < |list| {
        HitOnKeys(env, list, i, list[i]);
        BareHit(list, i);
      } else {
        BareRuntimeKey(env, e, r, slot);
        MissOnKeys(env, cap, list, NewRuntimeEntry(e, r, slot));
        BareMiss(cap, list, NewRuntimeEntry(e, r, slot));
      }
    }
  }

  lemma BareRuntimeKey(env: Paths, e: Entry, r: Resolved, slot: Entry)
    requires env.Lawful() && ResolveRuntime(env, e) == Some(r) && Bare(slot) && Bare(e)
    ensures var top := NewRuntimeEntry(e, r, slot);
            Bare(top) && WellFormed(env, top) && KeyOf(env, top) == KeyOf(env, e)
  {
    NewRuntimeEntryKey(env, e, r, slot);
  }

  /** What a runtime push does not write. */
  function Leftover(e: Entry): Entry {
    e.(path := None, corePath := None, runtime := NO_RUNTIME)
  }

  /** A new runtime entry keeps everything else that slot 0 held. Unless the list was full with a capacity
      of one, that is what the old top entry holds, now right below it; it is clean exactly when that was. */
  lemma RuntimePushInheritsSlot(env: Paths, s: Slots, e: Entry)
    requires s.Valid() && 1 <= |s.entries| && ResolveRuntime(env, e).Some?
    requires forall j :: 0 <= j < s.size ==> !SameContent(env, ResolveRuntime(env, e).value, s.List()[j])
    ensures var after := PushRuntimeSlots(env, s, e);
            && after.Valid() && after.size == Min(s.size + 1, |s.entries|)
            && after.entries[0].runtime == e.runtime
            && Leftover(after.entries[0]) == Leftover(TopSlot(s))
            && (after.size > 1 ==> Leftover(after.List()[0]) == Leftover(after.List()[1]))
            && (Bare(after.entries[0]) <==> s.size == |s.entries| == 1 || Bare(s.entries[0]))
  {
    assert FirstSameContent(env, ResolveRuntime(env, e).value, s.List()) == s.size;
    PushRuntimeSlotsList(env, s, e);
  }

  /** The strings of a deleted last entry come back with the next runtime push. */
  lemma DeletedStringsReturn(env: Paths, s: Slots, e: Entry)
    requires s.Valid() && s.size == 1 && ResolveRuntime(env, e).Some?
    ensures var after := PushRuntimeSlots(env, DeleteSlots(s, 0), e);
            after.size == 1 && Leftover(after.entries[0]) == Leftover(s.entries[0])
  {
    RuntimePushInheritsSlot(env, DeleteSlots(s, 0), e);
  }

  // ---------------------------------------------------------------- no duplicates, ever

  /** One live entry would be taken for another if it were pushed. */
  ghost predicate Twins(env: Paths, a: Entry, b: Entry) {
    var r := ResolveRuntime(env, a);
    r.Some? && RomsReadable(env, a, r.value, b) && Matches(env, a, r.value, b)
  }

  ghost predicate NoDuplicates(env: Paths, list: seq<Entry>) {
    forall i, j :: 0 <= i < |list| && 0 <= j < |list| && i != j ==> !Twins(env, list[i], list[j])
  }

  ghost predicate NoKeyMatches(env: Paths, ks: seq<Key>) {
    forall i, j :: 0 <= i < |ks| && 0 <= j < |ks| && i != j ==> !KeyMatch(env, ks[i], ks[j])
  }

  lemma NoDuplicatesOnKeys(env: Paths, list: seq<Entry>)
    requires AllWellFormed(env, list)
    ensures NoDuplicates(env, list) <==> NoKeyMatches(env, Keys(env, list))
  {
    forall i, j | 0 <= i < |list| && 0 <= j < |list|
      ensures Twins(env, list[i], list[j]) <==> KeyMatch(env, Keys(env, list)[i], Keys(env, list)[j])
    {
      assert WellFormed(env, list[i]) && WellFormed(env, list[j]);
      MatchIsKeyMatch(env, list[i], ResolveRuntime(env, list[i]).value, list[j]);
    }
  }

  lemma NewKeyKeepsNoMatches(env: Paths, ks: seq<Key>, k: Key)
    requires NoKeyMatches(env, ks) && forall j :: 0 <= j < |ks| ==> !KeyMatch(env, k, ks[j])
    ensures NoKeyMatches(env, [k] + ks)
  {
    var after := [k] + ks;
    forall a, b | 0 <= a < |after| && 0 <= b < |after| && a != b
      ensures !KeyMatch(env, after[a], after[b])
    {
      KeyMatchSymmetric(env, after[a], after[b]);
    }
  }

  lemma ToFrontKeepsNoMatches(env: Paths, ks: seq<Key>, i: nat)
    requires NoKeyMatches(env, ks) && i < |ks|
    ensures NoKeyMatches(env, ToFront(ks, i))
  {
  }

  lemma InsertKeepsNoMatches(env: Paths, cap: nat, ks: seq<Key>, k: Key)
    requires 1 <= cap && NoKeyMatches(env, ks) && forall j :: 0 <= j < |ks| ==> !KeyMatch(env, k, ks[j])
    ensures NoKeyMatches(env, [k] + Take(ks, cap - 1))
  {
    var kept := Take(ks, cap - 1);
    assert forall j :: 0 <= j < |kept| ==> kept[j] == ks[j];
    NewKeyKeepsNoMatches(env, kept, k);
  }

  lemma KeyPushKeepsNoMatches(env: Paths, cap: nat, ks: seq<Key>, k: Key)
    requires 1 <= cap && NoKeyMatches(env, ks)
    ensures NoKeyMatches(env, KeyPush(env, cap, ks, k))
  {
    var i := FirstKey(env, ks, k);
    if i == |ks| {
      InsertKeepsNoMatches(env, cap, ks, k);
    } else {
      ToFrontKeepsNoMatches(env, ks, i);
    }
  }

  datatype Operation =
    | PushOp(entry: Entry)
    | PushRuntimeOp(entry: Entry)
    | DeleteOp(index: nat)
    | ClearOp
    | WriteOp

  /** A pushed entry has a ROM list exactly if it has a subsystem identifier. */
  ghost predicate Step(env: Paths, before: Slots, op: Operation, after: Slots)
    requires before.Valid() && 1 <= |before.entries|
  {
    match op
    case PushOp(e) => GoodRoms(env, e) && (Searchable(env, e, before.List()) ==> after == PushSlots(env, before, e))
    case PushRuntimeOp(e) => after == PushRuntimeSlots(env, before, e)
    case DeleteOp(i) => i < before.size && after == DeleteSlots(before, i)
    case ClearOp => after == ClearSlots(before)
    case WriteOp => after == before
  }

  ghost predicate Run(env: Paths, states: seq<Slots>, ops: seq<Operation>) {
    && |states| == |ops| + 1
    && forall k :: 0 <= k < |ops| && states[k].Valid() && 1 <= |states[k].entries| ==>
         Step(env, states[k], ops[k], states[k + 1])
  }

  ghost predicate Clean(env: Paths, list: seq<Entry>) {
    AllWellFormed(env, list) && NoDuplicates(env, list)
  }

  ghost predicate AllGoodRoms(env: Paths, entries: seq<Entry>) {
    forall k :: 0 <= k < |entries| ==> GoodRoms(env, entries[k])
  }

  /** The live entries are well formed and free of duplicates, and even the stale slots have a ROM list
      exactly if they have a subsystem identifier. */
  ghost predicate CleanSlots(env: Paths, s: Slots) {
    s.Valid() && 1 <= |s.entries| && AllGoodRoms(env, s.entries) && Clean(env, s.List())
  }

  /** A playlist starts out clean. */
  lemma BlankIsClean(env: Paths, cap: nat)
    requires 1 <= cap
    ensures CleanSlots(env, Slots(seq(cap, _ => BLANK), 0))
  {
  }

  lemma NewRuntimeKeyMatchesNone(env: Paths, list: seq<Entry>, e: Entry, r: Resolved, k: Key)
    requires AllWellFormed(env, list) && ResolveRuntime(env, e) == Some(r)
    requires k.path == r.path && k.core == r.corePath
    requires forall j :: 0 <= j < |list| ==> !SameContent(env, r, list[j])
    ensures forall j :: 0 <= j < |list| ==> !KeyMatch(env, k, Keys(env, list)[j])
  {
    forall j | 0 <= j < |list|
      ensures !KeyMatch(env, k, Keys(env, list)[j])
    {
      assert WellFormed(env, list[j]) && !SameContent(env, r, list[j]);
      ContentIsKey(env, e, r, list[j]);
    }
  }

  /** A runtime push compares less than a push does, so what it adds matches nothing either. */
  lemma PushRuntimeKeepsClean(env: Paths, cap: nat, list: seq<Entry>, e: Entry, slot: Entry)
    requires env.Lawful() && 1 <= cap && |list| <= cap && Clean(env, list) && GoodRoms(env, slot)
    ensures Clean(env, PushRuntime(env, cap, list, e, slot).list)
  {
    var resolved := ResolveRuntime(env, e);
    if resolved.Some? {
      var r := resolved.value;
      var i := FirstSameContent(env, r, list);
      NoDuplicatesOnKeys(env, list);
      if i < |list| {
        HitOnKeys(env, list, i, list[i]);
        ToFrontKeepsNoMatches(env, Keys(env, list), i);
        NoDuplicatesOnKeys(env, Bump(list, i, list[i]));
      } else {
        var top := NewRuntimeEntry(e, r, slot);
        NewRuntimeEntryKey(env, e, r, slot);
        MissOnKeys(env, cap, list, top);
        NewRuntimeKeyMatchesNone(env, list, e, r, KeyOf(env, top));
        InsertKeepsNoMatches(env, cap, Keys(env, list), KeyOf(env, top));
        NoDuplicatesOnKeys(env, [top] + Take(list, cap - 1));
      }
    }
  }

  lemma ToppedKeepsRoms(env: Paths, s: Slots, top: Entry)
    requires 1 <= |s.entries| && AllGoodRoms(env, s.entries) && GoodRoms(env, top)
    ensures AllGoodRoms(env, Topped(s, top).entries)
  {
  }

  lemma BumpKeepsRoms(env: Paths, entries: seq<Entry>, i: nat, top: Entry)
    requires i < |entries| && AllGoodRoms(env, entries) && GoodRoms(env, top)
    ensures AllGoodRoms(env, Bump(entries, i, top))
  {
  }

  lemma PushKeepsRoms(env: Paths, s: Slots, e: Entry)
    requires s.Valid() && 1 <= |s.entries| && AllGoodRoms(env, s.entries)
    requires GoodRoms(env, e) && Searchable(env, e, s.List())
    ensures AllGoodRoms(env, PushSlots(env, s, e).entries)
  {
    var resolved := Resolve(env, e);
    if resolved.Some? {
      var i := FirstMatch(env, e, resolved.value, s.List());
      if i < s.size {
        BumpKeepsRoms(env, s.entries, i, Fill(s.entries[i], e));
      } else {
        ToppedKeepsRoms(env, s, NewEntry(e, resolved.value));
      }
    }
  }

  lemma PushRuntimeKeepsRoms(env: Paths, s: Slots, e: Entry)
    requires s.Valid() && 1 <= |s.entries| && AllGoodRoms(env, s.entries)
    ensures AllGoodRoms(env, PushRuntimeSlots(env, s, e).entries) && GoodRoms(env, TopSlot(s))
  {
    var resolved := ResolveRuntime(env, e);
    if resolved.Some? {
      var i := FirstSameContent(env, resolved.value, s.List());
      if i < s.size {
        BumpKeepsRoms(env, s.entries, i, s.entries[i]);
      } else {
        ToppedKeepsRoms(env, s, NewRuntimeEntry(e, resolved.value, TopSlot(s)));
      }
    }
  }

  lemma PushKeepsClean(env: Paths, s: Slots, e: Entry)
    requires env.Lawful() && CleanSlots(env, s) && GoodRoms(env, e)
    ensures Searchable(env, e, s.List()) && CleanSlots(env, PushSlots(env, s, e))
  {
    var cap, list := |s.entries|, s.List();
    PushRefinesKeyPush(env, cap, list, e);
    PushSlotsList(env, s, e);
    PushKeepsRoms(env, s, e);
    NoDuplicatesOnKeys(env, list);
    if Resolve(env, e).Some? {
      KeyPushKeepsNoMatches(env, cap, Keys(env, list), KeyOf(env, e));
    }
    NoDuplicatesOnKeys(env, Push(env, cap, list, e).list);
  }

  lemma DeleteKeepsClean(env: Paths, s: Slots, i: nat)
    requires CleanSlots(env, s) && i < s.size
    ensures CleanSlots(env, DeleteSlots(s, i))
  {
    DeleteSlotsList(s, i);
    var list := s.List();
    assert forall j :: 0 <= j < |Delete(list, i)| ==> Delete(list, i)[j] == list[if j < i then j else j + 1];
  }

  lemma StepKeepsClean(env: Paths, before: Slots, op: Operation, after: Slots)
    requires env.Lawful() && CleanSlots(env, before) && Step(env, before, op, after)
    ensures CleanSlots(env, after) && |after.entries| == |before.entries|
  {
    match op {
      case PushOp(e) => PushKeepsClean(env, before, e);
      case PushRuntimeOp(e) =>
        PushRuntimeKeepsRoms(env, before, e);
        PushRuntimeKeepsClean(env, |before.entries|, before.List(), e, TopSlot(before));
        PushRuntimeSlotsList(env, before, e);
      case DeleteOp(i) => DeleteKeepsClean(env, before, i);
      case ClearOp =>
      case WriteOp =>
    }
  }

  /** Over every run of pushes, runtime pushes, deletions, clearings and writes, with fuzzy archive matching
      on or off, no two live entries ever match. */
  lemma {:induction false} NoDuplicatesEver(env: Paths, states: seq<Slots>, ops: seq<Operation>, k: nat)
    requires env.Lawful() && Run(env, states, ops) && CleanSlots(env, states[0]) && k < |states|
    ensures states[k].Valid() && NoDuplicates(env, states[k].List())
    ensures CleanSlots(env, states[k]) && |states[k].entries| == |states[0].entries|
  {
    if k > 0 {
      NoDuplicatesEver(env, states, ops, k - 1);
      StepKeepsClean(env, states[k - 1], ops[k - 1], states[k]);
    }
  }

  // ---------------------------------------------------------------- the LRU theorem

  function Without(ks: seq<Key>, k: Key): (r: seq<Key>)
    ensures k !in r
    ensures forall x :: x in r <==> x in ks && x != k
  {
    if ks == [] then [] else (if ks[0] == k then [] else [ks[0]]) + Without(ks[1..], k)
  }

  /** Distinct keys of a history, latest push first. */
  function Mru(history: seq<Key>): seq<Key> {
    if history == [] then []
    else
      var k := history[|history| - 1];
      [k] + Without(Mru(history[..|history| - 1]), k)
  }

  ghost predicate Distinct(ks: seq<Key>) {
    forall i, j :: 0 <= i < j < |ks| ==> ks[i] != ks[j]
  }

  lemma {:induction false} WithoutAbsent(ks: seq<Key>, k: Key)
    requires k !in ks
    ensures Without(ks, k) == ks
  {
    if ks != [] {
      WithoutAbsent(ks[1..], k);
    }
  }

  /** Removing the only occurrence of a key. */
  lemma {:induction false} WithoutAt(ks: seq<Key>, i: nat)
    requires Distinct(ks) && i < |ks|
    ensures Without(ks, ks[i]) == ks[..i] + ks[i + 1..]
  {
    if i == 0 {
      WithoutAbsent(ks[1..], ks[0]);
    } else {
      WithoutAt(ks[1..], i - 1);
      assert ks[..i] == [ks[0]] + ks[1..][..i - 1];
    }
  }

  /** When a key was last pushed: 1 for the first push of the history, 0 for never. */
  function LastPush(history: seq<Key>, k: Key): (n: nat)
    ensures n <= |history|
    ensures n > 0 <==> k in history
  {
    if history == [] then 0
    else if history[|history| - 1] == k then |history|
    else LastPush(history[..|history| - 1], k)
  }

  ghost predicate ByRecency(ks: seq<Key>, history: seq<Key>) {
    && (forall i :: 0 <= i < |ks| ==> LastPush(history, ks[i]) > 0)
    && forall i, j :: 0 <= i < j < |ks| ==> LastPush(history, ks[i]) > LastPush(history, ks[j])
  }

  lemma SkippingKeepsRecency(ks: seq<Key>, history: seq<Key>, i: nat)
    requires ByRecency(ks, history) && i < |ks|
    ensures ByRecency(ks[..i] + ks[i + 1..], history)
  {
    var rest := ks[..i] + ks[i + 1..];
    assert forall j :: 0 <= j < |rest| ==> rest[j] == ks[if j < i then j else j + 1];
  }

  lemma RecencyIsDistinct(ks: seq<Key>, history: seq<Key>)
    requires ByRecency(ks, history)
    ensures Distinct(ks)
  {
  }

  lemma WithoutKeepsRecency(ks: seq<Key>, history: seq<Key>, k: Key)
    requires ByRecency(ks, history)
    ensures ByRecency(Without(ks, k), history)
  {
    if k in ks {
      var i :| 0 <= i < |ks| && ks[i] == k;
      RecencyIsDistinct(ks, history);
      WithoutAt(ks, i);
      SkippingKeepsRecency(ks, history, i);
    } else {
      WithoutAbsent(ks, k);
    }
  }

  /** A key that is pushed now goes in front of the others, whose last push stays what it was. */
  lemma NewestFirst(rest: seq<Key>, history: seq<Key>, k: Key)
    requires ByRecency(rest, history) && k !in rest
    ensures ByRecency([k] + rest, history + [k])
  {
    var after := history + [k];
    assert after[..|history|] == history;
    forall i | 0 <= i < |rest|
      ensures LastPush(after, rest[i]) == LastPush(history, rest[i])
    {
      assert rest[i] in rest;
    }
  }

  lemma {:induction false} MruIsByRecency(history: seq<Key>)
    ensures ByRecency(Mru(history), history) && Distinct(Mru(history))
    ensures forall k :: k in Mru(history) <==> k in history
  {
    if history != [] {
      var n := |history| - 1;
      var prefix, k := history[..n], history[n];
      MruIsByRecency(prefix);
      WithoutKeepsRecency(Mru(prefix), prefix, k);
      NewestFirst(Without(Mru(prefix), k), prefix, k);
      assert history == prefix + [k];
      RecencyIsDistinct(Mru(history), history);
    }
  }

  ghost function KeyRun(env: Paths, cap: nat, history: seq<Key>): seq<Key>
    requires 1 <= cap
  {
    if history == [] then []
    else KeyPush(env, cap, KeyRun(env, cap, history[..|history| - 1]), history[|history| - 1])
  }

  /** No two different keys of the history match: always so with fuzzy matching off. */
  ghost predicate Exact(env: Paths, history: seq<Key>) {
    forall i, j :: 0 <= i < |history| && 0 <= j < |history| && KeyMatch(env, history[i], history[j]) ==>
      history[i] == history[j]
  }

  lemma TakeWithout(m: seq<Key>, cap: nat, k: Key)
    requires Distinct(m) && k !in Take(m, cap)
    ensures Take(Without(m, k), cap) == Take(m, cap)
  {
    if k in m {
      var i :| 0 <= i < |m| && m[i] == k;
      assert forall j :: 0 <= j < |Take(m, cap)| ==> Take(m, cap)[j] == m[j];
      WithoutAt(m, i);
    } else {
      WithoutAbsent(m, k);
    }
  }

  lemma {:induction false} KeyPushOnMru(env: Paths, cap: nat, m: seq<Key>, k: Key)
    requires 1 <= cap && Distinct(m)
    requires forall x :: x in m ==> (KeyMatch(env, k, x) <==> k == x)
    ensures KeyPush(env, cap, Take(m, cap), k) == Take([k] + Without(m, k), cap)
  {
    var ks := Take(m, cap);
    assert forall j :: 0 <= j < |ks| ==> ks[j] == m[j] && m[j] in m;
    var i := FirstKey(env, ks, k);
    if i < |ks| {
      WithoutAt(m, i);
      ToFrontOfTake(m, cap, i);
    } else {
      assert k !in ks;
      TakeWithout(m, cap, k);
      NewOnTake(m, Without(m, k), cap, k);
    }
  }

  lemma ToFrontOfTake(m: seq<Key>, cap: nat, i: nat)
    requires i < |Take(m, cap)|
    ensures ToFront(Take(m, cap), i) == Take([m[i]] + (m[..i] + m[i + 1..]), cap)
  {
    assert [m[i]] + (m[..i] + m[i + 1..]) == ToFront(m, i);
    forall j | 0 <= j < |Take(m, cap)|
      ensures ToFront(Take(m, cap), i)[j] == ToFront(m, i)[j]
    {
      ToFrontAt(Take(m, cap), i, j);
      ToFrontAt(m, i, j);
    }
  }

  lemma NewOnTake(m: seq<Key>, m': seq<Key>, cap: nat, k: Key)
    requires 1 <= cap && Take(m', cap) == Take(m, cap)
    ensures [k] + Take(Take(m, cap), cap - 1) == Take([k] + m', cap)
  {
    assert Take(Take(m, cap), cap - 1) == Take(m, cap - 1);
    assert Take(Take(m', cap), cap - 1) == Take(m', cap - 1);
  }

  lemma {:induction false} KeyRunIsMru(env: Paths, cap: nat, history: seq<Key>)
    requires 1 <= cap && Exact(env, history)
    ensures KeyRun(env, cap, history) == Take(Mru(history), cap)
  {
    if history != [] {
      var n := |history| - 1;
      var prefix, k := history[..n], history[n];
      KeyRunIsMru(env, cap, prefix);
      MruIsByRecency(prefix);
      forall x | x in Mru(prefix)
        ensures KeyMatch(env, k, x) <==> k == x
      {
        var i :| 0 <= i < n && history[i] == x;
        assert KeyMatch(env, history[n], history[i]) ==> history[n] == history[i];
        KeyMatchSymmetric(env, k, k);
      }
      KeyPushOnMru(env, cap, Mru(prefix), k);
    }
  }

  /** The list after a sequence of pushes onto an empty playlist. */
  ghost function PushAll(env: Paths, cap: nat, pushes: seq<Entry>): (list: seq<Entry>)
    requires env.Lawful() && 1 <= cap && forall i :: 0 <= i < |pushes| ==> GoodRoms(env, pushes[i])
    ensures |list| <= cap && AllWellFormed(env, list)
  {
    if pushes == [] then []
    else
      var n := |pushes| - 1;
      var list := PushAll(env, cap, pushes[..n]);
      PushRefinesKeyPush(env, cap, list, pushes[n]);
      Push(env, cap, list, pushes[n]).list
  }

  /** Keys of the pushes that were not rejected. */
  ghost function Accepted(env: Paths, pushes: seq<Entry>): seq<Key> {
    if pushes == [] then []
    else
      var n := |pushes| - 1;
      Accepted(env, pushes[..n]) + if Resolve(env, pushes[n]).Some? then [KeyOf(env, pushes[n])] else []
  }

  lemma KeyRunStep(env: Paths, cap: nat, history: seq<Key>, k: Key)
    requires 1 <= cap
    ensures KeyRun(env, cap, history + [k]) == KeyPush(env, cap, KeyRun(env, cap, history), k)
  {
    assert (history + [k])[..|history|] == history;
  }

  lemma {:induction false} PushAllKeys(env: Paths, cap: nat, pushes: seq<Entry>)
    requires env.Lawful() && 1 <= cap && forall i :: 0 <= i < |pushes| ==> GoodRoms(env, pushes[i])
    ensures Keys(env, PushAll(env, cap, pushes)) == KeyRun(env, cap, Accepted(env, pushes))
  {
    if pushes != [] {
      var n := |pushes| - 1;
      var prefix, e := pushes[..n], pushes[n];
      PushAllKeys(env, cap, prefix);
      PushRefinesKeyPush(env, cap, PushAll(env, cap, prefix), e);
      if Resolve(env, e).Some? {
        KeyRunStep(env, cap, Accepted(env, prefix), KeyOf(env, e));
        assert Accepted(env, pushes) == Accepted(env, prefix) + [KeyOf(env, e)];
      } else {
        assert Accepted(env, pushes) == Accepted(env, prefix);
      }
    }
  }

  /** After any history of pushes the list shows the `cap` most recently pushed keys, latest first:
      it is ordered by last push, and a key that is missing was last pushed before all that are shown,
      which then fill the list. */
  lemma LruTheorem(env: Paths, cap: nat, pushes: seq<Entry>)
    requires env.Lawful() && 1 <= cap && forall i :: 0 <= i < |pushes| ==> GoodRoms(env, pushes[i])
    requires Exact(env, Accepted(env, pushes))
    ensures var history := Accepted(env, pushes);
            var shown := Keys(env, PushAll(env, cap, pushes));
            && ByRecency(shown, history)
            && forall k :: k in history && k !in shown ==>
                 |shown| == cap && forall i :: 0 <= i < cap ==> LastPush(history, shown[i]) > LastPush(history, k)
  {
    var history := Accepted(env, pushes);
    PushAllKeys(env, cap, pushes);
    KeyRunIsMru(env, cap, history);
    MruIsByRecency(history);
    TakeByRecency(Mru(history), history, cap);
  }

  lemma TakeByRecency(m: seq<Key>, history: seq<Key>, cap: nat)
    requires ByRecency(m, history)
    ensures var shown := Take(m, cap);
            && ByRecency(shown, history)
            && forall k :: k in m && k !in shown ==>
                 |shown| == cap && forall i :: 0 <= i < cap ==> LastPush(history, shown[i]) > LastPush(history, k)
  {
    var shown := Take(m, cap);
    assert forall j :: 0 <= j < |shown| ==> shown[j] == m[j];
    forall k | k in m && k !in shown
      ensures |shown| == cap && forall i :: 0 <= i < cap ==> LastPush(history, shown[i]) > LastPush(history, k)
    {
      var j :| 0 <= j < |m| && m[j] == k;
      assert j >= |shown|;
    }
  }

  lemma ExactWhenNotFuzzy(env: Paths, history: seq<Key>)
    requires !env.fuzzy
    ensures Exact(env, history)
  {
    forall i, j | 0 <= i < |history| && 0 <= j < |history| && KeyMatch(env, history[i], history[j])
      ensures history[i] == history[j]
    {
      ExactMatchIsEquality(env, history[i], history[j]);
    }
  }

  /** With fuzzy matching off, a smaller playlist always shows a prefix of a larger one. */
  lemma {:induction false} SmallerCapacityIsPrefix(env: Paths, small: nat, large: nat, pushes: seq<Entry>)
    requires env.Lawful() && !env.fuzzy && 1 <= small <= large
    requires forall i :: 0 <= i < |pushes| ==> GoodRoms(env, pushes[i])
    ensures Keys(env, PushAll(env, small, pushes)) <= Keys(env, PushAll(env, large, pushes))
  {
    var history := Accepted(env, pushes);
    ExactWhenNotFuzzy(env, history);
    PushAllKeys(env, small, pushes);
    PushAllKeys(env, large, pushes);
    KeyRunIsMru(env, small, history);
    KeyRunIsMru(env, large, history);
  }
}
