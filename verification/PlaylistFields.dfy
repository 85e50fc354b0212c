/** Field by field, what a playlist operation leaves in an entry, and when it changes the list at all. */
module PlaylistFields {
  import opened CText
  import opened PlaylistModel
  import opened PlaylistSlots
  import opened PlaylistHistory

  /** The six texts of an entry that a playlist file shows of every entry. */
  datatype Column = PathColumn | LabelColumn | CorePathColumn | CoreNameColumn | CrcColumn | DbNameColumn

  function TextOf(e: Entry, f: Column): Option<string> {
    match f
    case PathColumn => e.path
    case LabelColumn => e.labelText
    case CorePathColumn => e.corePath
    case CoreNameColumn => e.coreName
    case CrcColumn => e.crc32
    case DbNameColumn => e.dbName
  }

  /** Everything an entry has besides those. */
  predicate SameOtherwise(a: Entry, b: Entry) {
    && a.subsystemIdent == b.subsystemIdent && a.subsystemName == b.subsystemName
    && a.subsystemRoms == b.subsystemRoms && a.runtime == b.runtime
  }

  predicate SamePlayTime(a: Runtime, b: Runtime) {
    && a.status == b.status && a.hours == b.hours && a.minutes == b.minutes && a.seconds == b.seconds
    && a.year == b.year && a.month == b.month && a.day == b.day
    && a.hour == b.hour && a.minute == b.minute && a.second == b.second
  }

  /** Nothing is left of a freed entry. */
  lemma BlankHasNothing(f: Column)
    ensures TextOf(BLANK, f) == None
    ensures BLANK.subsystemIdent == None && BLANK.subsystemName == None && BLANK.subsystemRoms == None
    ensures SamePlayTime(BLANK.runtime, Runtime(RuntimeUnknown, 0, 0, 0, 0, 0, 0, 0, 0, 0))
  {
  }

  // ---------------------------------------------------------------- push

  /** A path as a push stores it. */
  function StoredPath(env: Paths, p: Option<string>): Option<string> {
    if p == None || p == Some("") || env.resolve(p.value) == "" then None else Some(env.resolve(p.value))
  }

  function StoredCore(env: Paths, p: string): string {
    if p == "DETECT" then "DETECT" else env.resolve(p)
  }

  function StoredText(t: Option<string>): Option<string> {
    if t == Some("") then None else t
  }

  /** What makes a push fail: no core path, or one that resolves to nothing, or a core without any name. */
  predicate Rejected(env: Paths, e: Entry) {
    || e.corePath == None || e.corePath == Some("")
    || StoredCore(env, e.corePath.value) == ""
    || ((e.coreName == None || e.coreName == Some("")) && env.baseName(StoredCore(env, e.corePath.value)) == "")
  }

  /** A rejected push, and no other, leaves the list without asking for it. */
  lemma RejectedPush(env: Paths, cap: nat, list: seq<Entry>, e: Entry)
    requires 1 <= cap && |list| <= cap && Searchable(env, e, list)
    ensures Rejected(env, e) <==> Resolve(env, e) == None
    ensures Rejected(env, e) ==> Push(env, cap, list, e) == Pushed(list, false)
  {
  }

  /** The entry at i is the first that a push finds. */
  ghost predicate Finds(env: Paths, list: seq<Entry>, e: Entry, i: nat)
    requires i <= |list|
  {
    var r := Resolve(env, e);
    && r.Some?
    && (forall j :: 0 <= j < i ==> RomsReadable(env, e, r.value, list[j]) && !Matches(env, e, r.value, list[j]))
    && (i < |list| ==> RomsReadable(env, e, r.value, list[i]) && Matches(env, e, r.value, list[i]))
  }

  lemma {:induction false} FoundFirst(env: Paths, list: seq<Entry>, e: Entry, r: Resolved, i: nat)
    requires i <= |list| && Finds(env, list, e, i) && Resolve(env, e) == Some(r)
    ensures Readable(env, e, r, list) && FirstMatch(env, e, r, list) == i
  {
    if i > 0 {
      assert RomsReadable(env, e, r, list[0]) && !Matches(env, e, r, list[0]);
      assert forall j :: 0 <= j < |list| - 1 ==> list[1..][j] == list[j + 1];
      FoundFirst(env, list[1..], e, r, i - 1);
    }
  }

  /** A push that finds nothing puts in front what it was given: every text in its own field, with its paths
      resolved, a core name made up from the core path if there was none, and no play time. The others move down
      by one, and the last one goes when the list was full. */
  lemma MissStoresEveryField(env: Paths, cap: nat, list: seq<Entry>, e: Entry)
    requires 1 <= cap && |list| <= cap && !Rejected(env, e) && Finds(env, list, e, |list|)
    ensures Searchable(env, e, list)
    ensures var after, top := Push(env, cap, list, e), Push(env, cap, list, e).list[0];
            var core := StoredCore(env, e.corePath.value);
            && after.changed && |after.list| == (if |list| < cap then |list| + 1 else cap)
            && (forall j :: 1 <= j < |after.list| ==> after.list[j] == list[j - 1])
            && TextOf(top, PathColumn) == StoredPath(env, e.path)
            && TextOf(top, CorePathColumn) == Some(core)
            && TextOf(top, CoreNameColumn) ==
               (if StoredText(e.coreName) == None then Some(env.baseName(core)) else e.coreName)
            && TextOf(top, LabelColumn) == StoredText(e.labelText)
            && TextOf(top, CrcColumn) == StoredText(e.crc32)
            && TextOf(top, DbNameColumn) == StoredText(e.dbName)
            && top.subsystemIdent == StoredText(e.subsystemIdent)
            && top.subsystemName == StoredText(e.subsystemName) && top.subsystemRoms == e.subsystemRoms
            && SamePlayTime(top.runtime, Runtime(RuntimeUnknown, 0, 0, 0, 0, 0, 0, 0, 0, 0))
  {
    FoundFirst(env, list, e, Resolve(env, e).value, |list|);
  }

  /** So an entry whose paths are resolved and whose texts are there is stored as it is. */
  lemma MissStoresItself(env: Paths, cap: nat, list: seq<Entry>, e: Entry)
    requires 1 <= cap && |list| <= cap && Finds(env, list, e, |list|)
    requires forall f :: TextOf(e, f) != None && TextOf(e, f) != Some("")
    requires e.path.Some? && env.resolve(e.path.value) == e.path.value
    requires e.corePath.Some? && (e.corePath.value == "DETECT" || env.resolve(e.corePath.value) == e.corePath.value)
    requires e.subsystemIdent != Some("") && e.subsystemName != Some("")
    ensures Searchable(env, e, list)
    ensures var top := Push(env, cap, list, e).list[0];
            (forall f :: TextOf(top, f) == TextOf(e, f)) && SameOtherwise(top, e.(runtime := BLANK.runtime))
  {
    assert TextOf(e, PathColumn) != None && TextOf(e, CorePathColumn) != None && TextOf(e, CoreNameColumn) != None;
    assert TextOf(e, LabelColumn) != None && TextOf(e, CrcColumn) != None && TextOf(e, DbNameColumn) != None;
    MissStoresEveryField(env, cap, list, e);
  }

  /** A push that finds entry i moves it to the front; its label, checksum and database name are filled in where
      they are missing, each from its own field, and nothing else of it changes. */
  lemma HitKeepsEveryField(env: Paths, cap: nat, list: seq<Entry>, e: Entry, i: nat)
    requires 1 <= cap && |list| <= cap && i < |list| && Finds(env, list, e, i)
    ensures Searchable(env, e, list)
    ensures var after, top := Push(env, cap, list, e), Push(env, cap, list, e).list[0];
            && |after.list| == |list| && SameOtherwise(top, list[i])
            && (forall j :: 1 <= j < |list| ==> after.list[j] == list[if j <= i then j - 1 else j])
            && (forall f :: TextOf(list[i], f) != None || f in {PathColumn, CorePathColumn, CoreNameColumn} ==>
                  TextOf(top, f) == TextOf(list[i], f))
            && (forall f :: TextOf(list[i], f) == None && f in {LabelColumn, CrcColumn, DbNameColumn} ==>
                  TextOf(top, f) == StoredText(TextOf(e, f)))
  {
    FoundFirst(env, list, e, Resolve(env, e).value, i);
    var after := Push(env, cap, list, e).list;
    forall j | 0 <= j < |list|
      ensures after[j] == if j == 0 then Fill(list[i], e) else if j <= i then list[j - 1] else list[j]
    {
      BumpAt(list, i, Fill(list[i], e), j);
    }
  }

  lemma StoredEntryMatches(env: Paths, e: Entry, r: Resolved)
    requires env.Lawful() && Resolve(env, e) == Some(r) && GoodRoms(env, e)
    ensures RomsReadable(env, e, r, NewEntry(e, r)) && Matches(env, e, r, NewEntry(e, r))
  {
    NewEntryKey(env, e, r);
    MatchIsKeyMatch(env, e, r, NewEntry(e, r));
    KeyMatchSymmetric(env, KeyOf(env, e), KeyOf(env, e));
  }

  /** A push reports a change exactly when the list is another one afterwards. */
  lemma PushReportsChange(env: Paths, cap: nat, list: seq<Entry>, e: Entry)
    requires env.Lawful() && 1 <= cap && |list| <= cap && AllWellFormed(env, list) && GoodRoms(env, e)
    ensures Searchable(env, e, list)
    ensures Push(env, cap, list, e).changed <==> Push(env, cap, list, e).list != list
  {
    var resolved := Resolve(env, e);
    if resolved.Some? {
      var r := resolved.value;
      AllAreReadable(env, list, e, r);
      var i := FirstMatch(env, e, r, list);
      if i < |list| {
        assert Matches(env, e, r, Fill(list[i], e)) && RomsReadable(env, e, r, Fill(list[i], e));
        BumpAt(list, i, Fill(list[i], e), 0);
        if i == 0 {
          assert Bump(list, 0, list[0]) == list;
        }
      } else {
        StoredEntryMatches(env, e, r);
        assert Push(env, cap, list, e).list[0] == NewEntry(e, r);
      }
    }
  }

  /** A runtime push that finds nothing writes its two paths and its play time over what slot 0 holds. */
  lemma RuntimeMissStoresFields(env: Paths, s: Slots, e: Entry)
    requires s.Valid() && 1 <= |s.entries| && e.corePath.Some? && e.corePath != Some("")
    requires StoredCore(env, e.corePath.value) != ""
    requires ResolveRuntime(env, e).Some? ==>
               forall j :: 0 <= j < s.size ==> !SameContent(env, ResolveRuntime(env, e).value, s.List()[j])
    ensures var after := PushRuntimeSlots(env, s, e);
            var top, was := after.entries[0], if s.size == |s.entries| == 1 then BLANK else s.entries[0];
            && after.size == Min(s.size, |s.entries| - 1) + 1
            && (forall j :: 1 <= j < |s.entries| ==> after.entries[j] == s.entries[j - 1])
            && TextOf(top, PathColumn) == StoredPath(env, e.path)
            && TextOf(top, CorePathColumn) == Some(StoredCore(env, e.corePath.value))
            && SamePlayTime(top.runtime, e.runtime) && SameOtherwise(top, was.(runtime := e.runtime))
            && (forall f :: f != PathColumn && f != CorePathColumn ==> TextOf(top, f) == TextOf(was, f))
  {
    assert FirstSameContent(env, ResolveRuntime(env, e).value, s.List()) == s.size;
  }

  // ---------------------------------------------------------------- archives

  /** A file inside an archive, and the archive, are the same content with fuzzy matching on and not without. */
  lemma ArchiveAndMember(env: Paths, archive: string, rest: string)
    requires rest != "" && archive != "" && env.compressed(archive) && !env.compressed(archive + rest)
    requires env.archiveDelim(archive + rest) == Some(|archive|)
    requires env.resolve(archive) == archive && env.resolve(archive + rest) == archive + rest
    ensures env.PathEqual(archive, Some(archive + rest)) <==> env.fuzzy
    ensures env.PathEqual(archive + rest, Some(archive)) <==> env.fuzzy
  {
    assert |archive + rest| > |archive|;
    assert Take(archive + rest, |archive|) == archive;
  }

  // ---------------------------------------------------------------- update and delete

  /** An update replaces every text that is given, each in its own field, and nothing else. It counts as a change
      exactly when any is given. */
  lemma UpdateByField(e: Entry, u: Entry)
    ensures forall f :: TextOf(Update(e, u), f) == if TextOf(u, f) != None then TextOf(u, f) else TextOf(e, f)
    ensures SameOtherwise(Update(e, u), e)
    ensures Updates(u) <==> exists f :: TextOf(u, f) != None
  {
    assert TextOf(u, PathColumn) == u.path && TextOf(u, LabelColumn) == u.labelText;
    assert TextOf(u, CorePathColumn) == u.corePath && TextOf(u, CoreNameColumn) == u.coreName;
    assert TextOf(u, CrcColumn) == u.crc32 && TextOf(u, DbNameColumn) == u.dbName;
  }

  /** A runtime update replaces the two paths that are given and every number of the play time. */
  lemma UpdateRuntimeByField(e: Entry, u: Entry)
    ensures var after := UpdateRuntime(e, u);
            && (forall f :: TextOf(after, f) == if f in {PathColumn, CorePathColumn} && TextOf(u, f) != None
                                                then TextOf(u, f) else TextOf(e, f))
            && SamePlayTime(after.runtime, u.runtime) && SameOtherwise(after, e.(runtime := u.runtime))
    ensures UpdatesRuntime(e, u) <==>
            TextOf(u, PathColumn) != None || TextOf(u, CorePathColumn) != None || !SamePlayTime(u.runtime, e.runtime)
  {
  }

  /** Clearing leaves nothing in the slots that were live, and does not touch the others. */
  lemma ClearAt(s: Slots, k: nat)
    requires s.Valid() && k < |s.entries|
    ensures var after := ClearSlots(s);
            && after.size == 0 && |after.entries| == |s.entries|
            && (k < s.size ==>
                  (forall f :: TextOf(after.entries[k], f) == None) && SameOtherwise(after.entries[k], BLANK))
            && (k >= s.size ==> after.entries[k] == s.entries[k])
  {
  }

  /** A new default core replaces the old one, unless it is empty. */
  lemma DefaultReplaced(prior: Option<string>, value: string)
    ensures Str(NewDefault(prior, value)) == if value == "" then Str(prior) else value
    ensures value == "" ==> NewDefault(prior, value) == prior
  {
  }

  /** Deleting closes the gap and changes no entry. */
  lemma DeleteAt(list: seq<Entry>, i: nat)
    requires i < |list|
    ensures |Delete(list, i)| == |list| - 1
    ensures forall j :: 0 <= j < |list| - 1 ==> Delete(list, i)[j] == list[if j < i then j else j + 1]
  {
  }
}
