/** Playlist entries, the relation by which a pushed entry "is" a stored one, and the abstract
    effect of the playlist operations on the list of live entries. */
module PlaylistModel {
  import opened CText

  datatype RuntimeStatus = RuntimeUnknown | RuntimeMissing | RuntimeValid

  datatype Runtime = Runtime(
    status: RuntimeStatus,
    hours: uint32, minutes: uint32, seconds: uint32,
    year: uint32, month: uint32, day: uint32,
    hour: uint32, minute: uint32, second: uint32)

  const NO_RUNTIME := Runtime(RuntimeUnknown, 0, 0, 0, 0, 0, 0, 0, 0, 0)

  datatype Entry = Entry(
    path: Option<string>,
    labelText: Option<string>,
    corePath: Option<string>,
    coreName: Option<string>,
    dbName: Option<string>,
    crc32: Option<string>,
    subsystemIdent: Option<string>,
    subsystemName: Option<string>,
    subsystemRoms: Option<seq<string>>,
    runtime: Runtime)

  /** What `calloc` and `playlist_free_entry` leave in a slot. */
  const BLANK := Entry(None, None, None, None, None, None, None, None, None, NO_RUNTIME)

  // ---------------------------------------------------------------- the surroundings

  /** What the playlist code asks of the file system and of the settings. */
  datatype Paths = Paths(
    resolve: string -> string,               // path_resolve_realpath
    compressed: string -> bool,           // path_is_compressed_file
    archiveDelim: string -> Option<nat>,  // path_get_archive_delim, as an offset
    baseName: string -> string,           // fill_pathname_base_noext
    fuzzy: bool)                          // setting playlist_fuzzy_archive_match
  {
    /** Resolving a resolved path changes nothing. */
    ghost predicate Lawful() {
      forall p :: resolve(resolve(p)) == resolve(p)
    }

    /** Core paths are resolved like content paths, but "DETECT" stands for itself. */
    function RealCore(p: string): string {
      if p == "DETECT" then p else resolve(p)
    }

    /** One path is an archive, the other names a file inside that archive. */
    predicate ArchiveEqual(a: string, b: string) {
      var aCompressed, bCompressed := compressed(a), compressed(b);
      aCompressed != bCompressed &&
      var archive, full := if aCompressed then a else b, if aCompressed then b else a;
      var delim := archiveDelim(full);
      delim.Some? && archive == Take(full, delim.value)
    }

    /** `playlist_path_equal` */
    predicate PathEqual(realPath: string, entryPath: Option<string>) {
      if realPath == "" || Empty(entryPath) then false
      else
        var entryReal := resolve(entryPath.value);
        if entryReal == "" then false
        else if realPath == entryReal then true
        else fuzzy && ArchiveEqual(realPath, entryReal)
    }

    /** `playlist_core_path_equal` */
    predicate CorePathEqual(realCore: string, entryCore: Option<string>) {
      if realCore == "" || Empty(entryCore) then false
      else
        var entryReal := RealCore(entryCore.value);
        entryReal != "" && realCore == entryReal
    }
  }

  /** The resolved paths and the core name a push works with. */
  datatype Resolved = Resolved(path: string, corePath: string, coreName: string)

  /** The checks at the head of `playlist_push`; None is the early `return false`. */
  function Resolve(env: Paths, e: Entry): Option<Resolved> {
    if Empty(e.corePath) then None
    else
      var path := if Empty(e.path) then "" else env.resolve(e.path.value);
      var core := env.RealCore(e.corePath.value);
      var name := if Empty(e.coreName) then env.baseName(core) else e.coreName.value;
      if core == "" || name == "" then None else Some(Resolved(path, core, name))
  }

  /** The same checks in `playlist_push_runtime`, which needs no core name. */
  function ResolveRuntime(env: Paths, e: Entry): Option<Resolved> {
    if Empty(e.corePath) then None
    else
      var path := if Empty(e.path) then "" else env.resolve(e.path.value);
      var core := env.RealCore(e.corePath.value);
      if core == "" then None else Some(Resolved(path, core, ""))
  }

  // ---------------------------------------------------------------- matching

  /** Same content and same core: all that `playlist_push_runtime` looks at. */
  predicate SameContent(env: Paths, r: Resolved, stored: Entry) {
    && ((r.path == "" && Empty(stored.path)) || env.PathEqual(r.path, stored.path))
    && env.CorePathEqual(r.corePath, stored.corePath)
  }

  /** Two optional names agree when both are missing or empty, or both have the same text. */
  predicate SameName(a: Option<string>, b: Option<string>) {
    if Empty(a) || Empty(b) then Empty(a) && Empty(b) else a.value == b.value
  }

  function RealRom(env: Paths, rom: string): string {
    if rom == "" then "" else env.resolve(rom)
  }

  predicate SameRoms(env: Paths, pushed: seq<string>, stored: seq<string>) {
    |pushed| == |stored| &&
    forall j :: 0 <= j < |pushed| ==> env.PathEqual(RealRom(env, pushed[j]), Some(stored[j]))
  }

  /** All of the match test of `playlist_push` that comes before the ROM lists. */
  predicate SameButRoms(env: Paths, e: Entry, r: Resolved, stored: Entry) {
    && SameContent(env, r, stored)
    && SameName(e.subsystemIdent, stored.subsystemIdent)
    && SameName(e.subsystemName, stored.subsystemName)
  }

  /** When the test gets that far with a pushed entry that has a ROM list, it reads the stored one. */
  predicate RomsReadable(env: Paths, e: Entry, r: Resolved, stored: Entry) {
    e.subsystemRoms.Some? && SameButRoms(env, e, r, stored) ==> stored.subsystemRoms.Some?
  }

  /** The whole match test of `playlist_push`. */
  predicate Matches(env: Paths, e: Entry, r: Resolved, stored: Entry)
    requires RomsReadable(env, e, r, stored)
  {
    && SameButRoms(env, e, r, stored)
    && (e.subsystemRoms.Some? ==> SameRoms(env, e.subsystemRoms.value, stored.subsystemRoms.value))
  }

  // ---------------------------------------------------------------- abstract operations

  /** The entry that a push puts in a fresh slot. */
  function NewEntry(e: Entry, r: Resolved): Entry {
    Entry(NonEmpty(r.path), NonEmpty(Str(e.labelText)), NonEmpty(r.corePath), NonEmpty(r.coreName),
          NonEmpty(Str(e.dbName)), NonEmpty(Str(e.crc32)),
          NonEmpty(Str(e.subsystemIdent)), NonEmpty(Str(e.subsystemName)), e.subsystemRoms, NO_RUNTIME)
  }

  function FillField(prior: Option<string>, pushed: Option<string>): Option<string> {
    if prior.None? then NonEmpty(Str(pushed)) else prior
  }

  /** A stored entry takes over the label, checksum and database name it lacks. */
  function Fill(stored: Entry, e: Entry): Entry {
    stored.(labelText := FillField(stored.labelText, e.labelText),
            crc32 := FillField(stored.crc32, e.crc32),
            dbName := FillField(stored.dbName, e.dbName))
  }

  /** The entry that `playlist_push_runtime` leaves in slot 0: every field other than the
      paths and the runtime is whatever the slot held before. */
  function NewRuntimeEntry(e: Entry, r: Resolved, slot: Entry): Entry {
    slot.(path := NonEmpty(r.path), corePath := NonEmpty(r.corePath), runtime := e.runtime)
  }

  /** Every ROM list that the search reads, up to the first match, is there. */
  ghost predicate Readable(env: Paths, e: Entry, r: Resolved, list: seq<Entry>) {
    list == [] ||
    (RomsReadable(env, e, r, list[0]) && (Matches(env, e, r, list[0]) || Readable(env, e, r, list[1..])))
  }

  /** What a push demands of the list: a rejected one reads nothing. */
  ghost predicate Searchable(env: Paths, e: Entry, list: seq<Entry>) {
    Resolve(env, e).Some? ==> Readable(env, e, Resolve(env, e).value, list)
  }

  /** Index of the first live entry that matches, or the length of the list. */
  ghost function FirstMatch(env: Paths, e: Entry, r: Resolved, list: seq<Entry>): (i: nat)
    requires Readable(env, e, r, list)
    ensures i <= |list|
    ensures i < |list| ==> RomsReadable(env, e, r, list[i]) && Matches(env, e, r, list[i])
    ensures forall j :: 0 <= j < i ==> RomsReadable(env, e, r, list[j]) && !Matches(env, e, r, list[j])
  {
    if list == [] then 0
    else if Matches(env, e, r, list[0]) then 0
    else
      assert forall j :: 0 <= j < |list[1..]| ==> list[1..][j] == list[j + 1];
      1 + FirstMatch(env, e, r, list[1..])
  }

  ghost function FirstSameContent(env: Paths, r: Resolved, list: seq<Entry>): (i: nat)
    ensures i <= |list|
    ensures i < |list| ==> SameContent(env, r, list[i])
    ensures forall j :: 0 <= j < i ==> !SameContent(env, r, list[j])
  {
    if list == [] || SameContent(env, r, list[0]) then 0
    else 1 + FirstSameContent(env, r, list[1..])
  }

  /** Entry i, in the form `top`, moves to the front. */
  function Bump(list: seq<Entry>, i: nat, top: Entry): seq<Entry>
    requires i < |list|
  {
    [top] + list[..i] + list[i + 1..]
  }

  datatype Pushed = Pushed(list: seq<Entry>, changed: bool)

  /** A push moves the first match to the front, filling its blanks, or puts a new entry there,
      at the expense of the last one when the list is full. */
  ghost function Push(env: Paths, cap: nat, list: seq<Entry>, e: Entry): (p: Pushed)
    requires 1 <= cap && |list| <= cap && Searchable(env, e, list)
    ensures |p.list| <= cap
  {
    match Resolve(env, e)
    case None => Pushed(list, false)
    case Some(r) =>
      var i := FirstMatch(env, e, r, list);
      if i < |list| then
        var top := Fill(list[i], e);
        Pushed(Bump(list, i, top), i > 0 || top != list[0])
      else
        Pushed([NewEntry(e, r)] + Take(list, cap - 1), true)
  }

  /** `playlist_push_runtime`, given what slot 0 of the array holds once a full list has
      given up its last slot. */
  ghost function PushRuntime(env: Paths, cap: nat, list: seq<Entry>, e: Entry, slot: Entry): (p: Pushed)
    requires 1 <= cap && |list| <= cap
    ensures |p.list| <= cap
  {
    match ResolveRuntime(env, e)
    case None => Pushed(list, false)
    case Some(r) =>
      var i := FirstSameContent(env, r, list);
      if i < |list| then
        Pushed(Bump(list, i, list[i]), i > 0)
      else
        Pushed([NewRuntimeEntry(e, r, slot)] + Take(list, cap - 1), true)
  }

  function Delete(list: seq<Entry>, i: nat): seq<Entry>
    requires i < |list|
  {
    list[..i] + list[i + 1..]
  }

  /** A non-NULL update string that is not the stored pointer itself replaces the stored one. */
  function UpdateField(prior: Option<string>, update: Option<string>): Option<string> {
    if update.Some? then update else prior
  }

  function Update(e: Entry, u: Entry): Entry {
    e.(path := UpdateField(e.path, u.path),
       labelText := UpdateField(e.labelText, u.labelText),
       corePath := UpdateField(e.corePath, u.corePath),
       coreName := UpdateField(e.coreName, u.coreName),
       dbName := UpdateField(e.dbName, u.dbName),
       crc32 := UpdateField(e.crc32, u.crc32))
  }

  predicate Updates(u: Entry) {
    u.path.Some? || u.labelText.Some? || u.corePath.Some? || u.coreName.Some? || u.dbName.Some? || u.crc32.Some?
  }

  function UpdateRuntime(e: Entry, u: Entry): Entry {
    e.(path := UpdateField(e.path, u.path), corePath := UpdateField(e.corePath, u.corePath), runtime := u.runtime)
  }

  predicate UpdatesRuntime(e: Entry, u: Entry) {
    u.path.Some? || u.corePath.Some? || u.runtime != e.runtime
  }

  /** `playlist_set_default_core_path` and `_name`: an empty value is ignored. */
  function NewDefault(prior: Option<string>, value: string): Option<string> {
    if value == "" then prior else Some(value)
  }
}
