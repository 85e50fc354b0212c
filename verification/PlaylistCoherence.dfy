/** The `modified` flag: whenever it is clear, the file last written (or loaded) reads back to what the
    playlist now holds, as far as a playlist file can tell. */
module PlaylistCoherence {
  import opened CText
  import opened JsonEvents
  import opened PlaylistModel
  import opened PlaylistJson
  import opened PlaylistJsonWriter
  import opened PlaylistJsonRoundTrip

  datatype State = State(
    list: seq<Entry>,
    defaultPath: Option<string>,
    defaultName: Option<string>,
    modified: bool,
    file: seq<Event>)

  /** `playlist_init` on an existing file. */
  ghost function Loaded(cap: nat, file: seq<Event>): State {
    var c := RunEvents(Fresh(cap), file).context;
    State(Take(c.slots, c.size), c.defaultPath, c.defaultName, false, file)
  }

  function SameText(a: Option<string>, b: Option<string>): bool {
    NonEmpty(Str(a)) == NonEmpty(Str(b))
  }

  /** Two states that any playlist file would show alike. */
  ghost predicate SameView(a: State, b: State) {
    && PersistedList(a.list) == PersistedList(b.list)
    && SameText(a.defaultPath, b.defaultPath) && SameText(a.defaultName, b.defaultName)
  }

  ghost predicate Coherent(cap: nat, s: State) {
    && |s.list| <= cap
    && (!s.modified ==> SameView(Loaded(cap, s.file), s))
  }

  datatype Operation =
    | PushOp(env: Paths, entry: Entry)
    | PushRuntimeOp(env: Paths, entry: Entry, slot: Entry)
    | UpdateOp(index: nat, update: Entry)
    | UpdateRuntimeOp(index: nat, update: Entry, register: bool)
    | DeleteOp(index: nat)
    | SetDefaultPathOp(path: string)
    | SetDefaultNameOp(name: string)
    | WriteOp(canOpen: bool)

  /** What the operations ask of their caller. A runtime update that is not registered must leave the
      paths alone. */
  ghost predicate Allowed(s: State, op: Operation) {
    match op
    case PushOp(env, e) => Searchable(env, e, s.list)
    case PushRuntimeOp(_, _, _) => true
    case UpdateOp(i, _) => i < |s.list|
    case UpdateRuntimeOp(i, u, register) => i < |s.list| && (register || (u.path.None? && u.corePath.None?))
    case DeleteOp(i) => i < |s.list|
    case SetDefaultPathOp(_) => true
    case SetDefaultNameOp(_) => true
    case WriteOp(_) => Writable(s.list)
  }

  function AfterUpdateRuntime(s: State, i: nat, u: Entry, register: bool): State
    requires i < |s.list|
  {
    s.(list := s.list[i := UpdateRuntime(s.list[i], u)],
       modified := s.modified || (register && UpdatesRuntime(s.list[i], u)))
  }

  ghost function After(cap: nat, s: State, op: Operation): State
    requires 1 <= cap && |s.list| <= cap && Allowed(s, op)
  {
    match op
    case PushOp(env, e) =>
      var p := Push(env, cap, s.list, e);
      s.(list := p.list, modified := s.modified || p.changed)
    case PushRuntimeOp(env, e, slot) =>
      var p := PushRuntime(env, cap, s.list, e, slot);
      s.(list := p.list, modified := s.modified || p.changed)
    case UpdateOp(i, u) =>
      s.(list := s.list[i := Update(s.list[i], u)], modified := s.modified || Updates(u))
    case UpdateRuntimeOp(i, u, register) => AfterUpdateRuntime(s, i, u, register)
    case DeleteOp(i) => s.(list := Delete(s.list, i), modified := true)
    case SetDefaultPathOp(v) =>
      var d := NewDefault(s.defaultPath, v);
      s.(defaultPath := d, modified := s.modified || d != s.defaultPath)
    case SetDefaultNameOp(v) =>
      var d := NewDefault(s.defaultName, v);
      s.(defaultName := d, modified := s.modified || d != s.defaultName)
    case WriteOp(canOpen) =>
      if s.modified && canOpen then s.(modified := false, file := FileEvents(s.list, s.defaultPath, s.defaultName))
      else s
  }

  lemma {:induction false} NonEmptyOnesIdempotent(roms: seq<string>)
    ensures NonEmptyOnes(NonEmptyOnes(roms)) == NonEmptyOnes(roms)
  {
    if roms != [] {
      var n := |roms| - 1;
      NonEmptyOnesIdempotent(roms[..n]);
      var kept := NonEmptyOnes(roms);
      if roms[n] != "" {
        assert kept[..|kept| - 1] == NonEmptyOnes(roms[..n]);
      } else {
        assert kept == NonEmptyOnes(roms[..n]);
      }
    }
  }

  lemma PersistedIdempotent(e: Entry)
    ensures Persisted(Persisted(e)) == Persisted(e)
  {
    if e.subsystemRoms.Some? {
      NonEmptyOnesIdempotent(e.subsystemRoms.value);
    }
  }

  /** A file just written reads back to the state it was written from. */
  lemma WrittenFileIsCoherent(cap: nat, s: State)
    requires |s.list| <= cap
    ensures SameView(Loaded(cap, FileEvents(s.list, s.defaultPath, s.defaultName)), s)
  {
    JsonRoundTrip(s.list, s.defaultPath, s.defaultName, cap);
    var loaded := Loaded(cap, FileEvents(s.list, s.defaultPath, s.defaultName));
    assert loaded.list == PersistedList(s.list);
    forall i | 0 <= i < |s.list|
      ensures PersistedList(loaded.list)[i] == PersistedList(s.list)[i]
    {
      PersistedIdempotent(s.list[i]);
    }
  }

  lemma PushKeepsCoherence(env: Paths, cap: nat, list: seq<Entry>, e: Entry)
    requires 1 <= cap && |list| <= cap && Searchable(env, e, list)
    ensures !Push(env, cap, list, e).changed ==> Push(env, cap, list, e).list == list
  {
    var resolved := Resolve(env, e);
    if resolved.Some? {
      var i := FirstMatch(env, e, resolved.value, list);
      if i < |list| && i == 0 {
        assert Bump(list, 0, list[0]) == list;
      }
    }
  }

  lemma PushRuntimeKeepsCoherence(env: Paths, cap: nat, list: seq<Entry>, e: Entry, slot: Entry)
    requires 1 <= cap && |list| <= cap
    ensures !PushRuntime(env, cap, list, e, slot).changed ==> PushRuntime(env, cap, list, e, slot).list == list
  {
    var resolved := ResolveRuntime(env, e);
    if resolved.Some? {
      var i := FirstSameContent(env, resolved.value, list);
      if i < |list| && i == 0 {
        assert Bump(list, 0, list[0]) == list;
      }
    }
  }

  lemma ReplacedEntryView(list: seq<Entry>, i: nat, e: Entry)
    requires i < |list|
    ensures PersistedList(list[i := e]) == PersistedList(list) <==> Persisted(e) == Persisted(list[i])
  {
    var after := PersistedList(list[i := e]);
    assert after[i] == Persisted(e);
    if Persisted(e) == Persisted(list[i]) {
      assert after == PersistedList(list);
    }
  }

  /** An unmodified playlist stays coherent through a runtime update exactly when the update is
      registered as a change or leaves both paths with the text they had. */
  lemma RuntimeUpdateCoherence(cap: nat, s: State, i: nat, u: Entry, register: bool)
    requires Coherent(cap, s) && i < |s.list|
    ensures var after := AfterUpdateRuntime(s, i, u, register);
            Coherent(cap, after) <==>
            after.modified ||
            (SameText(UpdateField(s.list[i].path, u.path), s.list[i].path) &&
             SameText(UpdateField(s.list[i].corePath, u.corePath), s.list[i].corePath))
  {
    ReplacedEntryView(s.list, i, UpdateRuntime(s.list[i], u));
  }

  /** Clearing a playlist does not set the flag: an unmodified playlist stays coherent exactly when
      it was empty already. */
  lemma ClearCoherence(cap: nat, s: State)
    requires Coherent(cap, s)
    ensures Coherent(cap, s.(list := [])) <==> s.modified || s.list == []
  {
    assert |PersistedList(s.list)| == |s.list|;
  }

  lemma PushStepKeepsCoherence(cap: nat, s: State, op: Operation)
    requires 1 <= cap && Coherent(cap, s) && Allowed(s, op) && (op.PushOp? || op.PushRuntimeOp?)
    ensures Coherent(cap, After(cap, s, op))
  {
    if op.PushOp? {
      PushKeepsCoherence(op.env, cap, s.list, op.entry);
    } else {
      PushRuntimeKeepsCoherence(op.env, cap, s.list, op.entry, op.slot);
    }
  }

  lemma UpdateKeepsCoherence(cap: nat, s: State, i: nat, u: Entry)
    requires 1 <= cap && Coherent(cap, s) && i < |s.list|
    ensures Coherent(cap, After(cap, s, UpdateOp(i, u)))
  {
    if !Updates(u) {
      assert s.list[i := Update(s.list[i], u)] == s.list;
    }
  }

  lemma WriteKeepsCoherence(cap: nat, s: State, canOpen: bool)
    requires 1 <= cap && Coherent(cap, s) && Writable(s.list)
    ensures Coherent(cap, After(cap, s, WriteOp(canOpen)))
  {
    WrittenFileIsCoherent(cap, s);
  }

  lemma DefaultKeepsCoherence(cap: nat, s: State, op: Operation)
    requires 1 <= cap && Coherent(cap, s) && (op.SetDefaultPathOp? || op.SetDefaultNameOp?)
    ensures Coherent(cap, After(cap, s, op))
  {
  }

  lemma StepKeepsCoherence(cap: nat, s: State, op: Operation)
    requires 1 <= cap && Coherent(cap, s) && Allowed(s, op)
    ensures Coherent(cap, After(cap, s, op))
  {
    match op {
      case PushOp(_, _) => PushStepKeepsCoherence(cap, s, op);
      case PushRuntimeOp(_, _, _) => PushStepKeepsCoherence(cap, s, op);
      case UpdateOp(i, u) => UpdateKeepsCoherence(cap, s, i, u);
      case UpdateRuntimeOp(i, u, register) => RuntimeUpdateCoherence(cap, s, i, u, register);
      case DeleteOp(i) =>
      case SetDefaultPathOp(_) => DefaultKeepsCoherence(cap, s, op);
      case SetDefaultNameOp(_) => DefaultKeepsCoherence(cap, s, op);
      case WriteOp(canOpen) => WriteKeepsCoherence(cap, s, canOpen);
    }
  }

  ghost predicate Run(cap: nat, states: seq<State>, ops: seq<Operation>) {
    && 1 <= cap && |states| == |ops| + 1
    && forall k :: 0 <= k < |ops| ==>
         |states[k].list| <= cap && Allowed(states[k], ops[k]) && states[k + 1] == After(cap, states[k], ops[k])
  }

  /** From a loaded file on, through every run of pushes, updates, deletions, default core changes and
      writes that may fail to open the file: a clear flag means that the file shows the playlist. */
  lemma {:induction false} CoherentThroughout(cap: nat, file: seq<Event>, states: seq<State>,
                                              ops: seq<Operation>, k: nat)
    requires Run(cap, states, ops) && states[0] == Loaded(cap, file) && k < |states|
    ensures Coherent(cap, states[k])
  {
    if k > 0 {
      CoherentThroughout(cap, file, states, ops, k - 1);
      StepKeepsCoherence(cap, states[k - 1], ops[k - 1]);
    }
  }
}
