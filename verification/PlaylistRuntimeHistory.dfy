/** Histories of runtime pushes: the array stays free of other strings, and the list is the
    most-recently-used list of what was pushed. */
module PlaylistRuntimeHistory {
  import opened CText
  import opened PlaylistModel
  import opened PlaylistSlots
  import opened PlaylistHistory

  /** What a runtime push looks at: the rest of the pushed entry is ignored. */
  function Stripped(e: Entry): (r: Entry)
    ensures Bare(r)
  {
    BLANK.(path := e.path, corePath := e.corePath, runtime := e.runtime)
  }

  lemma RestIsIgnored(env: Paths, s: Slots, e: Entry)
    requires s.Valid() && 1 <= |s.entries|
    ensures ResolveRuntime(env, Stripped(e)) == ResolveRuntime(env, e)
    ensures PushRuntimeSlots(env, s, Stripped(e)) == PushRuntimeSlots(env, s, e)
  {
  }

  /** The array after a sequence of runtime pushes onto a new playlist. */
  ghost function PushRuntimeAll(env: Paths, cap: nat, pushes: seq<Entry>): (s: Slots)
    requires 1 <= cap
    ensures s.Valid() && |s.entries| == cap
  {
    if pushes == [] then Slots(seq(cap, _ => BLANK), 0)
    else
      var n := |pushes| - 1;
      var s := PushRuntimeAll(env, cap, pushes[..n]);
      PushRuntimeSlotsList(env, s, pushes[n]);
      PushRuntimeSlots(env, s, pushes[n])
  }

  /** Keys of the runtime pushes that were not rejected. */
  ghost function AcceptedRuntime(env: Paths, pushes: seq<Entry>): seq<Key> {
    if pushes == [] then []
    else
      var n := |pushes| - 1;
      AcceptedRuntime(env, pushes[..n]) +
      if ResolveRuntime(env, pushes[n]).Some? then [KeyOf(env, Stripped(pushes[n]))] else []
  }

  /** No slot, live or stale, holds more than paths and play times. */
  ghost predicate BareSlots(env: Paths, s: Slots) {
    s.Valid() && 1 <= |s.entries| && AllBare(s.entries) && AllWellFormed(env, s.List())
  }

  lemma BareBump(entries: seq<Entry>, i: nat)
    requires AllBare(entries) && i < |entries|
    ensures AllBare(Bump(entries, i, entries[i]))
  {
  }

  lemma BareTopped(s: Slots, top: Entry)
    requires 1 <= |s.entries| && AllBare(s.entries) && Bare(top)
    ensures AllBare(Topped(s, top).entries)
  {
  }

  lemma StaysBare(env: Paths, s: Slots, e: Entry)
    requires BareSlots(env, s)
    ensures Bare(TopSlot(s)) && AllBare(PushRuntimeSlots(env, s, e).entries)
  {
    var resolved := ResolveRuntime(env, e);
    if resolved.Some? {
      var i := FirstSameContent(env, resolved.value, s.List());
      if i < s.size {
        BareBump(s.entries, i);
      } else {
        BareTopped(s, NewRuntimeEntry(e, resolved.value, TopSlot(s)));
      }
    }
  }

  /** A runtime push of any entry onto such an array moves its content and core to the front. */
  lemma RuntimeStepOnKeys(env: Paths, s: Slots, e: Entry)
    requires env.Lawful() && BareSlots(env, s)
    ensures var after := PushRuntimeSlots(env, s, e);
            && BareSlots(env, after)
            && Keys(env, after.List()) == if ResolveRuntime(env, e).None? then Keys(env, s.List())
                                          else KeyPush(env, |s.entries|, Keys(env, s.List()), KeyOf(env, Stripped(e)))
  {
    RestIsIgnored(env, s, e);
    StaysBare(env, s, e);
    PushRuntimeSlotsList(env, s, Stripped(e));
    PushRuntimeRefinesKeyPush(env, |s.entries|, s.List(), Stripped(e), TopSlot(s));
  }

  /** Closed form: after any history of runtime pushes onto a new playlist the list shows the keys of the
      key run over those that were not rejected. */
  lemma {:induction false} PushRuntimeAllKeys(env: Paths, cap: nat, pushes: seq<Entry>)
    requires env.Lawful() && 1 <= cap
    ensures BareSlots(env, PushRuntimeAll(env, cap, pushes))
    ensures Keys(env, PushRuntimeAll(env, cap, pushes).List()) == KeyRun(env, cap, AcceptedRuntime(env, pushes))
  {
    if pushes != [] {
      var n := |pushes| - 1;
      var prefix, e := pushes[..n], pushes[n];
      PushRuntimeAllKeys(env, cap, prefix);
      RuntimeStepOnKeys(env, PushRuntimeAll(env, cap, prefix), e);
      if ResolveRuntime(env, e).Some? {
        KeyRunStep(env, cap, AcceptedRuntime(env, prefix), KeyOf(env, Stripped(e)));
        assert AcceptedRuntime(env, pushes) == AcceptedRuntime(env, prefix) + [KeyOf(env, Stripped(e))];
      } else {
        assert AcceptedRuntime(env, pushes) == AcceptedRuntime(env, prefix);
      }
    }
  }

  /** So a runtime list, too, is ordered by last push, and what is missing is older than all it shows. */
  lemma {:induction false} RuntimeLruTheorem(env: Paths, cap: nat, pushes: seq<Entry>)
    requires env.Lawful() && 1 <= cap && Exact(env, AcceptedRuntime(env, pushes))
    ensures var history := AcceptedRuntime(env, pushes);
            var shown := Keys(env, PushRuntimeAll(env, cap, pushes).List());
            && ByRecency(shown, history)
            && forall k :: k in history && k !in shown ==>
                 |shown| == cap && forall i :: 0 <= i < cap ==> LastPush(history, shown[i]) > LastPush(history, k)
  {
    var history := AcceptedRuntime(env, pushes);
    PushRuntimeAllKeys(env, cap, pushes);
    KeyRunIsMru(env, cap, history);
    MruIsByRecency(history);
    TakeByRecency(Mru(history), history, cap);
  }
}
