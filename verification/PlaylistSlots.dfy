/** The whole array of slots, stale ones behind the last live entry included: deleting leaves them
    behind, and a runtime push takes over what slot 0 holds. */
module PlaylistSlots {
  import opened CText
  import opened PlaylistModel

  datatype Slots = Slots(entries: seq<Entry>, size: nat)
  {
    predicate Valid() {
      size <= |entries|
    }

    /** The live entries, most recent first. */
    function List(): seq<Entry>
      requires Valid()
    {
      entries[..size]
    }
  }

  /** What an array holds after n of its slots, as they were, are written from `dst` on. */
  function Overwritten<T>(was: seq<T>, dst: nat, src: nat, n: nat): (r: seq<T>)
    requires dst + n <= |was| && src + n <= |was|
    ensures |r| == |was|
  {
    seq(|was|, k requires 0 <= k < |was| => if dst <= k < dst + n then was[src + k - dst] else was[k])
  }

  /** What slot 0 holds when a push is about to write it: the old top entry, or what a deleted one left
      there, unless a full array of one slot has just been freed. */
  function TopSlot(s: Slots): Entry
    requires 1 <= |s.entries|
  {
    if s.size == |s.entries| == 1 then BLANK else s.entries[0]
  }

  /** A new top entry: every slot moves down by one, and what the last one held is gone. */
  function Topped(s: Slots, top: Entry): (after: Slots)
    requires 1 <= |s.entries|
    ensures |after.entries| == |s.entries|
  {
    Slots([top] + s.entries[..|s.entries| - 1], Min(s.size, |s.entries| - 1) + 1)
  }

  /** `playlist_push` on the array. */
  ghost function PushSlots(env: Paths, s: Slots, e: Entry): (after: Slots)
    requires s.Valid() && 1 <= |s.entries| && Searchable(env, e, s.List())
    ensures |after.entries| == |s.entries|
  {
    match Resolve(env, e)
    case None => s
    case Some(r) =>
      var i := FirstMatch(env, e, r, s.List());
      if i < s.size then Slots(Bump(s.entries, i, Fill(s.entries[i], e)), s.size)
      else Topped(s, NewEntry(e, r))
  }

  /** `playlist_push_runtime` on the array. */
  ghost function PushRuntimeSlots(env: Paths, s: Slots, e: Entry): (after: Slots)
    requires s.Valid() && 1 <= |s.entries|
    ensures |after.entries| == |s.entries|
  {
    match ResolveRuntime(env, e)
    case None => s
    case Some(r) =>
      var i := FirstSameContent(env, r, s.List());
      if i < s.size then Slots(Bump(s.entries, i, s.entries[i]), s.size)
      else Topped(s, NewRuntimeEntry(e, r, TopSlot(s)))
  }

  /** `playlist_delete_index` on the array: the slot behind the new last entry keeps what it held. */
  function DeleteSlots(s: Slots, i: nat): (after: Slots)
    requires s.Valid() && i < s.size
    ensures |after.entries| == |s.entries|
  {
    Slots(Overwritten(s.entries, i, i + 1, s.size - 1 - i), s.size - 1)
  }

  /** `playlist_clear` on the array. */
  function ClearSlots(s: Slots): (after: Slots)
    requires s.Valid()
    ensures |after.entries| == |s.entries|
  {
    Slots(seq(|s.entries|, k requires 0 <= k < |s.entries| => if k < s.size then BLANK else s.entries[k]), 0)
  }

  lemma BumpedList(s: Slots, i: nat, top: Entry)
    requires s.Valid() && i < s.size
    ensures Bump(s.entries, i, top)[..s.size] == Bump(s.List(), i, top)
  {
  }

  lemma ToppedList(s: Slots, top: Entry)
    requires s.Valid() && 1 <= |s.entries|
    ensures Topped(s, top).Valid()
    ensures Topped(s, top).List() == [top] + Take(s.List(), |s.entries| - 1)
  {
  }

  /** Seen through the live entries, a push on the array is the push on the list. */
  lemma PushSlotsList(env: Paths, s: Slots, e: Entry)
    requires s.Valid() && 1 <= |s.entries| && Searchable(env, e, s.List())
    ensures PushSlots(env, s, e).Valid()
    ensures PushSlots(env, s, e).List() == Push(env, |s.entries|, s.List(), e).list
  {
    var resolved := Resolve(env, e);
    if resolved.Some? {
      var i := FirstMatch(env, e, resolved.value, s.List());
      if i < s.size {
        BumpedList(s, i, Fill(s.entries[i], e));
      } else {
        ToppedList(s, NewEntry(e, resolved.value));
      }
    }
  }

  lemma PushRuntimeSlotsList(env: Paths, s: Slots, e: Entry)
    requires s.Valid() && 1 <= |s.entries|
    ensures PushRuntimeSlots(env, s, e).Valid()
    ensures PushRuntimeSlots(env, s, e).List() == PushRuntime(env, |s.entries|, s.List(), e, TopSlot(s)).list
  {
    var resolved := ResolveRuntime(env, e);
    if resolved.Some? {
      var i := FirstSameContent(env, resolved.value, s.List());
      if i < s.size {
        BumpedList(s, i, s.entries[i]);
      } else {
        ToppedList(s, NewRuntimeEntry(e, resolved.value, TopSlot(s)));
      }
    }
  }

  lemma DeleteSlotsList(s: Slots, i: nat)
    requires s.Valid() && i < s.size
    ensures DeleteSlots(s, i).List() == Delete(s.List(), i)
  {
  }
}
