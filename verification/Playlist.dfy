/** `content_playlist` and its operations on the fixed array of slots. */
module Playlist {
  import opened CText
  import opened PlaylistModel
  import opened PlaylistSlots

  lemma NothingWritten<T>(was: seq<T>, dst: nat, src: nat)
    requires dst <= |was| && src <= |was|
    ensures Overwritten(was, dst, src, 0) == was
  {
  }

  /** Writing one more slot from below, which the slots written so far have not touched. */
  lemma OneSlotLower<T>(was: seq<T>, dst: nat, src: nat, n: nat)
    requires src <= dst && dst + n <= |was| && 1 <= n
    ensures Overwritten(was, dst + 1, src + 1, n - 1)[src] == was[src]
    ensures Overwritten(was, dst + 1, src + 1, n - 1)[dst := was[src]] == Overwritten(was, dst, src, n)
  {
  }

  /** Writing one more slot from above. */
  lemma OneSlotHigher<T>(was: seq<T>, dst: nat, src: nat, n: nat)
    requires dst < src && src + n < |was|
    ensures Overwritten(was, dst, src, n)[src + n] == was[src + n]
    ensures Overwritten(was, dst, src, n)[dst + n := was[src + n]] == Overwritten(was, dst, src, n + 1)
  {
  }

  /** `memmove` inside one array: the direction of copying depends on how the ranges overlap. */
  method MemMove<T>(a: array<T>, dst: nat, src: nat, n: nat)
    requires dst + n <= a.Length && src + n <= a.Length
    modifies a
    ensures a[..] == old(Overwritten(a[..], dst, src, n))
  {
    if dst < src {
      CopyUpwards(a, dst, src, n);
    } else {
      CopyDownwards(a, dst, src, n);
    }
  }

  method CopySlot<T>(a: array<T>, dst: nat, src: nat)
    requires dst < a.Length && src < a.Length
    modifies a
    ensures a[..] == old(a[..])[dst := old(a[..])[src]]
  {
    a[dst] := a[src];
  }

  method CopyUpwards<T>(a: array<T>, dst: nat, src: nat, n: nat)
    requires dst < src && src + n <= a.Length
    modifies a
    ensures a[..] == old(Overwritten(a[..], dst, src, n))
  {
    ghost var was := a[..];
    var k := 0;
    NothingWritten(was, dst, src);
    while k < n
      invariant k <= n
      invariant a[..] == Overwritten(was, dst, src, k)
    {
      OneSlotHigher(was, dst, src, k);
      CopySlot(a, dst + k, src + k);
      k := k + 1;
    }
  }

  method CopyDownwards<T>(a: array<T>, dst: nat, src: nat, n: nat)
    requires src <= dst && dst + n <= a.Length
    modifies a
    ensures a[..] == old(Overwritten(a[..], dst, src, n))
  {
    ghost var was := a[..];
    var k := n;
    NothingWritten(was, dst + k, src + k);
    while k > 0
      invariant 0 <= k <= n
      invariant a[..] == Overwritten(was, dst + k, src + k, n - k)
    {
      k := k - 1;
      OneSlotLower(was, dst + k, src + k, n - k);
      CopySlot(a, dst + k, src + k);
    }
  }

  /** The loop over two ROM lists inside the match test. */
  method CompareRoms(env: Paths, pushed: seq<string>, stored: seq<string>) returns (equal: bool)
    ensures equal == SameRoms(env, pushed, stored)
  {
    if |pushed| != |stored| {
      return false;
    }
    var j := 0;
    while j < |pushed|
      invariant j <= |pushed|
      invariant forall k :: 0 <= k < j ==> env.PathEqual(RealRom(env, pushed[k]), Some(stored[k]))
    {
      if !env.PathEqual(RealRom(env, pushed[j]), Some(stored[j])) {
        return false;
      }
      j := j + 1;
    }
    return true;
  }

  class Playlist {
    var modified: bool
    var size: nat
    var defaultCorePath: Option<string>
    var defaultCoreName: Option<string>
    const entries: array<Entry>

    ghost predicate Valid()
      reads this
    {
      size <= entries.Length
    }

    function Capacity(): nat {
      entries.Length
    }

    /** The live entries, most recent first. */
    ghost function List(): (list: seq<Entry>)
      requires Valid()
      reads this, entries
    {
      entries[..size]
    }

    /** The array and how much of it is live. */
    ghost function State(): Slots
      reads this, entries
    {
      Slots(entries[..], size)
    }

    /** `playlist_init` without a file behind it. */
    constructor (cap: nat)
      ensures Valid() && fresh(entries) && Capacity() == cap
      ensures !modified && List() == []
      ensures entries[..] == seq(cap, _ => BLANK)
      ensures defaultCorePath == None && defaultCoreName == None
    {
      modified := false;
      size := 0;
      defaultCorePath := None;
      defaultCoreName := None;
      entries := new Entry[cap](_ => BLANK);
    }

    /** The search loop of `playlist_push`. */
    method Find(env: Paths, e: Entry, r: Resolved) returns (i: nat)
      requires Valid() && Readable(env, e, r, List())
      ensures i == FirstMatch(env, e, r, List())
    {
      i := 0;
      while i < size
        invariant i <= size && Readable(env, e, r, List()[i..])
        invariant FirstMatch(env, e, r, List()) == i + FirstMatch(env, e, r, List()[i..])
      {
        var stored := entries[i];
        assert stored == List()[i..][0] && List()[i..][1..] == List()[i + 1..];
        if SameContent(env, r, stored) &&
           SameName(e.subsystemIdent, stored.subsystemIdent) &&
           SameName(e.subsystemName, stored.subsystemName)
        {
          if e.subsystemRoms.None? {
            return;
          }
          var equal := CompareRoms(env, e.subsystemRoms.value, stored.subsystemRoms.value);
          if equal {
            return;
          }
        }
        i := i + 1;
      }
    }

    /** The search loop of `playlist_push_runtime`. */
    method FindContent(env: Paths, r: Resolved) returns (i: nat)
      requires Valid()
      ensures i == FirstSameContent(env, r, List())
    {
      i := 0;
      while i < size
        invariant i <= size
        invariant forall j :: 0 <= j < i ==> !SameContent(env, r, List()[j])
      {
        assert entries[i] == List()[i];
        if SameContent(env, r, entries[i]) {
          return;
        }
        i := i + 1;
      }
    }

    /** "Seen it before, bump to top." */
    method BumpToTop(i: nat)
      requires Valid() && i < size
      modifies entries
      ensures entries[..] == old(Bump(entries[..], i, entries[i]))
    {
      var tmp := entries[i];
      ghost var was := entries[..];
      MemMove(entries, 1, 0, i);
      assert entries[..] == was[..1] + was[..i] + was[i + 1..];
      entries[0] := tmp;
    }

    /** Frees the last slot of a full array, then shifts every slot down by one. */
    method MakeRoomOnTop()
      requires Valid() && 1 <= Capacity()
      modifies this`size, entries
      ensures Valid() && size == old(Min(size, entries.Length - 1))
      ensures entries[..] == old([TopSlot(State())] + entries[..entries.Length - 1])
    {
      if size == entries.Length {
        entries[entries.Length - 1] := BLANK;
        size := size - 1;
      }
      ghost var was := entries[..];
      MemMove(entries, 1, 0, entries.Length - 1);
      assert entries[..] == was[..1] + was[..entries.Length - 1];
    }

    /** Filling in the blanks of a matched entry. */
    method FillBlanks(i: nat, e: Entry) returns (updated: bool)
      requires Valid() && i < size
      modifies entries
      ensures entries[..] == old(entries[..])[i := old(Fill(entries[i], e))]
      ensures updated == (entries[i] != old(entries[i]))
    {
      updated := false;
      if entries[i].labelText.None? && !Empty(e.labelText) {
        entries[i] := entries[i].(labelText := e.labelText);
        updated := true;
      }
      if entries[i].crc32.None? && !Empty(e.crc32) {
        entries[i] := entries[i].(crc32 := e.crc32);
        updated := true;
      }
      if entries[i].dbName.None? && !Empty(e.dbName) {
        entries[i] := entries[i].(dbName := e.dbName);
        updated := true;
      }
    }

    /** Resetting slot 0 and writing a pushed entry to it. */
    method WriteNewEntry(e: Entry, r: Resolved)
      requires 1 <= Capacity()
      modifies entries
      ensures entries[..] == old(entries[..])[0 := NewEntry(e, r)]
    {
      var slot := BLANK;
      if r.path != "" {
        slot := slot.(path := Some(r.path));
      }
      if !Empty(e.labelText) {
        slot := slot.(labelText := e.labelText);
      }
      if r.corePath != "" {
        slot := slot.(corePath := Some(r.corePath));
      }
      if r.coreName != "" {
        slot := slot.(coreName := Some(r.coreName));
      }
      slot := AddDetails(slot, e);
      entries[0] := slot.(subsystemRoms := e.subsystemRoms);
    }

    static method AddDetails(blank: Entry, e: Entry) returns (slot: Entry)
      requires blank.dbName.None? && blank.crc32.None? && blank.subsystemIdent.None? && blank.subsystemName.None?
      ensures slot == blank.(dbName := NonEmpty(Str(e.dbName)), crc32 := NonEmpty(Str(e.crc32)),
                             subsystemIdent := NonEmpty(Str(e.subsystemIdent)),
                             subsystemName := NonEmpty(Str(e.subsystemName)))
    {
      slot := blank;
      if !Empty(e.dbName) {
        slot := slot.(dbName := e.dbName);
      }
      if !Empty(e.crc32) {
        slot := slot.(crc32 := e.crc32);
      }
      if !Empty(e.subsystemIdent) {
        slot := slot.(subsystemIdent := e.subsystemIdent);
      }
      if !Empty(e.subsystemName) {
        slot := slot.(subsystemName := e.subsystemName);
      }
    }

    /** A push that finds its entry at i: only an unchanged top entry is no change. */
    method TakeMatch(i: nat, e: Entry) returns (changed: bool)
      requires Valid() && i < size
      modifies entries
      ensures entries[..] == old(Bump(entries[..], i, Fill(entries[i], e)))
      ensures changed == (i > 0 || entries[0] != old(entries[0]))
    {
      ghost var was := entries[..];
      var updated := FillBlanks(i, e);
      if i == 0 {
        assert entries[..] == Bump(was, 0, entries[0]);
        return updated;
      }
      BumpToTop(i);
      return true;
    }

    /** `playlist_push`: on the array, and seen through the live entries. */
    method PushEntry(env: Paths, e: Entry) returns (changed: bool)
      requires Valid() && 1 <= Capacity() && Searchable(env, e, List())
      modifies this`size, this`modified, entries
      ensures Valid() && State() == old(PushSlots(env, State(), e))
      ensures Pushed(List(), changed) == old(Push(env, Capacity(), List(), e))
      ensures modified == (old(modified) || changed)
    {
      ghost var before := State();
      PushSlotsList(env, before, e);
      var resolved := Resolve(env, e);
      if resolved.None? {
        return false;
      }
      var r := resolved.value;
      var i := Find(env, e, r);
      if i < size {
        changed := TakeMatch(i, e);
      } else {
        PushNew(e, r);
        changed := true;
      }
      if changed {
        modified := true;
      }
    }

    /** Making room on top and writing the new entry there. */
    method PushNew(e: Entry, r: Resolved)
      requires Valid() && 1 <= Capacity()
      modifies this`size, entries
      ensures State() == old(Topped(State(), NewEntry(e, r)))
    {
      MakeRoomOnTop();
      WriteNewEntry(e, r);
      size := size + 1;
    }

    /** `playlist_push_runtime`: on the array, and seen through the live entries. */
    method PushRuntimeEntry(env: Paths, e: Entry) returns (changed: bool)
      requires Valid() && 1 <= Capacity()
      modifies this`size, this`modified, entries
      ensures Valid() && State() == old(PushRuntimeSlots(env, State(), e))
      ensures Pushed(List(), changed) ==
              old(PushRuntime(env, Capacity(), List(), e, TopSlot(State())))
      ensures modified == (old(modified) || changed)
    {
      ghost var before := State();
      PushRuntimeSlotsList(env, before, e);
      var resolved := ResolveRuntime(env, e);
      if resolved.None? {
        return false;
      }
      var r := resolved.value;
      var i := FindContent(env, r);
      if i < size {
        if i == 0 {
          assert entries[..] == Bump(entries[..], 0, entries[0]);
          return false;
        }
        BumpToTop(i);
      } else {
        PushNewRuntime(e, r);
      }
      modified := true;
      return true;
    }

    /** Making room on top and writing paths and play times there, over what the slot holds. */
    method PushNewRuntime(e: Entry, r: Resolved)
      requires Valid() && 1 <= Capacity()
      modifies this`size, entries
      ensures State() == old(Topped(State(), NewRuntimeEntry(e, r, TopSlot(State()))))
    {
      MakeRoomOnTop();
      var slot := entries[0].(path := None, corePath := None);
      if r.path != "" {
        slot := slot.(path := Some(r.path));
      }
      if r.corePath != "" {
        slot := slot.(corePath := Some(r.corePath));
      }
      entries[0] := slot.(runtime := e.runtime);
      size := size + 1;
    }

    /** `playlist_delete_index` */
    method DeleteIndex(i: nat)
      requires Valid() && i < size
      modifies this`size, this`modified, entries
      ensures Valid() && modified && State() == old(DeleteSlots(State(), i))
      ensures List() == old(Delete(List(), i))
    {
      DeleteSlotsList(State(), i);
      size := size - 1;
      MemMove(entries, i, i + 1, size - i);
      modified := true;
    }

    /** `playlist_update`. An index behind the last entry is let through and writes a slot that is not live. */
    method UpdateIndex(i: nat, u: Entry)
      requires Valid() && (i == size ==> size < Capacity())
      modifies this`modified, entries
      ensures Valid()
      ensures entries[..] == if i <= size then old(entries[..])[i := old(Update(entries[i], u))] else old(entries[..])
      ensures List() == if i < size then old(List())[i := old(Update(entries[i], u))] else old(List())
      ensures modified == (old(modified) || (i <= size && Updates(u)))
    {
      if i > size {
        return;
      }
      var slot, changed := UpdateSlot(entries[i], u);
      if changed {
        modified := true;
      }
      StoreSlot(i, slot);
    }

    static method UpdateSlot(was: Entry, u: Entry) returns (slot: Entry, changed: bool)
      ensures slot == Update(was, u) && changed == Updates(u)
    {
      slot, changed := was, false;
      if u.path.Some? {
        slot, changed := slot.(path := u.path), true;
      }
      if u.labelText.Some? {
        slot, changed := slot.(labelText := u.labelText), true;
      }
      if u.corePath.Some? {
        slot, changed := slot.(corePath := u.corePath), true;
      }
      if u.coreName.Some? {
        slot, changed := slot.(coreName := u.coreName), true;
      }
      if u.dbName.Some? {
        slot, changed := slot.(dbName := u.dbName), true;
      }
      if u.crc32.Some? {
        slot, changed := slot.(crc32 := u.crc32), true;
      }
    }

    /** `playlist_update_runtime`, with the same bound on the index. */
    method UpdateRuntimeIndex(i: nat, u: Entry, registerUpdate: bool)
      requires Valid() && (i == size ==> size < Capacity())
      modifies this`modified, entries
      ensures Valid()
      ensures entries[..] ==
              if i <= size then old(entries[..])[i := old(UpdateRuntime(entries[i], u))] else old(entries[..])
      ensures List() == if i < size then old(List())[i := old(UpdateRuntime(entries[i], u))] else old(List())
      ensures modified == (old(modified) || (i <= size && registerUpdate && old(UpdatesRuntime(entries[i], u))))
    {
      if i > size {
        return;
      }
      var slot := entries[i];
      var changed := false;
      if u.path.Some? {
        slot := slot.(path := u.path);
        changed := true;
      }
      if u.corePath.Some? {
        slot := slot.(corePath := u.corePath);
        changed := true;
      }
      if u.runtime != slot.runtime {
        slot := slot.(runtime := u.runtime);
        changed := true;
      }
      modified := modified || (changed && registerUpdate);
      StoreSlot(i, slot);
    }

    method StoreSlot(i: nat, slot: Entry)
      requires Valid() && i <= size && i < Capacity()
      modifies entries
      ensures entries[..] == old(entries[..])[i := slot]
      ensures List() == if i < size then old(List())[i := slot] else old(List())
    {
      entries[i] := slot;
    }

    /** `playlist_set_default_core_path` */
    method SetDefaultCorePath(env: Paths, corePath: Option<string>)
      requires Valid()
      modifies this`modified, this`defaultCorePath
      ensures Valid()
      ensures defaultCorePath ==
              NewDefault(old(defaultCorePath), if Empty(corePath) then "" else env.RealCore(corePath.value))
      ensures modified == (old(modified) || defaultCorePath != old(defaultCorePath))
    {
      if Empty(corePath) {
        return;
      }
      var realCore := env.RealCore(corePath.value);
      if realCore == "" {
        return;
      }
      if defaultCorePath != Some(realCore) {
        defaultCorePath := Some(realCore);
        modified := true;
      }
    }

    /** `playlist_set_default_core_name` */
    method SetDefaultCoreName(coreName: Option<string>)
      requires Valid()
      modifies this`modified, this`defaultCoreName
      ensures Valid()
      ensures defaultCoreName == NewDefault(old(defaultCoreName), Str(coreName))
      ensures modified == (old(modified) || defaultCoreName != old(defaultCoreName))
    {
      if Empty(coreName) {
        return;
      }
      if defaultCoreName != coreName {
        defaultCoreName := coreName;
        modified := true;
      }
    }

    /** `playlist_clear`, which leaves `modified` alone. */
    method Clear()
      requires Valid()
      modifies this`size, entries
      ensures Valid() && State() == old(ClearSlots(State())) && List() == []
    {
      var i := 0;
      while i < size
        invariant Valid() && i <= size == old(size)
        invariant forall k :: 0 <= k < entries.Length ==> entries[k] == if k < i then BLANK else old(entries[k])
      {
        entries[i] := BLANK;
        i := i + 1;
      }
      size := 0;
      assert entries[..] == old(ClearSlots(State())).entries;
    }
  }
}
