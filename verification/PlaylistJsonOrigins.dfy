/** Where the reader's pointers come from: each goes back to one member of the stream, so that a value ends up
    in another entry exactly when that member stands in an earlier item. */
module PlaylistJsonOrigins {
  import opened CText
  import opened JsonEvents
  import opened PlaylistModel
  import opened PlaylistJson
  import opened PlaylistJsonSafety
  import opened PlaylistJsonLeaks

  ghost function Reader(cap: nat, evs: seq<Event>): Context {
    RunEvents(Fresh(cap), evs).context
  }

  /** A legal stream that the reader takes to its end. */
  ghost predicate Read(cap: nat, evs: seq<Event>) {
    Nesting([], evs).Some? && RunEvents(Fresh(cap), evs).ending == Completed
  }

  /** Event j is a member name directly inside an item. */
  ghost predicate ItemMember(cap: nat, evs: seq<Event>, j: int) {
    0 <= j < |evs| && evs[j].Member? && Reader(cap, evs[..j]).InsideItem()
  }

  /** The slot of the item that the reader is in, or will be in next, before event j. */
  ghost function SlotAt(cap: nat, evs: seq<Event>, j: nat): nat
    requires j <= |evs|
  {
    Reader(cap, evs[..j]).size
  }

  ghost predicate ItemNumberMember(cap: nat, evs: seq<Event>, j: int) {
    ItemMember(cap, evs, j) && NumberMember(evs[j])
  }

  ghost predicate ItemRomsMember(cap: nat, evs: seq<Event>, j: int) {
    ItemMember(cap, evs, j) && TagOf(evs[j].name) == RomsTag
  }

  /** The last member of an item that takes a number, with no number at all since. */
  ghost predicate Unspent(cap: nat, evs: seq<Event>, j: int) {
    && ItemNumberMember(cap, evs, j)
    && forall k :: j < k < |evs| ==> !evs[k].Number? && !ItemNumberMember(cap, evs, k)
  }

  /** The last member of an item that takes a ROM list. */
  ghost predicate LastRoms(cap: nat, evs: seq<Event>, j: int) {
    && ItemRomsMember(cap, evs, j)
    && forall k :: j < k < |evs| ==> !ItemRomsMember(cap, evs, k)
  }

  ghost predicate NamedMember(cap: nat, evs: seq<Event>, j: int) {
    ItemMember(cap, evs, j) && evs[j].name != ""
  }

  /** The last member of an item that has a name. */
  ghost predicate LastNamed(cap: nat, evs: seq<Event>, j: int) {
    && NamedMember(cap, evs, j)
    && forall k :: j < k < |evs| ==> !NamedMember(cap, evs, k)
  }

  lemma SafeWhenRead(cap: nat, evs: seq<Event>)
    requires Read(cap, evs)
    ensures Safe(Reader(cap, evs), Nesting([], evs).value) && |Reader(cap, evs).slots| == cap
  {
    FreshIsSafe(cap);
    RunIsSafe(Fresh(cap), [], evs);
  }

  lemma OneStep(c: Context, st: seq<Frame>, ev: Event)
    requires Safe(c, st) && Nesting(st, [ev]).Some? && RunEvents(c, [ev]).ending == Completed
    ensures Nest(st, ev).Some? && Admits(c, ev) && Step(c, ev) == Stepped(RunEvents(c, [ev]).context, true)
  {
    assert [ev][1..] == [];
    StepIsSafe(c, st, ev);
  }

  /** The last event of a stream. */
  lemma LastStep(cap: nat, evs: seq<Event>) returns (st: seq<Frame>)
    requires Read(cap, evs) && evs != []
    ensures var n := |evs| - 1;
            var c := Reader(cap, evs[..n]);
            && Read(cap, evs[..n]) && Safe(c, st) && Nest(st, evs[n]).Some?
            && Admits(c, evs[n]) && Step(c, evs[n]) == Stepped(Reader(cap, evs), true)
  {
    var n := |evs| - 1;
    var prefix, ev := evs[..n], evs[n];
    assert evs == prefix + [ev];
    NestingAppend([], prefix, [ev]);
    RunAppend(Fresh(cap), prefix, [ev]);
    SafeWhenRead(cap, prefix);
    st := Nesting([], prefix).value;
    OneStep(Reader(cap, prefix), st, ev);
  }

  lemma ItemMemberOfPrefix(cap: nat, evs: seq<Event>, n: nat)
    requires n <= |evs|
    ensures forall j :: ItemMember(cap, evs[..n], j) <==> j < n && ItemMember(cap, evs, j)
    ensures forall j :: 0 <= j <= n ==> SlotAt(cap, evs[..n], j) == SlotAt(cap, evs, j)
  {
    forall j | 0 <= j <= n
      ensures evs[..n][..j] == evs[..j]
    {
    }
  }

  // ---------------------------------------------------------------- numbers

  lemma NumberPointerStep(c: Context, st: seq<Frame>, ev: Event)
    requires Safe(c, st) && Nest(st, ev).Some? && Admits(c, ev) && Step(c, ev).proceed
    ensures Step(c, ev).context.numberTarget ==
            if ev.Number? then None
            else if NumberMember(ev) && c.InsideItem() then Some(NumberTarget(c.size, TagOf(ev.name).n))
            else c.numberTarget
  {
    InsideItemIsAtItem(c, st);
  }

  /** The number pointer goes back to the last member that takes a number, if there was no number since. */
  lemma {:induction false} NumberPointerOrigin(cap: nat, evs: seq<Event>)
    requires Read(cap, evs)
    ensures var t := Reader(cap, evs).numberTarget;
            && (t.Some? ==> exists j :: Unspent(cap, evs, j))
            && forall j :: Unspent(cap, evs, j) ==>
                 t == Some(NumberTarget(SlotAt(cap, evs, j), TagOf(evs[j].name).n))
  {
    if evs != [] {
      var n := |evs| - 1;
      var c := Reader(cap, evs[..n]);
      var st := LastStep(cap, evs);
      NumberPointerStep(c, st, evs[n]);
      NumberPointerOrigin(cap, evs[..n]);
      UnspentStep(cap, evs);
      if ItemNumberMember(cap, evs, n) {
        assert Unspent(cap, evs, n);
      } else if Reader(cap, evs).numberTarget.Some? {
        var j :| Unspent(cap, evs[..n], j);
        assert Unspent(cap, evs, j);
      }
    }
  }

  lemma UnspentStep(cap: nat, evs: seq<Event>)
    requires evs != []
    ensures var n := |evs| - 1;
            forall j :: Unspent(cap, evs, j) <==>
              if ItemNumberMember(cap, evs, n) then j == n
              else !evs[n].Number? && Unspent(cap, evs[..n], j)
    ensures forall j :: 0 <= j < |evs| ==> SlotAt(cap, evs[..|evs| - 1], j) == SlotAt(cap, evs, j)
  {
    var n := |evs| - 1;
    ItemMemberOfPrefix(cap, evs, n);
    forall j
      ensures Unspent(cap, evs, j) <==> if ItemNumberMember(cap, evs, n) then j == n
                                        else !evs[n].Number? && Unspent(cap, evs[..n], j)
    {
      assert forall k :: ItemNumberMember(cap, evs[..n], k) <==> k < n && ItemNumberMember(cap, evs, k);
    }
  }

  /** Exactly when a number of a legal stream changes another entry: directly inside an item, when the last member
      that takes a number stands in that entry's item, without a number since. */
  lemma NumberLeaksExactly(cap: nat, before: seq<Event>, s: string, i: nat)
    requires Nesting([], before + [Number(s)]).Some? && RunEvents(Fresh(cap), before).ending == Completed
    requires i < cap && i != Reader(cap, before).size
    ensures var c := Reader(cap, before);
            && Admits(c, Number(s))
            && (OnNumber(c, s).slots[i] != c.slots[i] <==>
                  c.InsideItem() && s != "" &&
                  exists j :: Unspent(cap, before, j) && SlotAt(cap, before, j) == i &&
                              SetNumber(c.slots[i], TagOf(before[j].name).n, StrToUnsigned(s)) != c.slots[i])
  {
    NestingAppend([], before, [Number(s)]);
    SafeWhenRead(cap, before);
    var c, st := Reader(cap, before), Nesting([], before).value;
    assert Nesting(st, [Number(s)]).Some?;
    SafeAdmits(c, st, Number(s));
    NumberStaysInItsEntry(c, st, s);
    InsideItemIsAtItem(c, st);
    NumberPointerOrigin(cap, before);
  }

  // ---------------------------------------------------------------- ROMs

  lemma RomsPointerStep(c: Context, st: seq<Frame>, ev: Event)
    requires Safe(c, st) && Nest(st, ev).Some? && Admits(c, ev) && Step(c, ev).proceed
    ensures Step(c, ev).context.romsTarget ==
            if ev.Member? && TagOf(ev.name) == RomsTag && c.InsideItem() then Some(c.size) else c.romsTarget
  {
    InsideItemIsAtItem(c, st);
  }

  /** The ROM pointer goes back to the last member that takes a ROM list. */
  lemma {:induction false} RomsPointerOrigin(cap: nat, evs: seq<Event>)
    requires Read(cap, evs)
    ensures var t := Reader(cap, evs).romsTarget;
            && (t.Some? ==> exists j :: LastRoms(cap, evs, j))
            && forall j :: LastRoms(cap, evs, j) ==> t == Some(SlotAt(cap, evs, j))
  {
    if evs != [] {
      var n := |evs| - 1;
      var c := Reader(cap, evs[..n]);
      var st := LastStep(cap, evs);
      RomsPointerStep(c, st, evs[n]);
      RomsPointerOrigin(cap, evs[..n]);
      LastRomsStep(cap, evs);
      if ItemRomsMember(cap, evs, n) {
        assert LastRoms(cap, evs, n);
      } else if Reader(cap, evs).romsTarget.Some? {
        var j :| LastRoms(cap, evs[..n], j);
        assert LastRoms(cap, evs, j);
      }
    }
  }

  lemma LastRomsStep(cap: nat, evs: seq<Event>)
    requires evs != []
    ensures var n := |evs| - 1;
            forall j :: LastRoms(cap, evs, j) <==>
              if ItemRomsMember(cap, evs, n) then j == n else LastRoms(cap, evs[..n], j)
    ensures forall j :: 0 <= j < |evs| ==> SlotAt(cap, evs[..|evs| - 1], j) == SlotAt(cap, evs, j)
  {
    var n := |evs| - 1;
    ItemMemberOfPrefix(cap, evs, n);
    forall j
      ensures LastRoms(cap, evs, j) <==> if ItemRomsMember(cap, evs, n) then j == n else LastRoms(cap, evs[..n], j)
    {
      assert forall k :: ItemRomsMember(cap, evs[..n], k) <==> k < n && ItemRomsMember(cap, evs, k);
    }
  }

  lemma NameStep(c: Context, st: seq<Frame>, ev: Event)
    requires Safe(c, st) && Nest(st, ev).Some? && Admits(c, ev) && Step(c, ev).proceed
    ensures var name := Step(c, ev).context.itemsString;
            if ev.Member? && ev.name != "" && c.InsideItem() then name == Some(ev.name)
            else name == None || name == c.itemsString
  {
    InsideItemIsAtItem(c, st);
  }

  /** The member name that the reader remembers is the last one that was not empty. */
  lemma {:induction false} NameOrigin(cap: nat, evs: seq<Event>) returns (j: nat)
    requires Read(cap, evs) && Reader(cap, evs).itemsString.Some?
    ensures LastNamed(cap, evs, j) && Reader(cap, evs).itemsString == Some(evs[j].name)
  {
    var n := |evs| - 1;
    var c := Reader(cap, evs[..n]);
    var st := LastStep(cap, evs);
    NameStep(c, st, evs[n]);
    LastNamedStep(cap, evs);
    if NamedMember(cap, evs, n) {
      j := n;
    } else {
      j := NameOrigin(cap, evs[..n]);
    }
  }

  lemma LastNamedStep(cap: nat, evs: seq<Event>)
    requires evs != []
    ensures var n := |evs| - 1;
            forall j :: LastNamed(cap, evs, j) <==>
              if NamedMember(cap, evs, n) then j == n else LastNamed(cap, evs[..n], j)
  {
    var n := |evs| - 1;
    ItemMemberOfPrefix(cap, evs, n);
    forall j
      ensures LastNamed(cap, evs, j) <==> if NamedMember(cap, evs, n) then j == n else LastNamed(cap, evs[..n], j)
    {
      assert forall k :: NamedMember(cap, evs[..n], k) <==> k < n && NamedMember(cap, evs, k);
    }
  }

  lemma RomsTagName(name: string)
    ensures TagOf(name) == RomsTag <==> name == "subsystem_roms"
  {
  }

  /** In a ROM list every member since the one that takes it has an empty name. */
  lemma NamelessSince(cap: nat, evs: seq<Event>, j: int)
    requires Read(cap, evs) && Reader(cap, evs).inRoms && LastRoms(cap, evs, j)
    ensures forall k :: j < k < |evs| && ItemMember(cap, evs, k) ==> evs[k].name == ""
  {
    SafeWhenRead(cap, evs);
    var last := NameOrigin(cap, evs);
    RomsTagName(evs[last].name);
    RomsTagName(evs[j].name);
    assert ItemRomsMember(cap, evs, last);
    forall k | j < k < |evs| && ItemMember(cap, evs, k)
      ensures evs[k].name == ""
    {
      assert !NamedMember(cap, evs, k);
    }
  }

  /** Exactly when a string of a legal stream changes another entry: directly inside what the reader takes for a
      ROM list, when the last member that takes one stands in that entry's item and all since are nameless. */
  lemma TextLeaksExactly(cap: nat, before: seq<Event>, s: string, i: nat)
    requires Nesting([], before + [Text(s)]).Some? && RunEvents(Fresh(cap), before).ending == Completed
    requires i < cap && i != Reader(cap, before).size
    ensures var c := Reader(cap, before);
            && Admits(c, Text(s)) && Nesting([], before).Some?
            && (OnText(c, s).slots[i] != c.slots[i] <==>
                  c.inRoms && |Nesting([], before).value| == 4 && s != "" &&
                  exists j :: LastRoms(cap, before, j) && SlotAt(cap, before, j) == i &&
                              forall k :: j < k < |before| && ItemMember(cap, before, k) ==> before[k].name == "")
  {
    NestingAppend([], before, [Text(s)]);
    SafeWhenRead(cap, before);
    var c, st := Reader(cap, before), Nesting([], before).value;
    assert Nesting(st, [Text(s)]).Some?;
    SafeAdmits(c, st, Text(s));
    TextStaysInItsEntry(c, st, s);
    RomsPointerOrigin(cap, before);
    if c.inRoms && c.romsTarget.Some? {
      var j :| LastRoms(cap, before, j);
      NamelessSince(cap, before, j);
    }
  }
}
