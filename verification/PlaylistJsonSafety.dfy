/** Safety of the JSON reader on every legal event stream, however odd its contents. */
module PlaylistJsonSafety {
  import opened CText
  import opened JsonEvents
  import opened PlaylistModel
  import opened PlaylistJson

  lemma ShortCounts(st: seq<Frame>)
    ensures |st| == 1 ==> Objects(st) == if st[0] == InArray then 0 else 1
    ensures |st| == 2 && Objects(st) == 1 && st[1] == InArray ==> st[0] != InArray
  {
    if |st| == 2 {
      assert st[..1][0] == st[0];
      ShortCounts(st[..1]);
    }
  }

  lemma SafeAfterStartObject(c: Context, st: seq<Frame>)
    requires Safe(c, st) && Nest(st, StartObject).Some?
    requires OnStartObject(c).proceed
    ensures Safe(OnStartObject(c).context, Nest(st, StartObject).value)
  {
    NestCounts(st, StartObject);
    var st' := Nest(st, StartObject).value;
    if c.inItems {
      CountsAtItems(st);
      CountsAtItems(st');
      assert |st'| == |st| + 1;
      if |st| == 2 {
        ShortCounts(st[..1]);
        assert Objects(st) == 1 && Arrays(st) == 1;
      }
    }
  }

  lemma SafeAfterInnerArray(c: Context, st: seq<Frame>)
    requires Safe(c, st) && Nest(st, StartArray).Some? && c.inItems
    ensures Safe(OnStartArray(c), Nest(st, StartArray).value)
  {
    NestCounts(st, StartArray);
    var st', d := Nest(st, StartArray).value, OnStartArray(c);
    CountsAtItems(st);
    CountsAtItems(st');
    if d.inRoms && !c.inRoms {
      assert |st'| == 4 && st'[3] == InArray;
    }
  }

  lemma SafeAfterOuterArray(c: Context, st: seq<Frame>)
    requires Safe(c, st) && Nest(st, StartArray).Some? && !c.inItems
    ensures Safe(OnStartArray(c), Nest(st, StartArray).value)
  {
    NestCounts(st, StartArray);
    var st', d := Nest(st, StartArray).value, OnStartArray(c);
    ShortCounts(st');
    if d.inItems {
      assert |st'| == 2 && st'[1] == InArray;
    }
  }

  lemma SafeAfterEnd(c: Context, st: seq<Frame>, ev: Event)
    requires Safe(c, st) && Nest(st, ev).Some? && (ev.EndObject? || ev.EndArray?)
    requires Admits(c, ev)
    ensures Safe(Step(c, ev).context, Nest(st, ev).value)
  {
    NestCounts(st, ev);
    InsideItemIsAtItem(c, st);
    var st' := Nest(st, ev).value;
    if c.inItems {
      CountsAtItems(st);
      if |st| == 2 {
        assert st' == [AwaitMember];
        assert st'[..0] == [];
        assert Arrays(st') == 0 && Objects(st') == 1;
      } else {
        CountsAtItems(st');
      }
      if |st| == 4 {
        assert st' == st[..3];
        CountsAtItems(st');
        assert st'[..2][..1] == [AwaitMember];
        CountsAtItems(st'[..2]);
      }
    }
  }

  lemma SafeAfterItemMember(c: Context, st: seq<Frame>, name: string)
    requires Safe(c, st) && Nest(st, Member(name)).Some? && c.InsideItem()
    requires Admits(c, Member(name)) && OnMember(c, name).proceed
    ensures Safe(OnMember(c, name).context, Nest(st, Member(name)).value)
  {
    NestCounts(st, Member(name));
    InsideItemIsAtItem(c, st);
  }

  lemma SafeAfterOtherMember(c: Context, st: seq<Frame>, name: string)
    requires Safe(c, st) && Nest(st, Member(name)).Some? && !c.InsideItem()
    requires Admits(c, Member(name)) && OnMember(c, name).proceed
    ensures Safe(OnMember(c, name).context, Nest(st, Member(name)).value)
  {
    NestCounts(st, Member(name));
    InsideItemIsAtItem(c, st);
    if c.inItems {
      CountsAtItems(st);
    }
  }

  lemma SafeAfterText(c: Context, st: seq<Frame>, s: string)
    requires Safe(c, st) && Nest(st, Text(s)).Some?
    ensures Safe(OnText(c, s), Nest(st, Text(s)).value)
  {
    NestCounts(st, Text(s));
    InsideItemIsAtItem(c, st);
    if c.inItems {
      CountsAtItems(st);
    }
  }

  lemma SafeAfterNumber(c: Context, st: seq<Frame>, s: string)
    requires Safe(c, st) && Nest(st, Number(s)).Some?
    ensures Safe(OnNumber(c, s), Nest(st, Number(s)).value)
  {
    NestCounts(st, Number(s));
    InsideItemIsAtItem(c, st);
    if c.inItems {
      CountsAtItems(st);
    }
  }

  lemma SafeAfterUnhandled(c: Context, st: seq<Frame>)
    requires Safe(c, st) && Nest(st, Unhandled).Some?
    ensures Safe(c, Nest(st, Unhandled).value)
  {
    NestCounts(st, Unhandled);
    InsideItemIsAtItem(c, st);
  }

  lemma SafeAfterMember(c: Context, st: seq<Frame>, name: string)
    requires Safe(c, st) && Nest(st, Member(name)).Some?
    requires Admits(c, Member(name)) && OnMember(c, name).proceed
    ensures Safe(OnMember(c, name).context, Nest(st, Member(name)).value)
  {
    if c.InsideItem() {
      SafeAfterItemMember(c, st, name);
    } else {
      SafeAfterOtherMember(c, st, name);
    }
  }

  lemma SafeAfterBracket(c: Context, st: seq<Frame>, ev: Event)
    requires Safe(c, st) && Nest(st, ev).Some? && Admits(c, ev) && Step(c, ev).proceed
    requires ev.StartObject? || ev.StartArray? || ev.EndObject? || ev.EndArray?
    ensures Safe(Step(c, ev).context, Nest(st, ev).value)
  {
    match ev {
      case StartObject => SafeAfterStartObject(c, st);
      case StartArray =>
        if c.inItems {
          SafeAfterInnerArray(c, st);
        } else {
          SafeAfterOuterArray(c, st);
        }
      case _ => SafeAfterEnd(c, st, ev);
    }
  }

  lemma SizeAfterStep(c: Context, st: seq<Frame>, ev: Event)
    requires Safe(c, st) && Admits(c, ev)
    ensures Step(c, ev).context.size <= |c.slots|
  {
    if ev.EndObject? {
      InsideItemIsAtItem(c, st);
    }
  }

  lemma StepIsSafe(c: Context, st: seq<Frame>, ev: Event)
    requires Safe(c, st) && Nest(st, ev).Some?
    ensures Admits(c, ev)
    ensures Step(c, ev).proceed ==> Safe(Step(c, ev).context, Nest(st, ev).value)
    ensures Step(c, ev).context.size <= |c.slots|
  {
    SafeAdmits(c, st, ev);
    SizeAfterStep(c, st, ev);
    if Step(c, ev).proceed {
      match ev {
        case Member(name) => SafeAfterMember(c, st, name);
        case Text(s) => SafeAfterText(c, st, s);
        case Number(s) => SafeAfterNumber(c, st, s);
        case Unhandled => SafeAfterUnhandled(c, st);
        case _ => SafeAfterBracket(c, st, ev);
      }
    }
  }

  lemma AtRestIsSafe(c: Context, st: seq<Frame>)
    requires st == [] && c.objectDepth == 0 && c.arrayDepth == 0 && c.size == 0
    requires !c.inItems && !c.inRoms && c.itemsString.None?
    requires c.currentEntry.None? && c.stringTarget.None? && c.numberTarget.None? && c.romsTarget.None?
    ensures Safe(c, st)
  {
  }

  lemma FreshIsSafe(cap: nat)
    ensures Safe(Fresh(cap), [])
  {
    AtRestIsSafe(Fresh(cap), []);
  }

  lemma {:induction false} RunIsSafe(c: Context, st: seq<Frame>, evs: seq<Event>)
    requires Safe(c, st) && Nesting(st, evs).Some?
    ensures var o := RunEvents(c, evs);
            && o.ending != AssertionFailed
            && o.context.size <= |c.slots|
            && (o.ending == Completed ==> Safe(o.context, Nesting(st, evs).value))
    decreases |evs|
  {
    if evs != [] {
      StepIsSafe(c, st, evs[0]);
      if Step(c, evs[0]).proceed {
        RunIsSafe(Step(c, evs[0]).context, Nest(st, evs[0]).value, evs[1..]);
      }
    }
  }

  lemma RunOneEvent(c: Context, st: seq<Frame>, evs: seq<Event>)
    requires evs != [] && Safe(c, st) && Nesting(st, evs).Some?
    ensures Admits(c, evs[0]) && Nest(st, evs[0]).Some?
    ensures var r, st' := Step(c, evs[0]), Nest(st, evs[0]).value;
            && r.context.size <= |c.slots|
            && if r.proceed
               then Safe(r.context, st') && Nesting(st', evs[1..]).Some? &&
                    RunEvents(c, evs) == RunEvents(r.context, evs[1..])
               else RunEvents(c, evs) == Outcome(r.context, Aborted)
  {
    StepIsSafe(c, st, evs[0]);
  }

  lemma PrefixNests(st: seq<Frame>, evs: seq<Event>, k: nat)
    requires Nesting(st, evs).Some? && k <= |evs|
    ensures Nesting(st, evs[..k]).Some?
  {
    assert evs == evs[..k] + evs[k..];
    NestingAppend(st, evs[..k], evs[k..]);
  }

  /** At every point of every legal stream read into a playlist of capacity `cap`, finished or cut
      short: the list never outgrows the playlist, the two depth assertions and the entry pointer
      hold, and the reader's flags and pointers agree with the nesting. */
  lemma {:induction false} SafeThroughout(cap: nat, evs: seq<Event>, k: nat)
    requires Nesting([], evs).Some? && k <= |evs|
    ensures Nesting([], evs[..k]).Some?
    ensures var o := RunEvents(Fresh(cap), evs[..k]);
            && o.ending != AssertionFailed
            && o.context.size <= cap
            && (o.ending == Completed ==> Safe(o.context, Nesting([], evs[..k]).value))
  {
    PrefixNests([], evs, k);
    FreshIsSafe(cap);
    RunIsSafe(Fresh(cap), [], evs[..k]);
  }

  // ---------------------------------------------------------------- whose field a string lands in

  lemma RomTextStays(c: Context, st: seq<Frame>, s: string)
    requires Safe(c, st) && Nest(st, Text(s)).Some? && c.inRoms
    ensures var d := OnText(c, s);
            forall i :: 0 <= i < |c.slots| && i != c.size ==>
              && d.slots[i].(subsystemRoms := c.slots[i].subsystemRoms) == c.slots[i]
              && (d.slots[i] != c.slots[i] <==> |st| == 4 && s != "" && c.romsTarget == Some(i))
  {
    CountsAtItems(st);
    ItemDepths(st);
    InsideItemIsAtItem(c, st);
    if c.romsTarget.Some? {
      AddRomChanges(c.slots[c.romsTarget.value], s);
    }
  }

  /** A string value reaches no entry but the one whose object it occurs in, except that it may
      extend the ROM list of the entry the ROM pointer was left at. */
  lemma TextStaysInItsEntry(c: Context, st: seq<Frame>, s: string)
    requires Safe(c, st) && Nest(st, Text(s)).Some?
    ensures var d := OnText(c, s);
            forall i :: 0 <= i < |c.slots| && i != c.size ==>
              && d.slots[i].(subsystemRoms := c.slots[i].subsystemRoms) == c.slots[i]
              && (d.slots[i] != c.slots[i] <==> c.inRoms && |st| == 4 && s != "" && c.romsTarget == Some(i))
  {
    if c.inRoms {
      RomTextStays(c, st, s);
    } else {
      InsideItemIsAtItem(c, st);
    }
  }

  lemma AddRomChanges(e: Entry, rom: string)
    ensures AddRom(e, rom) != e
  {
    if e.subsystemRoms.Some? {
      assert |e.subsystemRoms.value + [rom]| > |e.subsystemRoms.value|;
    }
  }

  lemma {:induction false} ItemDepths(st: seq<Frame>)
    requires AtItem(st) && |st| >= 4 && st[3] == InArray
    ensures Objects(st) == 2 && Arrays(st) == 2 <==> |st| == 4
  {
    if |st| == 4 {
      CountsAtItems(st);
    }
  }

  /** The ROM pointer belongs to the current entry whenever it can be used. */
  ghost predicate RomsOwned(c: Context, st: seq<Frame>) {
    && (c.inItems && AtItem(st) && st[2] == AwaitValue && c.itemsString == Some("subsystem_roms") ==>
          c.romsTarget == Some(c.size))
    && (c.inRoms ==> c.romsTarget == Some(c.size))
  }

  lemma MemberKeepsRomsOwned(c: Context, st: seq<Frame>, name: string)
    requires Safe(c, st) && Nest(st, Member(name)).Some? && RomsOwned(c, st) && name != ""
    requires Admits(c, Member(name)) && OnMember(c, name).proceed
    ensures RomsOwned(OnMember(c, name).context, Nest(st, Member(name)).value)
  {
    InsideItemIsAtItem(c, st);
    StepIsSafe(c, st, Member(name));
    if c.inItems {
      CountsAtItems(st);
    }
  }

  lemma StartArrayKeepsRomsOwned(c: Context, st: seq<Frame>)
    requires Safe(c, st) && Nest(st, StartArray).Some? && RomsOwned(c, st)
    ensures RomsOwned(OnStartArray(c), Nest(st, StartArray).value)
  {
    StepIsSafe(c, st, StartArray);
    var st' := Nest(st, StartArray).value;
    if OnStartArray(c).inRoms && !c.inRoms {
      ItemDepths(st');
    }
  }

  lemma StepKeepsRomsOwned(c: Context, st: seq<Frame>, ev: Event)
    requires Safe(c, st) && Nest(st, ev).Some? && RomsOwned(c, st) && ev != Member("")
    requires Admits(c, ev) && Step(c, ev).proceed
    ensures RomsOwned(Step(c, ev).context, Nest(st, ev).value)
  {
    if ev.Member? {
      MemberKeepsRomsOwned(c, st, ev.name);
    } else if ev.StartArray? {
      StartArrayKeepsRomsOwned(c, st);
    } else if ev.EndObject? || ev.EndArray? {
      EndKeepsRomsOwned(c, st, ev);
    } else {
      ValueKeepsRomsOwned(c, st, ev);
    }
  }

  lemma ValueKeepsRomsOwned(c: Context, st: seq<Frame>, ev: Event)
    requires Safe(c, st) && Nest(st, ev).Some? && RomsOwned(c, st)
    requires ev.Text? || ev.Number? || ev.Unhandled? || ev.StartObject?
    requires Admits(c, ev) && Step(c, ev).proceed
    ensures RomsOwned(Step(c, ev).context, Nest(st, ev).value)
  {
    if c.inItems {
      CountsAtItems(st);
    }
  }

  lemma EndKeepsRomsOwned(c: Context, st: seq<Frame>, ev: Event)
    requires Safe(c, st) && Nest(st, ev).Some? && RomsOwned(c, st) && (ev.EndObject? || ev.EndArray?)
    requires Admits(c, ev) && Step(c, ev).proceed
    ensures RomsOwned(Step(c, ev).context, Nest(st, ev).value)
  {
    InsideItemIsAtItem(c, st);
    if c.inItems {
      CountsAtItems(st);
      if AtItem(st) && |st| >= 4 && st[3] == InArray {
        ItemDepths(st);
      }
    }
  }

  lemma {:induction false} RunKeepsRomsOwned(c: Context, st: seq<Frame>, evs: seq<Event>)
    requires Safe(c, st) && Nesting(st, evs).Some? && RomsOwned(c, st) && Member("") !in evs
    ensures RunEvents(c, evs).ending == Completed ==> RomsOwned(RunEvents(c, evs).context, Nesting(st, evs).value)
    decreases |evs|
  {
    if evs != [] {
      StepIsSafe(c, st, evs[0]);
      if Step(c, evs[0]).proceed {
        StepKeepsRomsOwned(c, st, evs[0]);
        RunKeepsRomsOwned(Step(c, evs[0]).context, Nest(st, evs[0]).value, evs[1..]);
      }
    }
  }

  /** In a legal stream without empty member names no string, ROM or other, is ever stored in an
      entry other than that of the object it occurs in. */
  lemma NoStringLeaks(cap: nat, before: seq<Event>, s: string)
    requires Nesting([], before + [Text(s)]).Some? && Member("") !in before
    requires RunEvents(Fresh(cap), before).ending == Completed
    ensures var c := RunEvents(Fresh(cap), before).context;
            && Admits(c, Text(s))
            && forall i :: 0 <= i < cap && i != c.size ==> OnText(c, s).slots[i] == c.slots[i]
  {
    NestingAppend([], before, [Text(s)]);
    FreshIsSafe(cap);
    RunIsSafe(Fresh(cap), [], before);
    RunKeepsRomsOwned(Fresh(cap), [], before);
    var c, st := RunEvents(Fresh(cap), before).context, Nesting([], before).value;
    assert Nesting(st, [Text(s)]).Some?;
    StepIsSafe(c, st, Text(s));
    TextStaysInItsEntry(c, st, s);
  }
}
