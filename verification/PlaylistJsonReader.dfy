/** `JSONContext` and its handlers, in place, and the loop that drives them. */
module PlaylistJsonReader {
  import opened CText
  import opened JsonEvents
  import opened PlaylistModel
  import opened Playlist
  import opened PlaylistJson
  import opened PlaylistJsonSafety

  class JsonContext {
    const playlist: Playlist
    var currentEntry: Option<nat>
    var arrayDepth: nat
    var objectDepth: nat
    var stringTarget: Option<StringTarget>
    var numberTarget: Option<NumberTarget>
    var romsTarget: Option<nat>
    var metaString: Option<string>
    var metaTarget: Option<MetaTarget>
    var itemsString: Option<string>
    var inItems: bool
    var inRoms: bool

    ghost function View(): Context
      reads this, playlist, playlist.entries
    {
      Context(playlist.entries[..], playlist.size, playlist.defaultCorePath, playlist.defaultCoreName,
              currentEntry, arrayDepth, objectDepth, stringTarget, numberTarget, romsTarget,
              metaString, metaTarget, itemsString, inItems, inRoms)
    }

    constructor (p: Playlist)
      ensures playlist == p
      ensures View() == Context(p.entries[..], p.size, p.defaultCorePath, p.defaultCoreName,
                                None, 0, 0, None, None, None, None, None, None, false, false)
    {
      playlist := p;
      currentEntry, arrayDepth, objectDepth := None, 0, 0;
      stringTarget, numberTarget, romsTarget := None, None, None;
      metaString, metaTarget, itemsString := None, None, None;
      inItems, inRoms := false, false;
    }

    /** Writing through a pointer into the array of slots. */
    method Store(slot: nat, e: Entry)
      requires slot < playlist.entries.Length
      modifies playlist.entries
      ensures View() == old(View()).(slots := old(playlist.entries[..])[slot := e])
    {
      playlist.entries[slot] := e;
    }

    /** `JSONStartArrayHandler` */
    method HandleStartArray()
      modifies this
      ensures View() == OnStartArray(old(View()))
    {
      arrayDepth := arrayDepth + 1;
      if objectDepth == 1 {
        if metaString == Some("items") && arrayDepth == 1 {
          inItems := true;
        }
      } else if objectDepth == 2 {
        if arrayDepth == 2 && itemsString == Some("subsystem_roms") {
          inRoms := true;
        }
      }
    }

    /** `JSONEndArrayHandler` */
    method HandleEndArray()
      requires arrayDepth > 0
      modifies this
      ensures View() == OnEndArray(old(View()))
    {
      arrayDepth := arrayDepth - 1;
      if objectDepth == 1 {
        if inItems && metaString == Some("items") && arrayDepth == 0 {
          metaString := None;
          inItems := false;
          itemsString := None;
        }
      } else if objectDepth == 2 {
        if inRoms && itemsString == Some("subsystem_roms") && arrayDepth == 1 {
          inRoms := false;
        }
      }
    }

    /** `JSONStartObjectHandler` */
    method HandleStartObject() returns (proceed: bool)
      modifies this
      ensures Stepped(View(), proceed) == OnStartObject(old(View()))
    {
      objectDepth := objectDepth + 1;
      if inItems && objectDepth == 2 && arrayDepth == 1 {
        if playlist.size >= playlist.entries.Length {
          return false;
        }
        currentEntry := Some(playlist.size);
      }
      return true;
    }

    /** `JSONEndObjectHandler` */
    method HandleEndObject()
      requires objectDepth > 0
      modifies this, playlist`size
      ensures View() == OnEndObject(old(View()))
    {
      if inItems && objectDepth == 2 && arrayDepth == 1 {
        playlist.size := playlist.size + 1;
      }
      objectDepth := objectDepth - 1;
    }

    method StoreTopLevelText(s: string)
      modifies this`metaString, playlist`defaultCorePath, playlist`defaultCoreName
      ensures metaTarget.None? ==> View() == old(View())
      ensures metaTarget == Some(ToDefaultPath) ==> View() == old(View()).(metaString := None, defaultPath := Some(s))
      ensures metaTarget == Some(ToDefaultName) ==> View() == old(View()).(metaString := None, defaultName := Some(s))
    {
      if metaTarget.Some? {
        metaString := None;
        if metaTarget.value.ToDefaultPath? {
          playlist.defaultCorePath := Some(s);
        } else {
          playlist.defaultCoreName := Some(s);
        }
      }
    }

    method StoreRom(s: string)
      requires View().PointersInside()
      modifies playlist.entries
      ensures var c := old(View());
              View() == if romsTarget.Some? && s != ""
                        then c.(slots := c.slots[romsTarget.value := AddRom(c.slots[romsTarget.value], s)]) else c
    {
      if romsTarget.Some? && s != "" {
        Store(romsTarget.value, AddRom(playlist.entries[romsTarget.value], s));
      }
    }

    method StoreField(s: string)
      requires View().PointersInside()
      modifies playlist.entries
      ensures var c, t := old(View()), stringTarget;
              View() == if arrayDepth == 1 && t.Some? && s != ""
                        then c.(slots := c.slots[t.value.slot :=
                                                   SetString(c.slots[t.value.slot], t.value.field, Some(s))])
                        else c
    {
      if arrayDepth == 1 && stringTarget.Some? && s != "" {
        var slot := stringTarget.value.slot;
        Store(slot, SetString(playlist.entries[slot], stringTarget.value.field, Some(s)));
      }
    }

    method StoreValue(s: string)
      requires View().PointersInside()
      modifies this`metaString, playlist`defaultCorePath, playlist`defaultCoreName, playlist.entries
      ensures View() == StoreText(old(View()), s)
    {
      ghost var c := View();
      if inItems && inRoms && objectDepth == 2 && arrayDepth == 2 {
        StoreRom(s);
        assert View() == StoreText(c, s);
      } else if inItems && objectDepth == 2 {
        StoreField(s);
        assert View() == StoreText(c, s);
      } else if objectDepth == 1 && arrayDepth == 0 && s != "" {
        StoreTopLevelText(s);
      }
    }

    /** `JSONStringHandler` */
    method HandleText(s: string)
      requires View().PointersInside()
      modifies this, playlist`defaultCorePath, playlist`defaultCoreName, playlist.entries
      ensures View() == OnText(old(View()), s)
    {
      StoreValue(s);
      stringTarget := None;
      metaTarget := None;
    }

    method StoreTime(s: string)
      requires View().PointersInside()
      modifies playlist.entries
      ensures var c, t := old(View()), numberTarget;
              View() == if arrayDepth == 1 && t.Some? && s != ""
                        then c.(slots := c.slots[t.value.slot :=
                                                   SetNumber(c.slots[t.value.slot], t.value.field, StrToUnsigned(s))])
                        else c
    {
      if arrayDepth == 1 && numberTarget.Some? && s != "" {
        var slot := numberTarget.value.slot;
        Store(slot, SetNumber(playlist.entries[slot], numberTarget.value.field, StrToUnsigned(s)));
      }
    }

    method StoreNumberValue(s: string)
      requires View().PointersInside()
      modifies this`metaString, playlist.entries
      ensures View() == StoreNumber(old(View()), s)
    {
      ghost var c := View();
      if inItems && objectDepth == 2 {
        StoreTime(s);
        assert View() == StoreNumber(c, s);
      } else if objectDepth == 1 && arrayDepth == 0 {
        if metaString.Some? && s != "" {
          metaString := None;
        }
      }
    }

    /** `JSONNumberHandler` */
    method HandleNumber(s: string)
      requires View().PointersInside()
      modifies this, playlist.entries
      ensures View() == OnNumber(old(View()), s)
    {
      StoreNumberValue(s);
      numberTarget := None;
    }

    /** The chain of name comparisons for a member of an item. */
    method SelectField(name: string)
      requires currentEntry.Some?
      modifies this`stringTarget, this`numberTarget, this`romsTarget
      ensures var c, slot := old(View()), currentEntry.value;
              View() == match TagOf(name) {
                          case StringTag(f) => c.(stringTarget := Some(StringTarget(slot, f)))
                          case NumberTag(n) => c.(numberTarget := Some(NumberTarget(slot, n)))
                          case RomsTag => c.(romsTarget := Some(slot))
                          case UnknownTag => c
                        }
    {
      var slot := currentEntry.value;
      match TagOf(name) {
        case StringTag(f) => stringTarget := Some(StringTarget(slot, f));
        case NumberTag(n) => numberTarget := Some(NumberTarget(slot, n));
        case RomsTag => romsTarget := Some(slot);
        case UnknownTag =>
      }
    }

    method SelectMeta(name: string)
      modifies this`metaString, this`metaTarget
      ensures var c := old(View()).(metaString := Some(name));
              View() == if name == "default_core_path" then c.(metaTarget := Some(ToDefaultPath))
                        else if name == "default_core_name" then c.(metaTarget := Some(ToDefaultName))
                        else c
    {
      metaString := Some(name);
      if name == "default_core_path" {
        metaTarget := Some(ToDefaultPath);
      } else if name == "default_core_name" {
        metaTarget := Some(ToDefaultName);
      }
    }

    /** `JSONObjectMemberHandler` */
    method HandleMember(name: string) returns (proceed: bool)
      requires View().PointersInside() && (View().InsideItem() ==> currentEntry.Some?)
      modifies this
      ensures Stepped(View(), proceed) == OnMember(old(View()), name)
    {
      if inItems && objectDepth == 2 {
        if arrayDepth == 1 {
          if stringTarget.Some? {
            return false;
          }
          if name != "" {
            itemsString := Some(name);
            SelectField(name);
          }
        }
      } else if objectDepth == 1 && arrayDepth == 0 {
        if metaTarget.Some? {
          return false;
        }
        if name != "" {
          SelectMeta(name);
        }
      }
      return true;
    }

    method Handle(ev: Event) returns (proceed: bool)
      requires Admits(View(), ev)
      modifies this, playlist, playlist.entries
      ensures Stepped(View(), proceed) == Step(old(View()), ev) && playlist.modified == old(playlist.modified)
    {
      proceed := true;
      match ev {
        case StartObject => proceed := HandleStartObject();
        case EndObject => HandleEndObject();
        case StartArray => HandleStartArray();
        case EndArray => HandleEndArray();
        case Member(name) => proceed := HandleMember(name);
        case Text(s) => HandleText(s);
        case Number(s) => HandleNumber(s);
        case Unhandled =>
      }
    }

    /** Parsing a legal stream: every handler call is within its demands, and the reader stops at the
        first abort. */
    method Parse(events: seq<Event>) returns (complete: bool)
      requires Safe(View(), []) && Nesting([], events).Some?
      modifies this, playlist, playlist.entries
      ensures Outcome(View(), if complete then Completed else Aborted) == RunEvents(old(View()), events)
      ensures playlist.size <= playlist.entries.Length && playlist.modified == old(playlist.modified)
    {
      ghost var st := [];
      ghost var start := View();
      var i := 0;
      while i < |events|
        invariant i <= |events|
        invariant playlist.modified == old(playlist.modified)
        invariant Safe(View(), st) && Nesting(st, events[i..]).Some?
        invariant RunEvents(start, events) == RunEvents(View(), events[i..])
      {
        ghost var before := View();
        assert events[i..][0] == events[i] && events[i..][1..] == events[i + 1..];
        RunOneEvent(before, st, events[i..]);
        var proceed := Handle(events[i]);
        if !proceed {
          return false;
        }
        st := Nest(st, events[i]).value;
        i := i + 1;
      }
      return true;
    }
  }

  /** The JSON branch of `playlist_read_file`, for a playlist as `playlist_init` leaves it. */
  method ReadJson(p: Playlist, events: seq<Event>) returns (complete: bool)
    requires p.Valid() && p.List() == [] && p.defaultCorePath.None? && p.defaultCoreName.None?
    requires p.entries[..] == seq(p.Capacity(), _ => BLANK)
    requires Nesting([], events).Some?
    modifies p, p.entries
    ensures p.Valid() && p.modified == old(p.modified)
    ensures var o := RunEvents(Fresh(p.Capacity()), events);
            && complete == (o.ending == Completed)
            && p.entries[..] == o.context.slots && p.size == o.context.size
            && p.defaultCorePath == o.context.defaultPath && p.defaultCoreName == o.context.defaultName
  {
    var context := new JsonContext(p);
    assert p.size == |p.List()| == 0;
    assert p.entries[..] == Fresh(p.Capacity()).slots;
    AtRestIsSafe(context.View(), []);
    complete := context.Parse(events);
  }
}
