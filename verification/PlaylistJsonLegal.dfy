/** What the JSON writers write is a stream that a parser can report, from the first event to the end of
    the top-level object, so the reader's safety covers every file that the program itself wrote. */
module PlaylistJsonLegal {
  import opened CText
  import opened JsonEvents
  import opened PlaylistModel
  import opened PlaylistJson
  import opened PlaylistJsonWriter

  const TOP: seq<Frame> := [AwaitMember]
  const ITEMS: seq<Frame> := [AwaitMember, InArray]

  lemma {:induction false} NestOn(st: seq<Frame>, a: seq<Event>, mid: seq<Frame>, b: seq<Event>)
    requires Nesting(st, a) == Some(mid)
    ensures Nesting(st, a + b) == Nesting(mid, b)
    decreases |a|
  {
    if a == [] {
      assert a + b == b;
    } else {
      assert (a + b)[0] == a[0] && (a + b)[1..] == a[1..] + b;
      NestOn(Nest(st, a[0]).value, a[1..], mid, b);
    }
  }

  lemma {:induction false} NestOne(st: seq<Frame>, ev: Event)
    ensures Nesting(st, [ev]) == Nest(st, ev)
  {
    assert [ev][1..] == [];
  }

  /** A member with a scalar value. */
  lemma {:induction false} NestPair(st: seq<Frame>, name: string, v: Event)
    requires st != [] && st[|st| - 1] == AwaitMember && (v.Text? || v.Number?)
    ensures Nesting(st, [Member(name), v]) == Some(st)
  {
    var mid := st[|st| - 1 := AwaitValue];
    NestOne(st, Member(name));
    NestOne(mid, v);
    NestOn(st, [Member(name)], mid, [v]);
    assert [Member(name)] + [v] == [Member(name), v];
    assert mid[|st| - 1 := AwaitMember] == st;
  }

  lemma {:induction false} NestTexts(st: seq<Frame>, ss: seq<string>)
    requires st != [] && st[|st| - 1] == InArray
    ensures Nesting(st, Texts(ss)) == Some(st)
    decreases |ss|
  {
    if ss != [] {
      assert Texts(ss)[1..] == Texts(ss[1..]);
      NestTexts(st, ss[1..]);
    }
  }

  lemma {:induction false} NestRoms(st: seq<Frame>, roms: seq<string>)
    requires st != [] && st[|st| - 1] == AwaitMember
    ensures Nesting(st, Events(RomsValue(roms))) == Some(st)
  {
    var begin, end := [Member("subsystem_roms"), StartArray], [EndArray];
    var member := st[|st| - 1 := AwaitValue];
    var inside := st + [InArray];
    NestOne(st, Member("subsystem_roms"));
    NestOne(member, StartArray);
    assert member[|st| - 1 := AwaitMember] == st;
    NestOn(st, [Member("subsystem_roms")], member, [StartArray]);
    assert begin == [Member("subsystem_roms")] + [StartArray];
    NestTexts(inside, roms);
    NestOne(inside, EndArray);
    assert inside[..|st|] == st;
    NestOn(st, begin, inside, Texts(roms));
    NestOn(st, begin + Texts(roms), inside, end);
  }

  lemma {:induction false} NestValues(st: seq<Frame>, vs: seq<Value>)
    requires st != [] && st[|st| - 1] == AwaitMember
    ensures Nesting(st, AllEvents(vs)) == Some(st)
    decreases |vs|
  {
    if vs != [] {
      var n := |vs| - 1;
      NestValues(st, vs[..n]);
      NestOn(st, AllEvents(vs[..n]), st, Events(vs[n]));
      match vs[n] {
        case StringValue(f, s) => NestPair(st, StringName(f), Text(s));
        case NumberValue(f, x) => NestPair(st, NumberName(f), Number(Dec(x)));
        case RomsValue(roms) => NestRoms(st, roms);
      }
    }
  }

  lemma {:induction false} NestItem(vs: seq<Value>)
    ensures Nesting(ITEMS, ItemEvents(vs)) == Some(ITEMS)
  {
    var inside := ITEMS + [AwaitMember];
    NestOne(ITEMS, StartObject);
    NestValues(inside, vs);
    NestOne(inside, EndObject);
    assert inside[..2] == ITEMS;
    NestOn(ITEMS, [StartObject], inside, AllEvents(vs));
    NestOn(ITEMS, [StartObject] + AllEvents(vs), inside, [EndObject]);
  }

  lemma {:induction false} NestItems(items: seq<seq<Value>>)
    ensures Nesting(ITEMS, ItemsEvents(items)) == Some(ITEMS)
    decreases |items|
  {
    if items != [] {
      var n := |items| - 1;
      NestItems(items[..n]);
      NestItem(items[n]);
      NestOn(ITEMS, ItemsEvents(items[..n]), ITEMS, ItemEvents(items[n]));
    }
  }

  lemma {:induction false} NestOpenItems(st: seq<Frame>)
    requires st == TOP
    ensures Nesting(st, [Member("items"), StartArray]) == Some(ITEMS)
  {
    var named := [AwaitValue];
    assert st[0 := AwaitValue] == named && named[0 := AwaitMember] + [InArray] == ITEMS;
    NestOne(st, Member("items"));
    NestOne(named, StartArray);
    NestOn(st, [Member("items")], named, [StartArray]);
    assert [Member("items")] + [StartArray] == [Member("items"), StartArray];
  }

  lemma {:induction false} NestStart()
    ensures Nesting([], [StartObject]) == Some(TOP)
  {
    NestOne([], StartObject);
    assert [] + [AwaitMember] == TOP;
  }

  lemma {:induction false} NestHeader(path: string, name: string)
    ensures Nesting([], Header(path, name)) == Some(ITEMS)
  {
    var e0 := [StartObject];
    var e1 := e0 + [Member("version"), Text("1.1")];
    var e2 := e1 + [Member("default_core_path"), Text(path)];
    var e3 := e2 + [Member("default_core_name"), Text(name)];
    NestStart();
    NestPair(TOP, "version", Text("1.1"));
    NestPair(TOP, "default_core_path", Text(path));
    NestPair(TOP, "default_core_name", Text(name));
    NestOpenItems(TOP);
    NestOn([], e0, TOP, [Member("version"), Text("1.1")]);
    NestOn([], e1, TOP, [Member("default_core_path"), Text(path)]);
    NestOn([], e2, TOP, [Member("default_core_name"), Text(name)]);
    NestOn([], e3, TOP, [Member("items"), StartArray]);
    assert Header(path, name) == e3 + [Member("items"), StartArray];
  }

  lemma {:induction false} NestRuntimeHeader()
    ensures Nesting([], RUNTIME_HEADER) == Some(ITEMS)
  {
    var e0 := [StartObject];
    var e1 := e0 + [Member("version"), Text("1.0")];
    NestStart();
    NestPair(TOP, "version", Text("1.0"));
    NestOpenItems(TOP);
    NestOn([], e0, TOP, [Member("version"), Text("1.0")]);
    NestOn([], e1, TOP, [Member("items"), StartArray]);
    assert RUNTIME_HEADER == e1 + [Member("items"), StartArray];
  }

  lemma {:induction false} NestTrailer()
    ensures Nesting(ITEMS, TRAILER) == Some([])
  {
    NestOne(ITEMS, EndArray);
    assert ITEMS[..1] == TOP;
    NestOne(TOP, EndObject);
    NestOn(ITEMS, [EndArray], TOP, [EndObject]);
    assert TRAILER == [EndArray] + [EndObject];
  }

  lemma {:induction false} NestBody(head: seq<Event>, items: seq<seq<Value>>)
    requires Nesting([], head) == Some(ITEMS)
    ensures Nesting([], head + ItemsEvents(items) + TRAILER) == Some([])
  {
    NestItems(items);
    NestOn([], head, ITEMS, ItemsEvents(items));
    NestTrailer();
    NestOn([], head + ItemsEvents(items), ITEMS, TRAILER);
  }

  /** Both kinds of written file are complete, well-bracketed streams, whatever the entries hold. */
  lemma WrittenFilesAreLegal(list: seq<Entry>, path: Option<string>, name: Option<string>)
    ensures Nesting([], FileEvents(list, path, name)) == Some([])
    ensures Nesting([], RuntimeFileEvents(list)) == Some([])
  {
    NestHeader(Str(path), Str(name));
    NestBody(Header(Str(path), Str(name)), AllItems(list));
    NestRuntimeHeader();
    NestBody(RUNTIME_HEADER, AllRuntimeItems(list));
  }
}
