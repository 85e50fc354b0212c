/** Configuration overrides: the recorded difference restores the settings it was taken from, exactly when
    every difference that needs a record can be recorded. */
module Overrides {
  import opened CText
  import opened ConfigFile
  import opened PathText
  import opened Settings

  // ---------------------------------------------------------------- the difference

  lemma GetFirst(l: Line, rest: Config, ident: string)
    ensures Get([l] + rest, ident) == if l.key == ident then Some(l.value) else Get(rest, ident)
    ensures ReadBack([l] + rest) ==
            (if ReadBackText(l.value).None? then [] else [Line(l.key, ReadBackText(l.value).value)]) + ReadBack(rest)
  {
    assert ([l] + rest)[1..] == rest;
  }

  lemma GetFirstRead(l: Line, rest: Config, ident: string)
    ensures Get(ReadBack([l] + rest), ident) ==
            if l.key == ident && ReadBackText(l.value).Some? then ReadBackText(l.value) else Get(ReadBack(rest), ident)
  {
    GetFirst(l, rest, ident);
    var v := ReadBackText(l.value);
    if v.Some? {
      GetFirst(Line(l.key, v.value), ReadBack(rest), ident);
    } else {
      assert [] + ReadBack(rest) == ReadBack(rest);
    }
  }

  /** What the first row of the table adds to the difference. */
  lemma DiffHead(env: Surroundings, table: seq<Setting>, base: Memory, mem: Memory, ident: string)
    requires table != []
    ensures var rest := Diff(env, table[1..], base, mem);
            var own := table[0].ident == ident && Differs(table[0], base, mem);
            var text := if own then LineOf(env, table[0], mem).value else "";
            && Get(Diff(env, table, base, mem), ident) == (if own then Some(text) else Get(rest, ident))
            && Get(ReadBack(Diff(env, table, base, mem)), ident) ==
               (if own && ReadBackText(text).Some? then ReadBackText(text) else Get(ReadBack(rest), ident))
  {
    var rest := Diff(env, table[1..], base, mem);
    if Differs(table[0], base, mem) {
      var l := LineOf(env, table[0], mem);
      GetFirst(l, rest, ident);
      GetFirstRead(l, rest, ident);
    } else {
      assert [] + rest == rest;
    }
  }

  lemma {:induction false} DiffLacks(env: Surroundings, table: seq<Setting>, base: Memory, mem: Memory, ident: string)
    requires forall i :: 0 <= i < |table| ==> table[i].ident != ident
    ensures Get(Diff(env, table, base, mem), ident) == None && Get(ReadBack(Diff(env, table, base, mem)), ident) == None
  {
    if table != [] {
      DiffLacks(env, table[1..], base, mem, ident);
      DiffHead(env, table, base, mem, ident);
    }
  }

  /** The difference names a setting exactly when its sanitised base value differs, and the file shows
      of the value what survives the quotes. */
  lemma {:induction false} DiffNamesWhatDiffers(env: Surroundings, table: seq<Setting>, base: Memory, mem: Memory,
                                                i: nat)
    requires SameKinds(table) && i < |table|
    ensures var ident := table[i].ident;
            && Get(Diff(env, table, base, mem), ident) ==
               (if Differs(table[i], base, mem) then Some(WriteValue(env, table[i].kind, mem[ident])) else None)
            && Get(ReadBack(Diff(env, table, base, mem)), ident) ==
               (if Differs(table[i], base, mem) then ReadBackText(WriteValue(env, table[i].kind, mem[ident])) else None)
  {
    DiffHead(env, table, base, mem, table[i].ident);
    if j :| 1 <= j < |table| && table[j].ident == table[i].ident {
      DiffNamesWhatDiffers(env, table[1..], base, mem, j - 1);
    } else {
      DiffLacks(env, table[1..], base, mem, table[i].ident);
    }
  }

  // ---------------------------------------------------------------- diff, then apply

  /** The file has a readable line for a setting. The reader drops a line with nothing between the quotes. */
  predicate Names(env: Surroundings, conf: Config, s: Setting) {
    var text := Get(conf, s.ident);
    text.Some? && text.value != "" && ReadValue(env, s.kind, text.value).Some?
  }

  ghost predicate NamesAll(env: Surroundings, conf: Config, table: seq<Setting>) {
    forall i :: 0 <= i < |table| && Loads(table[i]) ==> Names(env, conf, table[i])
  }

  /** Sanitising and the megabyte rule would not change a setting. */
  predicate Steady(env: Surroundings, mem: Memory, ident: string) {
    ident in mem ==> SanitisedValue(env, ident, mem, mem) == mem[ident] && AdjustSize(ident, mem[ident]) == mem[ident]
  }

  /** Nor would setting the streaming address: what every load leaves behind. */
  ghost predicate Settled(env: Surroundings, mem: Memory) {
    && (forall ident {:trigger Steady(env, mem, ident)} :: Steady(env, mem, ident))
    && Streamed(mem) == mem
  }

  lemma SteadyAt(env: Surroundings, mem: Memory, ident: string)
    requires Settled(env, mem) && ident in mem
    ensures SanitisedValue(env, ident, mem, mem) == mem[ident] && AdjustSize(ident, mem[ident]) == mem[ident]
  {
    assert Steady(env, mem, ident);
  }

  lemma MenuSettles(env: Surroundings, m: Memory)
    ensures var r := Sanitise(env, m, m); MENU in m && m[MENU].TextValue? ==> MenuCompatible(r)
  {
    var r := Sanitise(env, m, m);
    if MENU in m && m[MENU].TextValue? {
      MenuIsSanitised(env, m, m);
      if VIDEO in m {
        VideoIsKept(env, m, m);
      }
    }
  }

  lemma HistoryDirectorySettles(env: Surroundings, m: Memory)
    ensures TextOf(Sanitise(env, m, m), "content_history_dir") == TextOf(m, "content_history_dir")
  {
    if "content_history_dir" in m {
      HistoryDirectoryIsKept();
      UnlistedIsKept(env, "content_history_dir", m, m);
    }
  }

  /** What sanitising leaves behind it would not change again. */
  lemma SanitiseIsIdempotent(env: Surroundings, m: Memory, ident: string)
    requires ident in m
    ensures var r := Sanitise(env, m, m); SanitisedValue(env, ident, r, r) == r[ident]
  {
    var r := Sanitise(env, m, m);
    HistoryDirectorySettles(env, m);
    if ident == MENU && m[MENU].TextValue? {
      MenuSettles(env, m);
      MenuIsSanitised(env, r, r);
    } else {
      ValueSettles(env, ident, m, r);
    }
  }

  lemma ValueSettles(env: Surroundings, ident: string, m: Memory, r: Memory)
    requires ident in m && ident in r && r[ident] == SanitisedValue(env, ident, m, m)
    requires ident == MENU ==> !m[MENU].TextValue?
    requires TextOf(r, "content_history_dir") == TextOf(m, "content_history_dir")
    ensures SanitisedValue(env, ident, r, r) == r[ident]
  {
  }

  /** What the streaming address is computed from. */
  predicate StreamSetting(ident: string) {
    ident == STREAM_MODE || ident == STREAM_PORT || ident == TWITCH_KEY || ident == YOUTUBE_KEY
  }

  predicate Same(a: Memory, b: Memory, ident: string) {
    ident in a && ident in b && a[ident] == b[ident]
  }

  ghost predicate SameStream(a: Memory, b: Memory) {
    forall ident :: StreamSetting(ident) ==> Same(a, b, ident)
  }

  lemma SameStreamUrl(a: Memory, b: Memory)
    requires SameStream(a, b)
    ensures StreamUrl(a) == StreamUrl(b)
  {
    assert StreamSetting(STREAM_MODE) && StreamSetting(STREAM_PORT);
    assert StreamSetting(TWITCH_KEY) && StreamSetting(YOUTUBE_KEY);
  }

  /** Sanitising looks at none of them, nor at the address. */
  lemma StreamSettingKept(env: Surroundings, ident: string, m: Memory, live: Memory)
    requires (StreamSetting(ident) || ident == STREAM) && ident in m
    ensures SanitisedValue(env, ident, m, live) == m[ident]
  {
    assert ident !in HISTORIES && ident !in DEFAULT_TO_EMPTY;
  }

  lemma StreamUrlKept(env: Surroundings, m: Memory, live: Memory)
    ensures StreamUrl(Sanitise(env, m, live)) == StreamUrl(m)
  {
    var r := Sanitise(env, m, live);
    forall ident | StreamSetting(ident) && ident in m
      ensures r[ident] == m[ident]
    {
      StreamSettingKept(env, ident, m, live);
    }
    assert StreamSetting(STREAM_MODE) && StreamSetting(STREAM_PORT);
    assert StreamSetting(TWITCH_KEY) && StreamSetting(YOUTUBE_KEY);
  }

  /** One setting after a load into the live settings. */
  lemma LoadedAt(env: Surroundings, conf: Config, table: seq<Setting>, prior: Memory, ident: string)
    requires ident in prior
    ensures var raw := LoadRaw(env, conf, table, prior);
            var live := LoadLive(env, conf, table, prior);
            && ident in live
            && live[ident] == if ident == STREAM && StreamUrl(raw).Some? then TextValue(StreamUrl(raw).value)
                              else SanitisedValue(env, ident, raw, raw)
  {
    var raw := LoadRaw(env, conf, table, prior);
    StreamUrlKept(env, raw, raw);
  }

  lemma StreamedSettles(m: Memory)
    ensures StreamUrl(Streamed(m)) == StreamUrl(m)
    ensures Streamed(Streamed(m)) == Streamed(m)
  {
  }

  /** A new streaming address gives sanitising nothing to do. */
  lemma SanitisedAfterStreaming(env: Surroundings, m: Memory, ident: string)
    requires ident in m && SanitisedValue(env, ident, m, m) == m[ident]
    ensures var r := Streamed(m); SanitisedValue(env, ident, r, r) == r[ident]
  {
    var r := Streamed(m);
    assert TextOf(r, "content_history_dir") == TextOf(m, "content_history_dir");
    assert TextOf(r, MENU) == TextOf(m, MENU) && TextOf(r, VIDEO) == TextOf(m, VIDEO);
    if ident == STREAM {
      StreamSettingKept(env, ident, r, r);
    }
  }

  /** The table has the rewind buffer size, as the program's table of sizes does. */
  ghost predicate HasRewindRow(table: seq<Setting>) {
    exists i :: 0 <= i < |table| && table[i].ident == REWIND && table[i].kind == SizeKind
  }

  lemma SettledAt(env: Surroundings, conf: Config, table: seq<Setting>, prior: Memory, ident: string)
    requires SameKinds(table) && (REWIND in prior ==> HasRewindRow(table)) && ident in LoadRaw(env, conf, table, prior)
    ensures Steady(env, LoadLive(env, conf, table, prior), ident)
  {
    var raw := LoadRaw(env, conf, table, prior);
    SanitiseIsIdempotent(env, raw, ident);
    SanitisedAfterStreaming(env, Sanitise(env, raw, raw), ident);
    if ident == REWIND {
      RewindIsAdjusted(env, conf, table, prior);
    }
  }

  /** Every load leaves settled settings behind, so that a later override can be taken from them. */
  lemma LoadSettles(env: Surroundings, conf: Config, table: seq<Setting>, prior: Memory)
    requires SameKinds(table) && (REWIND in prior ==> HasRewindRow(table))
    ensures Settled(env, LoadLive(env, conf, table, prior))
  {
    var raw, r := LoadRaw(env, conf, table, prior), LoadLive(env, conf, table, prior);
    StreamedSettles(Sanitise(env, raw, raw));
    forall ident
      ensures Steady(env, r, ident)
    {
      if ident in r {
        SettledAt(env, conf, table, prior, ident);
      }
    }
  }

  lemma RewindIsAdjusted(env: Surroundings, conf: Config, table: seq<Setting>, prior: Memory)
    requires SameKinds(table) && REWIND in LoadRaw(env, conf, table, prior)
    requires REWIND in prior ==> HasRewindRow(table)
    ensures var v := LoadRaw(env, conf, table, prior)[REWIND]; AdjustSize(REWIND, v) == v
  {
    LoadKeepsKeys(env, conf, table, prior);
    var i :| 0 <= i < |table| && table[i].ident == REWIND && table[i].kind == SizeKind;
    LoadRawAt(env, conf, table, prior, REWIND, i);
    RawIsAdjusted(env, conf, table[i], prior[REWIND]);
  }

  lemma RawIsAdjusted(env: Surroundings, conf: Config, s: Setting, prior: Value)
    requires s.kind == SizeKind
    ensures AdjustSize(s.ident, RawValue(env, conf, s, prior)) == RawValue(env, conf, s, prior)
  {
  }

  lemma {:induction false} LoadKeepsKeys(env: Surroundings, conf: Config, table: seq<Setting>, prior: Memory)
    ensures LoadRaw(env, conf, table, prior).Keys == prior.Keys
  {
    if table != [] {
      LoadKeepsKeys(env, conf, table[..|table| - 1], prior);
    }
  }

  /** The sanitised base that an override is compared with. */
  function BaseView(env: Surroundings, base: Config, table: seq<Setting>, zero: Memory, mem: Memory): Memory {
    Load(env, base, table, zero, mem)
  }

  /** What the settings are after loading the base with the recorded override on top. */
  function Reloaded(env: Surroundings, base: Config, table: seq<Setting>, zero: Memory, mem: Memory,
                    prior: Memory): Memory {
    var file := ReadBack(Diff(env, table, BaseView(env, base, table, zero, mem), mem));
    LoadLive(env, Append(base, file), table, prior)
  }

  function ReloadedRaw(env: Surroundings, base: Config, table: seq<Setting>, zero: Memory, mem: Memory,
                       prior: Memory): Memory {
    var file := ReadBack(Diff(env, table, BaseView(env, base, table, zero, mem), mem));
    LoadRaw(env, Append(base, file), table, prior)
  }

  /** The reloaded settings before the streaming address is set. */
  function Resanitised(env: Surroundings, base: Config, table: seq<Setting>, zero: Memory, mem: Memory,
                       prior: Memory): Memory {
    var raw := ReloadedRaw(env, base, table, zero, mem, prior);
    Sanitise(env, raw, raw)
  }

  lemma ReloadedAt(env: Surroundings, base: Config, table: seq<Setting>, zero: Memory, mem: Memory,
                   prior: Memory, ident: string)
    requires ident in prior
    ensures var url := StreamUrl(ReloadedRaw(env, base, table, zero, mem, prior));
            var reloaded := Reloaded(env, base, table, zero, mem, prior);
            && ident in reloaded && ident in Resanitised(env, base, table, zero, mem, prior)
            && reloaded[ident] == if ident == STREAM && url.Some? then TextValue(url.value)
                                  else Resanitised(env, base, table, zero, mem, prior)[ident]
  {
    var file := ReadBack(Diff(env, table, BaseView(env, base, table, zero, mem), mem));
    LoadedAt(env, Append(base, file), table, prior, ident);
  }

  ghost predicate Ready(table: seq<Setting>, zero: Memory, mem: Memory, prior: Memory) {
    && SameKinds(table) && Typed(table, zero) && Typed(table, mem) && Typed(table, prior)
  }

  /** The value of a setting in the override file. */
  function Recorded(env: Surroundings, s: Setting, base: Memory, mem: Memory): Option<Value>
    requires s.ident in mem
  {
    var text := if Differs(s, base, mem) then ReadBackText(WriteValue(env, s.kind, mem[s.ident])) else None;
    if text.None? then None else ReadValue(env, s.kind, text.value)
  }

  /** Whatever is left of a written value can be read. */
  lemma ReadsAsItsKind(env: Surroundings, kind: Kind, v: Value)
    requires Fits(kind, v)
    ensures var t := ReadBackText(WriteValue(env, kind, v));
            t.Some? ==> ReadValue(env, kind, t.value).Some? && Fits(kind, ReadValue(env, kind, t.value).value)
  {
    RecordedValue(env, kind, v);
    if v.SizeValue? {
      SizeTextIsPlain(env, v.n);
      SizeText(v.n);
    }
  }

  /** Before sanitising, a reloaded setting is the recorded value if there is one, else the base value. */
  lemma {:induction false} ReloadedRawAt(env: Surroundings, base: Config, table: seq<Setting>, zero: Memory,
                                         mem: Memory, prior: Memory, i: nat)
    requires Ready(table, zero, mem, prior) && i < |table| && Loads(table[i])
    ensures var s := table[i];
            var view := BaseView(env, base, table, zero, mem);
            var recorded := Recorded(env, s, view, mem);
            && view[s.ident] == SanitisedValue(env, s.ident, LoadRaw(env, base, table, zero), mem)
            && LoadRaw(env, base, table, zero)[s.ident] == RawValue(env, base, s, zero[s.ident])
            && ReloadedRaw(env, base, table, zero, mem, prior)[s.ident] ==
               (if recorded.Some? then AdjustSize(s.ident, recorded.value) else RawValue(env, base, s, prior[s.ident]))
  {
    var s := table[i];
    var view := BaseView(env, base, table, zero, mem);
    var file := ReadBack(Diff(env, table, view, mem));
    LoadRawAt(env, base, table, zero, s.ident, i);
    LoadRawAt(env, Append(base, file), table, prior, s.ident, i);
    GetAppend(base, file, s.ident);
    DiffNamesWhatDiffers(env, table, view, mem, i);
    ReadsAsItsKind(env, s.kind, mem[s.ident]);
  }

  /** A setting that a file names does not depend on what was there before. */
  lemma NamedIgnoresPrior(env: Surroundings, conf: Config, s: Setting, a: Value, b: Value)
    requires Loads(s) && Names(env, conf, s)
    ensures RawValue(env, conf, s, a) == RawValue(env, conf, s, b)
  {
  }

  /** Settings whose sanitised value is a function of their own value alone. */
  predicate SelfContained(ident: string) {
    ident !in HISTORIES && ident != MENU
  }

  lemma SelfContainedSanitising(env: Surroundings, ident: string, m: Memory, m': Memory, live: Memory, live': Memory)
    requires SelfContained(ident) && ident in m && ident in m' && m[ident] == m'[ident]
    ensures SanitisedValue(env, ident, m, live) == SanitisedValue(env, ident, m', live')
  {
  }

  /** A history path that is not empty is left alone. */
  lemma HistoryKept(env: Surroundings, ident: string, m: Memory, live: Memory)
    requires ident in HISTORIES && ident in m && m[ident].TextValue? && m[ident].s != ""
    ensures SanitisedValue(env, ident, m, live) == m[ident]
  {
  }

  lemma SettledMenuIsCompatible(env: Surroundings, mem: Memory)
    requires Settled(env, mem) && MENU in mem && mem[MENU].TextValue?
    ensures MenuCompatible(mem)
  {
    SteadyAt(env, mem, MENU);
    MenuIsSanitised(env, mem, mem);
  }

  lemma MenuIsSanitised(env: Surroundings, m: Memory, live: Memory)
    requires MENU in m && m[MENU].TextValue?
    ensures SanitisedValue(env, MENU, m, live) == if MenuCompatible(live) then m[MENU] else TextValue("rgui")
  {
    assert MENU !in HISTORIES && MENU !in DEFAULT_TO_EMPTY;
  }

  /** The address that the streaming mode prescribes needs no record. */
  predicate Prescribed(ident: string, mem: Memory) {
    ident == STREAM && StreamUrl(mem).Some?
  }

  /** Every difference that needs a record is recorded in a form that reads back. */
  ghost predicate DifferencesRecordable(env: Surroundings, table: seq<Setting>, base: Memory, mem: Memory) {
    forall i :: 0 <= i < |table| && Loads(table[i]) && Differs(table[i], base, mem) ==>
      Recordable(env, table[i].kind, mem[table[i].ident]) || Prescribed(table[i].ident, mem)
  }

  /** The raw reloaded value is the in-memory value, or both that and the base view agree with it. */
  lemma RawIsMemoryOrBase(env: Surroundings, base: Config, table: seq<Setting>, zero: Memory, mem: Memory,
                          prior: Memory, i: nat)
    requires Ready(table, zero, mem, prior) && i < |table| && Loads(table[i]) && Names(env, base, table[i])
    requires Settled(env, mem) && table[i].ident != SHADER
    requires var view := BaseView(env, base, table, zero, mem);
             Differs(table[i], view, mem) ==> Recordable(env, table[i].kind, mem[table[i].ident])
    ensures var s := table[i];
            var raw := ReloadedRaw(env, base, table, zero, mem, prior)[s.ident];
            var baseRaw := LoadRaw(env, base, table, zero);
            if Differs(s, BaseView(env, base, table, zero, mem), mem) then raw == mem[s.ident]
            else raw == baseRaw[s.ident] && SanitisedValue(env, s.ident, baseRaw, mem) == mem[s.ident]
  {
    var s := table[i];
    SteadyAt(env, mem, s.ident);
    ReloadedRawAt(env, base, table, zero, mem, prior, i);
    if Differs(s, BaseView(env, base, table, zero, mem), mem) {
      RecordedValue(env, s.kind, mem[s.ident]);
    } else {
      NamedIgnoresPrior(env, base, s, zero[s.ident], prior[s.ident]);
    }
  }

  lemma NamedTextIsNotEmpty(env: Surroundings, conf: Config, s: Setting, prior: Value)
    requires Textual(s.kind) && Loads(s) && Names(env, conf, s)
    ensures RawValue(env, conf, s, prior).TextValue? && RawValue(env, conf, s, prior).s != ""
  {
    NeverEmpty(env.dirs, Get(conf, s.ident).value);
  }

  lemma SelfContainedRestored(env: Surroundings, base: Config, table: seq<Setting>, zero: Memory, mem: Memory,
                              prior: Memory, i: nat)
    requires Ready(table, zero, mem, prior) && i < |table| && Loads(table[i]) && Names(env, base, table[i])
    requires Settled(env, mem) && table[i].ident != SHADER && SelfContained(table[i].ident)
    requires var view := BaseView(env, base, table, zero, mem);
             Differs(table[i], view, mem) ==> Recordable(env, table[i].kind, mem[table[i].ident])
    ensures Resanitised(env, base, table, zero, mem, prior)[table[i].ident] == mem[table[i].ident]
  {
    var s := table[i];
    RawIsMemoryOrBase(env, base, table, zero, mem, prior, i);
    var raw, baseRaw := ReloadedRaw(env, base, table, zero, mem, prior), LoadRaw(env, base, table, zero);
    SteadyAt(env, mem, s.ident);
    if raw[s.ident] == mem[s.ident] {
      SelfContainedSanitising(env, s.ident, raw, mem, raw, mem);
    } else {
      SelfContainedSanitising(env, s.ident, raw, baseRaw, raw, mem);
    }
  }

  lemma HistoryRestored(env: Surroundings, base: Config, table: seq<Setting>, zero: Memory, mem: Memory,
                        prior: Memory, i: nat)
    requires Ready(table, zero, mem, prior) && i < |table| && Loads(table[i]) && Names(env, base, table[i])
    requires Settled(env, mem) && table[i].ident in HISTORIES && table[i].kind == PathKind
    requires var view := BaseView(env, base, table, zero, mem);
             Differs(table[i], view, mem) ==> Recordable(env, table[i].kind, mem[table[i].ident])
    ensures Resanitised(env, base, table, zero, mem, prior)[table[i].ident] == mem[table[i].ident]
  {
    var s := table[i];
    assert s.ident != SHADER;
    RawIsMemoryOrBase(env, base, table, zero, mem, prior, i);
    ReloadedRawAt(env, base, table, zero, mem, prior, i);
    var raw, baseRaw := ReloadedRaw(env, base, table, zero, mem, prior), LoadRaw(env, base, table, zero);
    NamedTextIsNotEmpty(env, base, s, zero[s.ident]);
    HistoryKept(env, s.ident, baseRaw, mem);
    HistoryKept(env, s.ident, raw, raw);
  }

  /** The menu driver depends on the video driver, which must be restored with it. */
  lemma MenuRestored(env: Surroundings, base: Config, table: seq<Setting>, zero: Memory, mem: Memory,
                     prior: Memory, i: nat)
    requires Ready(table, zero, mem, prior) && i < |table| && Loads(table[i]) && Names(env, base, table[i])
    requires Settled(env, mem) && table[i].ident == MENU && table[i].kind == TextKind
    requires var view := BaseView(env, base, table, zero, mem);
             Differs(table[i], view, mem) ==> Recordable(env, table[i].kind, mem[table[i].ident])
    requires TextOf(ReloadedRaw(env, base, table, zero, mem, prior), VIDEO) == TextOf(mem, VIDEO)
    ensures Reloaded(env, base, table, zero, mem, prior)[MENU] == mem[MENU]
  {
    RawIsMemoryOrBase(env, base, table, zero, mem, prior, i);
    var raw, baseRaw := ReloadedRaw(env, base, table, zero, mem, prior), LoadRaw(env, base, table, zero);
    SettledMenuIsCompatible(env, mem);
    ReloadedRawAt(env, base, table, zero, mem, prior, i);
    NamedTextIsNotEmpty(env, base, table[i], zero[MENU]);
    MenuIsSanitised(env, baseRaw, mem);
    assert raw[MENU] == mem[MENU];
    MenuIsSanitised(env, raw, raw);
    assert MenuCompatible(raw);
  }

  lemma VideoIsRestoredRaw(env: Surroundings, base: Config, table: seq<Setting>, zero: Memory, mem: Memory,
                           prior: Memory, i: nat)
    requires Ready(table, zero, mem, prior) && i < |table| && Loads(table[i]) && Names(env, base, table[i])
    requires Settled(env, mem) && table[i].ident == VIDEO && table[i].kind == TextKind
    requires var view := BaseView(env, base, table, zero, mem);
             Differs(table[i], view, mem) ==> Recordable(env, table[i].kind, mem[table[i].ident])
    ensures TextOf(ReloadedRaw(env, base, table, zero, mem, prior), VIDEO) == TextOf(mem, VIDEO)
  {
    RawIsMemoryOrBase(env, base, table, zero, mem, prior, i);
    VideoIsKept(env, LoadRaw(env, base, table, zero), mem);
  }

  lemma VideoIsKept(env: Surroundings, m: Memory, live: Memory)
    requires VIDEO in m
    ensures SanitisedValue(env, VIDEO, m, live) == m[VIDEO]
  {
    assert VIDEO !in HISTORIES && VIDEO !in DEFAULT_TO_EMPTY;
  }

  /** The table has the video driver, as the menu driver needs it, and the menu driver is text and the history
      paths are paths. */
  ghost predicate KnownKinds(table: seq<Setting>) {
    && (exists v :: 0 <= v < |table| && table[v] == Setting(VIDEO, TextKind, true))
    && (forall i :: 0 <= i < |table| && table[i].ident in HISTORIES ==> table[i].kind == PathKind)
    && (forall i :: 0 <= i < |table| && table[i].ident == MENU ==> table[i].kind == TextKind)
  }

  // ---------------------------------------------------------------- what cannot be recorded

  /** The default log directory, which sanitising puts in, can itself be recorded. */
  predicate LogsRecordable(env: Surroundings) {
    var logs := TextValue(env.logsDirectory);
    Recordable(env, TextKind, logs) && Recordable(env, PathKind, logs)
  }

  /** Sanitising another text, not an empty one, does not bring a text back that sanitising never puts in. */
  lemma OtherTextIsLost(env: Surroundings, ident: string, x: string, m: Memory, live: Memory)
    requires ident in m && m[ident].TextValue? && m[ident].s != "" && m[ident].s != x
    requires x != "" && x != env.logsDirectory && (ident == MENU ==> x != "rgui")
    ensures SanitisedValue(env, ident, m, live) != TextValue(x)
  {
  }

  lemma SizeTextIsPlain(env: Surroundings, n: nat)
    requires n < SIZE_RANGE
    ensures ReadBackText(WriteValue(env, SizeKind, SizeValue(n))) == Some(SignedDec(Int32(n)))
  {
    var i := Int32(n);
    DecIsPlain(if i < 0 then -i else i);
    PlainReadsBack(SignedDec(i));
  }

  /** A size that its 32-bit text does not give back is not made good by the megabyte rule either. */
  lemma UnrecordableSize(env: Surroundings, ident: string, n: nat)
    requires n < SIZE_RANGE && !Recordable(env, SizeKind, SizeValue(n))
    ensures var t := ReadBackText(WriteValue(env, SizeKind, SizeValue(n)));
            t.Some? && ReadValue(env, SizeKind, t.value).Some? &&
            AdjustSize(ident, ReadValue(env, SizeKind, t.value).value) != SizeValue(n)
  {
    SizeTextIsPlain(env, n);
    SizeText(n);
    SignExtension(n);
    MegabytesDiffer(n);
  }

  lemma MegabytesDiffer(n: nat)
    requires 0x8000_0000 <= n < SIZE_RANGE
    ensures n % 0x1_0000_0000 < 10000 ==> n != (n % 0x1_0000_0000) * 1024 * 1024
  {
  }

  /** A text that was dropped from the file is not brought back by sanitising the base value again. */
  lemma DroppedTextIsLost(env: Surroundings, ident: string, raw: Memory, baseRaw: Memory, mem: Memory)
    requires Settled(env, mem) && ident in raw && ident in baseRaw && ident in mem
    requires raw[ident] == baseRaw[ident] && raw[ident].TextValue? && raw[ident].s != ""
    requires mem[ident].TextValue? && (ident == MENU ==> mem[ident].s != "rgui")
    requires SanitisedValue(env, ident, baseRaw, mem) != mem[ident]
    ensures SanitisedValue(env, ident, raw, raw) != mem[ident]
  {
    if ident in HISTORIES {
      HistoryKept(env, ident, raw, raw);
      HistoryKept(env, ident, baseRaw, mem);
    } else if ident == MENU {
      SettledMenuIsCompatible(env, mem);
      MenuIsSanitised(env, raw, raw);
      MenuIsSanitised(env, baseRaw, mem);
    } else {
      SelfContainedSanitising(env, ident, raw, baseRaw, raw, mem);
    }
  }

  /** What is read of a text that does not read back, if anything is. */
  lemma RecordedText(env: Surroundings, s: Setting, base: Memory, mem: Memory)
    requires Textual(s.kind) && Differs(s, base, mem) && mem[s.ident].TextValue?
    requires !Recordable(env, s.kind, mem[s.ident]) && Recorded(env, s, base, mem).Some?
    ensures var v := Recorded(env, s, base, mem).value;
            v.TextValue? && v.s != "" && v.s != mem[s.ident].s && mem[s.ident].s != ""
  {
    var text := WriteValue(env, s.kind, mem[s.ident]);
    RecordedValue(env, s.kind, mem[s.ident]);
    PlainReadsBack(text);
    NeverEmpty(env.dirs, ReadBackText(text).value);
    NeverEmpty(env.dirs, mem[s.ident].s);
  }

  lemma CutTextIsLost(env: Surroundings, base: Config, table: seq<Setting>, zero: Memory, mem: Memory,
                      prior: Memory, i: nat)
    requires Ready(table, zero, mem, prior) && i < |table| && Loads(table[i]) && Names(env, base, table[i])
    requires Settled(env, mem) && Textual(table[i].kind) && KnownKinds(table) && LogsRecordable(env)
    requires Differs(table[i], BaseView(env, base, table, zero, mem), mem)
    requires !Recordable(env, table[i].kind, mem[table[i].ident])
    requires Recorded(env, table[i], BaseView(env, base, table, zero, mem), mem).Some?
    ensures Resanitised(env, base, table, zero, mem, prior)[table[i].ident] != mem[table[i].ident]
  {
    var s, raw := table[i], ReloadedRaw(env, base, table, zero, mem, prior);
    RecordReturns(env, base, table, zero, mem, prior, i);
    RecordedText(env, s, BaseView(env, base, table, zero, mem), mem);
    DefaultMenuIsRecordable(env);
    OtherTextIsLost(env, s.ident, mem[s.ident].s, raw, raw);
  }

  lemma DefaultMenuIsRecordable(env: Surroundings)
    ensures Recordable(env, TextKind, TextValue("rgui"))
  {
  }

  /** A text returns as it was recorded. */
  lemma RecordReturns(env: Surroundings, base: Config, table: seq<Setting>, zero: Memory, mem: Memory,
                      prior: Memory, i: nat)
    requires Ready(table, zero, mem, prior) && i < |table| && Loads(table[i]) && Textual(table[i].kind)
    requires Recorded(env, table[i], BaseView(env, base, table, zero, mem), mem).Some?
    ensures ReloadedRaw(env, base, table, zero, mem, prior)[table[i].ident] ==
            Recorded(env, table[i], BaseView(env, base, table, zero, mem), mem).value
  {
    ReloadedRawAt(env, base, table, zero, mem, prior, i);
  }

  /** Without a record the raw base value returns. */
  lemma BaseReturns(env: Surroundings, base: Config, table: seq<Setting>, zero: Memory, mem: Memory,
                    prior: Memory, i: nat)
    requires Ready(table, zero, mem, prior) && i < |table| && Loads(table[i]) && Names(env, base, table[i])
    requires Textual(table[i].kind) && Recorded(env, table[i], BaseView(env, base, table, zero, mem), mem).None?
    ensures var ident, raw := table[i].ident, ReloadedRaw(env, base, table, zero, mem, prior);
            && raw[ident] == LoadRaw(env, base, table, zero)[ident] && raw[ident].TextValue? && raw[ident].s != ""
            && BaseView(env, base, table, zero, mem)[ident] ==
               SanitisedValue(env, ident, LoadRaw(env, base, table, zero), mem)
  {
    var s := table[i];
    ReloadedRawAt(env, base, table, zero, mem, prior, i);
    NamedIgnoresPrior(env, base, s, zero[s.ident], prior[s.ident]);
    NamedTextIsNotEmpty(env, base, s, zero[s.ident]);
  }

  lemma EmptiedTextIsLost(env: Surroundings, base: Config, table: seq<Setting>, zero: Memory, mem: Memory,
                          prior: Memory, i: nat)
    requires Ready(table, zero, mem, prior) && i < |table| && Loads(table[i]) && Names(env, base, table[i])
    requires Settled(env, mem) && Textual(table[i].kind) && KnownKinds(table)
    requires Differs(table[i], BaseView(env, base, table, zero, mem), mem)
    requires !Recordable(env, table[i].kind, mem[table[i].ident])
    requires Recorded(env, table[i], BaseView(env, base, table, zero, mem), mem).None?
    ensures Resanitised(env, base, table, zero, mem, prior)[table[i].ident] != mem[table[i].ident]
  {
    BaseReturns(env, base, table, zero, mem, prior, i);
    var raw, baseRaw := ReloadedRaw(env, base, table, zero, mem, prior), LoadRaw(env, base, table, zero);
    DroppedTextIsLost(env, table[i].ident, raw, baseRaw, mem);
  }

  lemma UnrecordableIsLost(env: Surroundings, base: Config, table: seq<Setting>, zero: Memory, mem: Memory,
                           prior: Memory, i: nat)
    requires Ready(table, zero, mem, prior) && i < |table| && Loads(table[i]) && Names(env, base, table[i])
    requires Settled(env, mem) && LogsRecordable(env) && KnownKinds(table)
    requires Differs(table[i], BaseView(env, base, table, zero, mem), mem)
    requires !Recordable(env, table[i].kind, mem[table[i].ident])
    ensures Resanitised(env, base, table, zero, mem, prior)[table[i].ident] != mem[table[i].ident]
  {
    var s := table[i];
    if Textual(s.kind) {
      if Recorded(env, s, BaseView(env, base, table, zero, mem), mem).Some? {
        CutTextIsLost(env, base, table, zero, mem, prior, i);
      } else {
        EmptiedTextIsLost(env, base, table, zero, mem, prior, i);
      }
    } else {
      ReloadedRawAt(env, base, table, zero, mem, prior, i);
      UnrecordableSize(env, s.ident, mem[s.ident].n);
    }
  }

  /** Apart from the streaming address: reloading gives a setting back if and only if it equals the base view
      or its value reads back. An emptied text, a text with a quote, a path that abbreviating spoils and a size
      that does not fit 32 bits are lost. */
  lemma ResanitisedExactly(env: Surroundings, base: Config, table: seq<Setting>, zero: Memory, mem: Memory,
                           prior: Memory, i: nat)
    requires Ready(table, zero, mem, prior) && i < |table| && Loads(table[i]) && Names(env, base, table[i])
    requires Settled(env, mem) && KnownKinds(table) && LogsRecordable(env)
    requires table[i].ident != SHADER && table[i].ident != MENU
    ensures Resanitised(env, base, table, zero, mem, prior)[table[i].ident] == mem[table[i].ident] <==>
            BaseView(env, base, table, zero, mem)[table[i].ident] == mem[table[i].ident] ||
            Recordable(env, table[i].kind, mem[table[i].ident])
  {
    var s := table[i];
    ReloadedRawAt(env, base, table, zero, mem, prior, i);
    if Differs(s, BaseView(env, base, table, zero, mem), mem) && !Recordable(env, s.kind, mem[s.ident]) {
      UnrecordableIsLost(env, base, table, zero, mem, prior, i);
    } else if s.ident in HISTORIES {
      HistoryRestored(env, base, table, zero, mem, prior, i);
    } else {
      SelfContainedRestored(env, base, table, zero, mem, prior, i);
    }
  }

  /** For every loaded setting but the menu driver and the streaming address, which hang on other settings, the
      condition is exact. */
  lemma RestoredExactlyWhenRecordable(env: Surroundings, base: Config, table: seq<Setting>, zero: Memory,
                                      mem: Memory, prior: Memory, i: nat)
    requires Ready(table, zero, mem, prior) && i < |table| && Loads(table[i]) && Names(env, base, table[i])
    requires Settled(env, mem) && KnownKinds(table) && LogsRecordable(env)
    requires table[i].ident != SHADER && table[i].ident != MENU && table[i].ident != STREAM
    ensures Reloaded(env, base, table, zero, mem, prior)[table[i].ident] == mem[table[i].ident] <==>
            BaseView(env, base, table, zero, mem)[table[i].ident] == mem[table[i].ident] ||
            Recordable(env, table[i].kind, mem[table[i].ident])
  {
    ResanitisedExactly(env, base, table, zero, mem, prior, i);
    ReloadedAt(env, base, table, zero, mem, prior, table[i].ident);
  }

  // ---------------------------------------------------------------- the streaming address

  /** The streaming address: where the reloaded settings prescribe one, it comes back exactly when it is that,
      and otherwise like any other setting. */
  lemma StreamRestoredExactly(env: Surroundings, base: Config, table: seq<Setting>, zero: Memory, mem: Memory,
                              prior: Memory, i: nat)
    requires Ready(table, zero, mem, prior) && i < |table| && Loads(table[i]) && Names(env, base, table[i])
    requires Settled(env, mem) && KnownKinds(table) && LogsRecordable(env) && table[i].ident == STREAM
    ensures var url := StreamUrl(ReloadedRaw(env, base, table, zero, mem, prior));
            Reloaded(env, base, table, zero, mem, prior)[STREAM] == mem[STREAM] <==>
            if url.Some? then mem[STREAM] == TextValue(url.value)
            else BaseView(env, base, table, zero, mem)[STREAM] == mem[STREAM] ||
                 Recordable(env, table[i].kind, mem[STREAM])
  {
    ResanitisedExactly(env, base, table, zero, mem, prior, i);
    ReloadedAt(env, base, table, zero, mem, prior, STREAM);
  }

  lemma ReloadedStreamUrl(env: Surroundings, base: Config, table: seq<Setting>, zero: Memory, mem: Memory,
                          prior: Memory)
    requires SameStream(Reloaded(env, base, table, zero, mem, prior), mem)
    ensures StreamUrl(ReloadedRaw(env, base, table, zero, mem, prior)) == StreamUrl(mem)
  {
    var raw := ReloadedRaw(env, base, table, zero, mem, prior);
    var m := Sanitise(env, raw, raw);
    StreamUrlKept(env, raw, raw);
    StreamedSettles(m);
    assert Reloaded(env, base, table, zero, mem, prior) == Streamed(m);
    SameStreamUrl(Streamed(m), mem);
  }

  /** When the four settings that the address is computed from come back, it is lost only if they prescribe none
      and the address itself cannot be recorded. */
  lemma {:induction false} StreamRestored(env: Surroundings, base: Config, table: seq<Setting>, zero: Memory,
                                          mem: Memory, prior: Memory, i: nat)
    requires Ready(table, zero, mem, prior) && i < |table| && Loads(table[i]) && Names(env, base, table[i])
    requires Settled(env, mem) && KnownKinds(table) && LogsRecordable(env) && table[i].ident == STREAM
    requires SameStream(Reloaded(env, base, table, zero, mem, prior), mem)
    ensures Reloaded(env, base, table, zero, mem, prior)[STREAM] == mem[STREAM] <==>
            StreamUrl(mem).Some? || BaseView(env, base, table, zero, mem)[STREAM] == mem[STREAM] ||
            Recordable(env, table[i].kind, mem[STREAM])
  {
    StreamRestoredExactly(env, base, table, zero, mem, prior, i);
    ReloadedStreamUrl(env, base, table, zero, mem, prior);
  }

  /** The four settings cannot be left out of that: with a Twitch key that was emptied in memory the key of the
      base file returns, and the reload replaces the address although it was recorded. */
  lemma {:induction false} EmptiedKeyReplacesUrl(env: Surroundings, base: Config, table: seq<Setting>, zero: Memory,
                                                 mem: Memory, prior: Memory, k: nat, m: nat)
    requires Ready(table, zero, mem, prior) && k < |table| && m < |table| && STREAM in prior
    requires table[k] == Setting(TWITCH_KEY, TextKind, true) && table[m] == Setting(STREAM_MODE, UintKind, true)
    requires Names(env, base, table[k]) && Names(env, base, table[m]) && Settled(env, mem)
    requires mem[STREAM_MODE] == UintValue(0) && mem[TWITCH_KEY] == TextValue("")
    ensures Reloaded(env, base, table, zero, mem, prior)[STREAM] ==
            TextValue(TWITCH_ADDRESS + Get(base, TWITCH_KEY).value)
  {
    var raw := ReloadedRaw(env, base, table, zero, mem, prior);
    EmptiedKeyReturns(env, base, table, zero, mem, prior, k);
    RawIsMemoryOrBase(env, base, table, zero, mem, prior, m);
    StreamSettingKept(env, STREAM_MODE, LoadRaw(env, base, table, zero), mem);
    assert raw[STREAM_MODE] == UintValue(0);
    ReloadedAt(env, base, table, zero, mem, prior, STREAM);
  }

  lemma EmptiedKeyReturns(env: Surroundings, base: Config, table: seq<Setting>, zero: Memory, mem: Memory,
                          prior: Memory, k: nat)
    requires Ready(table, zero, mem, prior) && k < |table| && table[k] == Setting(TWITCH_KEY, TextKind, true)
    requires Names(env, base, table[k]) && mem[TWITCH_KEY] == TextValue("")
    ensures ReloadedRaw(env, base, table, zero, mem, prior)[TWITCH_KEY] == TextValue(Get(base, TWITCH_KEY).value)
  {
    ReloadedRawAt(env, base, table, zero, mem, prior, k);
  }

  /** The file has no readable line for a setting. An empty text in the file is no line. */
  predicate Unnamed(env: Surroundings, conf: Config, s: Setting) {
    var text := Get(conf, s.ident);
    text.None? || ReadValue(env, s.kind, text.value).None?
  }

  /** What becomes of a value by the megabyte rule and by sanitising, where that hangs on no other setting. */
  function Kept(env: Surroundings, ident: string, v: Value): Value {
    var m := map[ident := AdjustSize(ident, v)];
    SanitisedValue(env, ident, m, m)
  }

  /** A setting that the base does not name keeps what was there before: the base that the override is compared
      with shows the initial value, and reloading gives what the override file says, which may be a text cut at a
      quote or a size cut to 32 bits, and the value before the reload where it says nothing. */
  lemma UnnamedSettings(env: Surroundings, base: Config, table: seq<Setting>, zero: Memory, mem: Memory,
                        prior: Memory, i: nat)
    requires Ready(table, zero, mem, prior) && i < |table| && Loads(table[i]) && Unnamed(env, base, table[i])
    requires Settled(env, mem) && SelfContained(table[i].ident) && table[i].ident != STREAM
    ensures var s, view := table[i], BaseView(env, base, table, zero, mem);
            var recorded := Recorded(env, s, view, mem);
            && view[s.ident] == Kept(env, s.ident, zero[s.ident])
            && Reloaded(env, base, table, zero, mem, prior)[s.ident] ==
               Kept(env, s.ident, if recorded.Some? then recorded.value else prior[s.ident])
            && (recorded == Some(mem[s.ident]) <==> Differs(s, view, mem) && Recordable(env, s.kind, mem[s.ident]))
            && Kept(env, s.ident, mem[s.ident]) == mem[s.ident]
  {
    var s, view := table[i], BaseView(env, base, table, zero, mem);
    ReloadedRawAt(env, base, table, zero, mem, prior, i);
    ReloadedAt(env, base, table, zero, mem, prior, s.ident);
    RecordedValue(env, s.kind, mem[s.ident]);
    var raw, baseRaw := ReloadedRaw(env, base, table, zero, mem, prior), LoadRaw(env, base, table, zero);
    KeptAlone(env, s.ident, zero[s.ident], baseRaw, mem);
    var recorded := Recorded(env, s, view, mem);
    KeptAlone(env, s.ident, if recorded.Some? then recorded.value else prior[s.ident], raw, raw);
    SteadyAt(env, mem, s.ident);
    KeptAlone(env, s.ident, mem[s.ident], mem, mem);
  }

  lemma KeptAlone(env: Surroundings, ident: string, v: Value, m: Memory, live: Memory)
    requires SelfContained(ident) && ident in m && m[ident] == AdjustSize(ident, v)
    ensures SanitisedValue(env, ident, m, live) == Kept(env, ident, v)
  {
    var alone := map[ident := AdjustSize(ident, v)];
    SelfContainedSanitising(env, ident, m, alone, live, alone);
  }

  /** All loaded settings but the shader have the value they had in memory. */
  ghost predicate Restored(table: seq<Setting>, reloaded: Memory, mem: Memory) {
    forall i :: 0 <= i < |table| && Loads(table[i]) && table[i].ident != SHADER ==>
      Same(reloaded, mem, table[i].ident)
  }

  /** The settings behind the streaming address are in the table or, as the mode in a build without
      networking, as they were. */
  ghost predicate StreamHeld(table: seq<Setting>, prior: Memory, mem: Memory) {
    forall ident :: StreamSetting(ident) ==>
      Same(prior, mem, ident) || (ident in prior && exists k :: LoadingRow(table, k, ident))
  }

  ghost predicate StreamRowsRestored(table: seq<Setting>, reloaded: Memory, mem: Memory) {
    forall i :: 0 <= i < |table| && Loads(table[i]) && StreamSetting(table[i].ident) ==>
      Same(reloaded, mem, table[i].ident)
  }

  lemma HeldIsSame(env: Surroundings, base: Config, table: seq<Setting>, zero: Memory, mem: Memory, prior: Memory)
    requires Ready(table, zero, mem, prior) && StreamHeld(table, prior, mem)
    requires StreamRowsRestored(table, Reloaded(env, base, table, zero, mem, prior), mem)
    ensures SameStream(Reloaded(env, base, table, zero, mem, prior), mem)
  {
    var file := ReadBack(Diff(env, table, BaseView(env, base, table, zero, mem), mem));
    var raw := ReloadedRaw(env, base, table, zero, mem, prior);
    forall ident | StreamSetting(ident)
      ensures Same(Reloaded(env, base, table, zero, mem, prior), mem, ident)
    {
      ReloadedAt(env, base, table, zero, mem, prior, ident);
      if k :| LoadingRow(table, k, ident) {
        assert Same(Reloaded(env, base, table, zero, mem, prior), mem, table[k].ident);
      } else {
        NotLoaded(env, Append(base, file), table, prior, ident);
        StreamSettingKept(env, ident, raw, raw);
      }
    }
  }

  lemma RecordableIsRestored(env: Surroundings, base: Config, table: seq<Setting>, zero: Memory, mem: Memory,
                             prior: Memory, i: nat)
    requires Ready(table, zero, mem, prior) && NamesAll(env, base, table) && Settled(env, mem) && KnownKinds(table)
    requires DifferencesRecordable(env, table, BaseView(env, base, table, zero, mem), mem)
    requires i < |table| && Loads(table[i]) && table[i].ident != SHADER && table[i].ident != STREAM
    ensures Same(Reloaded(env, base, table, zero, mem, prior), mem, table[i].ident)
  {
    ReloadedAt(env, base, table, zero, mem, prior, table[i].ident);
    if table[i].ident in HISTORIES {
      HistoryRestored(env, base, table, zero, mem, prior, i);
    } else if table[i].ident == MENU {
      var v :| 0 <= v < |table| && table[v] == Setting(VIDEO, TextKind, true);
      VideoIsRestoredRaw(env, base, table, zero, mem, prior, v);
      MenuRestored(env, base, table, zero, mem, prior, i);
    } else {
      SelfContainedRestored(env, base, table, zero, mem, prior, i);
    }
  }

  lemma StreamIsRestored(env: Surroundings, base: Config, table: seq<Setting>, zero: Memory, mem: Memory,
                         prior: Memory, i: nat)
    requires Ready(table, zero, mem, prior) && i < |table| && Loads(table[i]) && Names(env, base, table[i])
    requires Settled(env, mem) && table[i].ident == STREAM
    requires var view := BaseView(env, base, table, zero, mem);
             Differs(table[i], view, mem) ==> Recordable(env, table[i].kind, mem[STREAM]) || StreamUrl(mem).Some?
    requires SameStream(Reloaded(env, base, table, zero, mem, prior), mem)
    ensures Same(Reloaded(env, base, table, zero, mem, prior), mem, STREAM)
  {
    ReloadedStreamUrl(env, base, table, zero, mem, prior);
    ReloadedAt(env, base, table, zero, mem, prior, STREAM);
    if StreamUrl(mem).None? {
      SelfContainedRestored(env, base, table, zero, mem, prior, i);
    } else {
      assert Streamed(mem)[STREAM] == mem[STREAM];
    }
  }

  lemma StreamRowsAreRestored(env: Surroundings, base: Config, table: seq<Setting>, zero: Memory, mem: Memory,
                              prior: Memory)
    requires Ready(table, zero, mem, prior) && NamesAll(env, base, table) && Settled(env, mem) && KnownKinds(table)
    requires DifferencesRecordable(env, table, BaseView(env, base, table, zero, mem), mem)
    ensures StreamRowsRestored(table, Reloaded(env, base, table, zero, mem, prior), mem)
  {
    forall i | 0 <= i < |table| && Loads(table[i]) && StreamSetting(table[i].ident)
      ensures Same(Reloaded(env, base, table, zero, mem, prior), mem, table[i].ident)
    {
      RecordableIsRestored(env, base, table, zero, mem, prior, i);
    }
  }

  lemma AllRecordableIsRestored(env: Surroundings, base: Config, table: seq<Setting>, zero: Memory, mem: Memory,
                                prior: Memory)
    requires Ready(table, zero, mem, prior) && NamesAll(env, base, table) && Settled(env, mem) && KnownKinds(table)
    requires StreamHeld(table, prior, mem)
    requires DifferencesRecordable(env, table, BaseView(env, base, table, zero, mem), mem)
    ensures Restored(table, Reloaded(env, base, table, zero, mem, prior), mem)
  {
    var reloaded := Reloaded(env, base, table, zero, mem, prior);
    StreamRowsAreRestored(env, base, table, zero, mem, prior);
    HeldIsSame(env, base, table, zero, mem, prior);
    forall i | 0 <= i < |table| && Loads(table[i]) && table[i].ident != SHADER
      ensures Same(reloaded, mem, table[i].ident)
    {
      if table[i].ident == STREAM {
        StreamIsRestored(env, base, table, zero, mem, prior, i);
      } else {
        RecordableIsRestored(env, base, table, zero, mem, prior, i);
      }
    }
  }

  lemma LostIsNotReloaded(env: Surroundings, base: Config, table: seq<Setting>, zero: Memory, mem: Memory,
                          prior: Memory, i: nat)
    requires Ready(table, zero, mem, prior) && i < |table| && Loads(table[i]) && Names(env, base, table[i])
    requires Settled(env, mem) && LogsRecordable(env) && KnownKinds(table)
    requires Differs(table[i], BaseView(env, base, table, zero, mem), mem)
    requires !Recordable(env, table[i].kind, mem[table[i].ident])
    requires table[i].ident == STREAM ==> StreamUrl(ReloadedRaw(env, base, table, zero, mem, prior)).None?
    ensures Reloaded(env, base, table, zero, mem, prior)[table[i].ident] != mem[table[i].ident]
  {
    UnrecordableIsLost(env, base, table, zero, mem, prior, i);
    ReloadedAt(env, base, table, zero, mem, prior, table[i].ident);
  }

  lemma RestoredStreamUrl(env: Surroundings, base: Config, table: seq<Setting>, zero: Memory, mem: Memory,
                          prior: Memory)
    requires Ready(table, zero, mem, prior) && StreamHeld(table, prior, mem)
    requires Restored(table, Reloaded(env, base, table, zero, mem, prior), mem)
    ensures StreamUrl(ReloadedRaw(env, base, table, zero, mem, prior)) == StreamUrl(mem)
  {
    HeldIsSame(env, base, table, zero, mem, prior);
    ReloadedStreamUrl(env, base, table, zero, mem, prior);
  }

  /** A difference that needs a record and has none spoils the restoration. */
  lemma LostIsNotRestored(env: Surroundings, base: Config, table: seq<Setting>, zero: Memory, mem: Memory,
                          prior: Memory, i: nat)
    requires Ready(table, zero, mem, prior) && Settled(env, mem)
    requires StreamHeld(table, prior, mem) && LogsRecordable(env) && KnownKinds(table)
    requires i < |table| && Loads(table[i]) && Names(env, base, table[i])
    requires Differs(table[i], BaseView(env, base, table, zero, mem), mem)
    requires !Recordable(env, table[i].kind, mem[table[i].ident]) && !Prescribed(table[i].ident, mem)
    ensures !Restored(table, Reloaded(env, base, table, zero, mem, prior), mem)
  {
    if Restored(table, Reloaded(env, base, table, zero, mem, prior), mem) {
      if table[i].ident == STREAM {
        RestoredStreamUrl(env, base, table, zero, mem, prior);
      }
      LostIsNotReloaded(env, base, table, zero, mem, prior, i);
    }
  }

  /** If the base file names every setting and sanitising has nothing left to do in memory, the override
      file written from memory, put on top of the raw base and sanitised again, restores every loaded
      setting but the shader exactly when every difference that needs a record could be recorded. (That it must
      be recordable supposes that the default log directory, which sanitising puts in, is itself recordable.) */
  lemma OverrideRoundTrip(env: Surroundings, base: Config, table: seq<Setting>, zero: Memory, mem: Memory,
                          prior: Memory)
    requires Ready(table, zero, mem, prior) && NamesAll(env, base, table) && Settled(env, mem) && KnownKinds(table)
    requires StreamHeld(table, prior, mem)
    ensures var recordable := DifferencesRecordable(env, table, BaseView(env, base, table, zero, mem), mem);
            var restored := Restored(table, Reloaded(env, base, table, zero, mem, prior), mem);
            && (recordable ==> restored)
            && (LogsRecordable(env) && restored ==> recordable)
  {
    var view := BaseView(env, base, table, zero, mem);
    if DifferencesRecordable(env, table, view, mem) {
      AllRecordableIsRestored(env, base, table, zero, mem, prior);
    } else if LogsRecordable(env) {
      var i :| 0 <= i < |table| && Loads(table[i]) && Differs(table[i], view, mem) &&
               !Recordable(env, table[i].kind, mem[table[i].ident]) && !Prescribed(table[i].ident, mem);
      LostIsNotRestored(env, base, table, zero, mem, prior, i);
    }
  }
}
