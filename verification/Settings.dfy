/** Loading a configuration into the settings tables, sanitising what was loaded, and the difference
    that an override file records. */
module Settings {
  import opened CText
  import opened ConfigFile
  import opened PathText

  /** The tables of arrays and of paths both hold text; paths are abbreviated in the file. */
  datatype Kind = BoolKind | IntKind | UintKind | SizeKind | TextKind | PathKind

  /** One row of the settings tables. Only text settings look at `handle`. */
  datatype Setting = Setting(ident: string, kind: Kind, handle: bool)

  datatype Value =
    | BoolValue(b: bool)
    | IntValue(i: int)
    | UintValue(u: uint32)
    | SizeValue(n: nat)
    | TextValue(s: string)

  /** `settings_t`, by identifier. */
  type Memory = map<string, Value>

  /** Some settings have two rows, which then stand for the same location. */
  ghost predicate SameKinds(table: seq<Setting>) {
    forall i, j :: 0 <= i < j < |table| && table[i].ident == table[j].ident ==> table[i].kind == table[j].kind
  }

  predicate Fits(kind: Kind, v: Value) {
    match kind
    case BoolKind => v.BoolValue?
    case IntKind => v.IntValue? && -0x8000_0000 <= v.i < 0x8000_0000
    case UintKind => v.UintValue?
    case SizeKind => v.SizeValue? && v.n < SIZE_RANGE
    case TextKind => v.TextValue?
    case PathKind => v.TextValue?
  }

  ghost predicate Typed(table: seq<Setting>, m: Memory) {
    forall i :: 0 <= i < |table| ==> table[i].ident in m && Fits(table[i].kind, m[table[i].ident])
  }

  predicate Textual(kind: Kind) {
    kind == TextKind || kind == PathKind
  }

  /** Text settings that are not handled are never loaded. */
  predicate Loads(s: Setting) {
    Textual(s.kind) ==> s.handle
  }

  /** What loading and sanitising ask of the system. */
  datatype Surroundings = Surroundings(
    dirs: Dirs,
    isDirectory: string -> bool,
    historyFile: (string, string) -> string,  // default path of a history, given the history directory
    logsDirectory: string)

  // ---------------------------------------------------------------- text of values

  function WriteValue(env: Surroundings, kind: Kind, v: Value): string {
    match v
    case BoolValue(b) => if b then "true" else "false"
    case IntValue(i) => SignedDec(i)
    case UintValue(u) => SignedDec(Int32(u))
    case SizeValue(n) => SignedDec(Int32(n))
    case TextValue(s) => if kind == PathKind then Abbreviate(env.dirs, s) else s
  }

  function ReadValue(env: Surroundings, kind: Kind, text: string): Option<Value> {
    match kind
    case BoolKind =>
      if text == "true" || text == "1" then Some(BoolValue(true))
      else if text == "false" || text == "0" then Some(BoolValue(false))
      else None
    case IntKind => var i := ReadInt(text); if i.None? then None else Some(IntValue(i.value))
    case UintKind => var i := ReadInt(text); if i.None? then None else Some(UintValue(i.value % 0x1_0000_0000))
    case SizeKind => var n := ReadSize(text); if n.None? then None else Some(SizeValue(n.value))
    case TextKind => Some(TextValue(text))
    case PathKind => Some(TextValue(Expand(env.dirs, text)))
  }

  /** The values whose written text is read back as the same value. */
  predicate Recordable(env: Surroundings, kind: Kind, v: Value) {
    match v
    case TextValue(s) =>
      if kind == PathKind then Plain(Abbreviate(env.dirs, s)) && Survives(env.dirs, s) else Plain(s)
    case SizeValue(n) => n < 0x8000_0000 || n >= SIZE_RANGE - 0x8000_0000
    case _ => true
  }

  lemma DecIsPlain(n: nat)
    ensures Plain(Dec(n)) && Plain("-" + Dec(n))
  {
  }

  lemma RecordedPath(d: Dirs, s: string)
    ensures (var t := ReadBackText(Abbreviate(d, s)); t.Some? && Expand(d, t.value) == s) <==>
            Plain(Abbreviate(d, s)) && Survives(d, s)
  {
    var q := Abbreviate(d, s);
    PlainReadsBack(q);
    PathRoundTrip(d, s);
    QuoteIsFound(q);
    var quote := FirstIndex(q, '"');
    if quote.Some? && quote.value > 0 {
      CutPathIsLost(d, s, quote.value);
    }
  }

  lemma RecordedValue(env: Surroundings, kind: Kind, v: Value)
    requires Fits(kind, v)
    ensures (var t := ReadBackText(WriteValue(env, kind, v));
             t.Some? && ReadValue(env, kind, t.value) == Some(v)) <==> Recordable(env, kind, v)
  {
    match v {
      case BoolValue(b) => PlainReadsBack(WriteValue(env, kind, v));
      case IntValue(i) =>
        IntRoundTrip(i);
        DecIsPlain(if i < 0 then -i else i);
        PlainReadsBack(SignedDec(i));
      case UintValue(u) =>
        UnsignedThroughInt(u);
        DecIsPlain(if Int32(u) < 0 then -Int32(u) else Int32(u));
        PlainReadsBack(SignedDec(Int32(u)));
      case SizeValue(n) =>
        SizeRoundTrip(n);
        DecIsPlain(if Int32(n) < 0 then -Int32(n) else Int32(n));
        PlainReadsBack(SignedDec(Int32(n)));
      case TextValue(s) =>
        PlainReadsBack(s);
        RecordedPath(env.dirs, s);
    }
  }

  // ---------------------------------------------------------------- loading

  const REWIND := "rewind_buffer_size"

  /** Small rewind buffer sizes are megabytes. */
  function AdjustSize(ident: string, v: Value): Value {
    if ident == REWIND && v.SizeValue? && v.n < 10000 then SizeValue(v.n * 1024 * 1024) else v
  }

  /** What a table row holds after loading, given what it held before. */
  function RawValue(env: Surroundings, conf: Config, s: Setting, prior: Value): Value {
    var text := if Loads(s) then Get(conf, s.ident) else None;
    var read := if text.None? then None else ReadValue(env, s.kind, text.value);
    var v := if read.None? then prior else read.value;
    if s.kind == SizeKind then AdjustSize(s.ident, v) else v
  }

  function LoadRaw(env: Surroundings, conf: Config, table: seq<Setting>, prior: Memory): (m: Memory)
    ensures m.Keys >= prior.Keys
  {
    if table == [] then prior
    else
      var n := |table| - 1;
      var m := LoadRaw(env, conf, table[..n], prior);
      if table[n].ident in m then m[table[n].ident := RawValue(env, conf, table[n], m[table[n].ident])] else m
  }

  /** What the last row of the table does to one setting. */
  lemma LoadRawStep(env: Surroundings, conf: Config, table: seq<Setting>, prior: Memory, ident: string)
    requires table != [] && ident in prior
    ensures var n := |table| - 1;
            var before := LoadRaw(env, conf, table[..n], prior)[ident];
            LoadRaw(env, conf, table, prior)[ident] ==
            if table[n].ident == ident then RawValue(env, conf, table[n], before) else before
  {
  }

  predicate LoadingRow(table: seq<Setting>, i: int, ident: string) {
    0 <= i < |table| && table[i].ident == ident && Loads(table[i])
  }

  /** A second row of a setting finds nothing left to do behind one that loads. */
  lemma SecondRow(env: Surroundings, conf: Config, s: Setting, t: Setting, prior: Value)
    requires s.ident == t.ident && s.kind == t.kind && Loads(s)
    ensures RawValue(env, conf, t, RawValue(env, conf, s, prior)) == RawValue(env, conf, s, prior)
    ensures Loads(t) ==> RawValue(env, conf, t, prior) == RawValue(env, conf, s, prior)
  {
  }

  /** A setting that no row loads stays as it was. */
  lemma {:induction false} NotLoaded(env: Surroundings, conf: Config, table: seq<Setting>, prior: Memory, ident: string)
    requires ident in prior && forall i :: !LoadingRow(table, i, ident)
    ensures LoadRaw(env, conf, table, prior)[ident] == prior[ident]
  {
    if table != [] {
      var n := |table| - 1;
      assert !LoadingRow(table, n, ident);
      assert forall i :: LoadingRow(table[..n], i, ident) ==> LoadingRow(table, i, ident);
      LoadRawStep(env, conf, table, prior, ident);
      NotLoaded(env, conf, table[..n], prior, ident);
    }
  }

  /** A setting is loaded through any of its rows that load. */
  lemma {:induction false} LoadRawAt(env: Surroundings, conf: Config, table: seq<Setting>, prior: Memory,
                                     ident: string, i: nat)
    requires SameKinds(table) && ident in prior && LoadingRow(table, i, ident)
    ensures LoadRaw(env, conf, table, prior)[ident] == RawValue(env, conf, table[i], prior[ident])
  {
    var n := |table| - 1;
    LoadRawStep(env, conf, table, prior, ident);
    assert forall j :: LoadingRow(table[..n], j, ident) <==> j < n && LoadingRow(table, j, ident);
    if j :| LoadingRow(table[..n], j, ident) {
      LoadRawAt(env, conf, table[..n], prior, ident, j);
      SecondRow(env, conf, table[j], table[i], prior[ident]);
      if table[n].ident == ident {
        SecondRow(env, conf, table[j], table[n], prior[ident]);
      }
    } else {
      NotLoaded(env, conf, table[..n], prior, ident);
      assert i == n;
    }
  }

  // ---------------------------------------------------------------- sanitising

  const DEFAULT_TO_EMPTY: seq<string> :=
    ["menu_wallpaper", "rgui_menu_theme_preset", "video_shader_dir", "video_filter_dir", "audio_filter_dir",
     "core_assets_directory", "assets_directory", "dynamic_wallpapers_directory", "thumbnails_directory",
     "playlist_directory", "runtime_log_directory", "rgui_browser_directory", "rgui_config_directory",
     "overlay_directory", "video_layout_directory", "system_directory"]

  const HISTORIES: seq<string> :=
    ["content_history_path", "content_favorites_path", "content_music_history_path",
     "content_video_history_path", "content_image_history_path"]

  const MENU := "menu_driver"
  const VIDEO := "video_driver"

  const OTHERS: seq<string> :=
    ["video_hard_sync_frames", "video_frame_delay", "video_swap_interval", "screenshot_directory", "log_dir", MENU]

  const SANITISED: seq<string> := HISTORIES + DEFAULT_TO_EMPTY + OTHERS

  const MENU_VIDEO_DRIVERS: seq<string> :=
    ["d3d9", "d3d10", "d3d11", "d3d12", "caca", "gdi", "gl", "gl1", "gx2", "vulkan", "glcore", "metal", "ctr", "vita2d"]

  function TextOf(m: Memory, ident: string): string {
    if ident in m && m[ident].TextValue? then m[ident].s else ""
  }

  /** `check_menu_driver_compatibility`, on the live settings. */
  predicate MenuCompatible(live: Memory) {
    var menu, video := TextOf(live, MENU), TextOf(live, VIDEO);
    menu == "rgui" || menu == "null" || video == "null" || video in MENU_VIDEO_DRIVERS
  }

  function SanitisedUint(ident: string, u: uint32): uint32 {
    if ident == "video_hard_sync_frames" then Min(u, 3)
    else if ident == "video_frame_delay" then Min(u, 15)
    else if ident == "video_swap_interval" then Min(if u < 1 then 1 else u, 4)
    else u
  }

  function SanitisedText(env: Surroundings, ident: string, s: string, historyDir: string, live: Memory): string {
    if ident in HISTORIES then if s == "" then env.historyFile(historyDir, ident) else s
    else if ident in DEFAULT_TO_EMPTY then if s == "default" then "" else s
    else if ident == "screenshot_directory" then
      if s == "" || s == "default" || !env.isDirectory(s) then "" else s
    else if ident == "log_dir" then if s == "default" then env.logsDirectory else s
    else if ident == MENU then if MenuCompatible(live) then s else "rgui"
    else s
  }

  /** The value that the sanitising part of `config_load_file` gives to one setting. */
  function SanitisedValue(env: Surroundings, ident: string, m: Memory, live: Memory): Value
    requires ident in m
  {
    match m[ident]
    case UintValue(u) => UintValue(SanitisedUint(ident, u))
    case TextValue(s) => TextValue(SanitisedText(env, ident, s, TextOf(m, "content_history_dir"), live))
    case other => other
  }

  function Sanitise(env: Surroundings, m: Memory, live: Memory): (r: Memory)
    ensures r.Keys == m.Keys
  {
    map ident | ident in m :: SanitisedValue(env, ident, m, live)
  }

  // ---------------------------------------------------------------- the streaming address

  const STREAM := "video_stream_url"
  const STREAM_MODE := "streaming_mode"
  const STREAM_PORT := "video_stream_port"
  const TWITCH_KEY := "twitch_stream_key"
  const YOUTUBE_KEY := "youtube_stream_key"

  const TWITCH_ADDRESS := "rtmp://live.twitch.tv/app/"
  const YOUTUBE_ADDRESS := "rtmp://a.rtmp.youtube.com/live2/"
  const LOCAL_ADDRESS := "udp://127.0.0.1:"

  function UintOf(m: Memory, ident: string): Option<uint32> {
    if ident in m && m[ident].UintValue? then Some(m[ident].u) else None
  }

  /** The address that a streaming mode prescribes, if it does. */
  function StreamUrl(m: Memory): Option<string> {
    var mode, port := UintOf(m, STREAM_MODE), UintOf(m, STREAM_PORT);
    var twitch, youtube := TextOf(m, TWITCH_KEY), TextOf(m, YOUTUBE_KEY);
    if mode == Some(0) && twitch != "" then Some(TWITCH_ADDRESS + twitch)
    else if mode == Some(1) && youtube != "" then Some(YOUTUBE_ADDRESS + youtube)
    else if mode == Some(2) && port.Some? then Some(LOCAL_ADDRESS + Dec(port.value))
    else None
  }

  /** `recording_driver_update_streaming_url`, on the live settings. */
  function Streamed(m: Memory): (r: Memory)
    ensures r.Keys == m.Keys
  {
    var url := StreamUrl(m);
    if STREAM in m && url.Some? then m[STREAM := TextValue(url.value)] else m
  }

  // ---------------------------------------------------------------- a whole load

  /** `config_load_file` into settings that are not the live ones, as the diff does with the base. */
  function Load(env: Surroundings, conf: Config, table: seq<Setting>, prior: Memory, live: Memory): Memory {
    Sanitise(env, LoadRaw(env, conf, table, prior), live)
  }

  /** `config_load_file` into the live settings. */
  function LoadLive(env: Surroundings, conf: Config, table: seq<Setting>, prior: Memory): Memory {
    var raw := LoadRaw(env, conf, table, prior);
    Streamed(Sanitise(env, raw, raw))
  }

  // ---------------------------------------------------------------- the difference

  const SHADER := "video_shader"

  predicate Differs(s: Setting, base: Memory, mem: Memory) {
    s.ident != SHADER && s.ident in base && s.ident in mem && base[s.ident] != mem[s.ident]
  }

  function LineOf(env: Surroundings, s: Setting, m: Memory): Line
    requires s.ident in m
  {
    Line(s.ident, WriteValue(env, s.kind, m[s.ident]))
  }

  /** The lines that `config_save_overrides` sets. */
  function Diff(env: Surroundings, table: seq<Setting>, base: Memory, mem: Memory): Config {
    if table == [] then []
    else
      (if Differs(table[0], base, mem) then [LineOf(env, table[0], mem)] else [])
      + Diff(env, table[1..], base, mem)
  }

  // ---------------------------------------------------------------- in place

  /** Some settings are sanitised, the others are as they were. */
  function Partly(env: Surroundings, done: seq<string>, was: Memory, live: Memory): (r: Memory)
    ensures r.Keys == was.Keys
  {
    map k | k in was :: if k in done then SanitisedValue(env, k, was, live) else was[k]
  }

  lemma PartlyStep(env: Surroundings, done: seq<string>, k: string, was: Memory, live: Memory)
    requires k !in done && "content_history_dir" !in done
    ensures var now := Partly(env, done, was, live);
            Partly(env, done + [k], was, live) ==
            if k in was then now[k := SanitisedValue(env, k, now, live)] else now
  {
    var now := Partly(env, done, was, live);
    assert TextOf(now, "content_history_dir") == TextOf(was, "content_history_dir");
    assert k in was ==> SanitisedValue(env, k, now, live) == SanitisedValue(env, k, was, live);
  }

  class SettingsStore {
    var values: Memory

    constructor (values: Memory)
      ensures this.values == values
    {
      this.values := values;
    }

    /** The table loops of `config_load_file`. */
    method ReadTable(env: Surroundings, conf: Config, table: seq<Setting>)
      modifies this
      ensures values == LoadRaw(env, conf, table, old(values))
    {
      var i := 0;
      while i < |table|
        invariant i <= |table|
        invariant values == LoadRaw(env, conf, table[..i], old(values))
      {
        var s := table[i];
        assert table[..i + 1][..i] == table[..i];
        if s.ident in values {
          var text := if Loads(s) then Get(conf, s.ident) else None;
          if text.Some? {
            var read := ReadValue(env, s.kind, text.value);
            if read.Some? {
              values := values[s.ident := read.value];
            }
          }
          if s.kind == SizeKind && s.ident == REWIND && values[s.ident].SizeValue? && values[s.ident].n < 10000 {
            values := values[s.ident := SizeValue(values[s.ident].n * 1024 * 1024)];
          }
        }
        i := i + 1;
      }
      assert table[..i] == table;
    }

    /** The sanitising statement of one setting. */
    method SanitiseOne(env: Surroundings, k: string, live: Memory)
      requires k in values
      modifies this
      ensures values == old(values)[k := SanitisedValue(env, k, old(values), live)]
    {
      ghost var was := values;
      match values[k] {
        case UintValue(u) =>
          if k == "video_hard_sync_frames" && u > 3 {
            values := values[k := UintValue(3)];
          } else if k == "video_frame_delay" && u > 15 {
            values := values[k := UintValue(15)];
          } else if k == "video_swap_interval" {
            if u < 1 {
              values := values[k := UintValue(1)];
            } else if u > 4 {
              values := values[k := UintValue(4)];
            }
          }
        case TextValue(s) =>
          SanitiseText(env, k, live);
        case _ =>
      }
      assert was[k := was[k]] == was;
    }

    method SanitiseText(env: Surroundings, k: string, live: Memory)
      requires k in values && values[k].TextValue?
      modifies this
      ensures values == old(values)[k := SanitisedValue(env, k, old(values), live)]
    {
      ghost var was := values;
      var s := values[k].s;
      if k in HISTORIES {
        if s == "" {
          values := values[k := TextValue(env.historyFile(TextOf(values, "content_history_dir"), k))];
        }
      } else if k in DEFAULT_TO_EMPTY {
        if s == "default" {
          values := values[k := TextValue("")];
        }
      } else if k == "screenshot_directory" {
        if s == "default" || (s != "" && !env.isDirectory(s)) {
          values := values[k := TextValue("")];
        }
      } else if k == "log_dir" {
        if s == "default" {
          values := values[k := TextValue(env.logsDirectory)];
        }
      } else if k == MENU {
        if !MenuCompatible(live) {
          values := values[k := TextValue("rgui")];
        }
      }
      assert was[k := was[k]] == was;
    }

    /** The sanitising statements of some settings, one after the other. */
    method SanitiseEach(env: Surroundings, list: seq<string>, live: Memory)
      requires forall i :: 0 <= i < |list| ==> list[i] !in list[..i]
      requires "content_history_dir" !in list
      modifies this
      ensures values == Partly(env, list, old(values), live)
    {
      ghost var was := values;
      var i := 0;
      while i < |list|
        invariant i <= |list|
        invariant values == Partly(env, list[..i], was, live)
      {
        PartlyStep(env, list[..i], list[i], was, live);
        if list[i] in values {
          SanitiseOne(env, list[i], live);
        }
        assert list[..i + 1] == list[..i] + [list[i]];
        i := i + 1;
      }
      assert list[..i] == list;
    }

    /** The sanitising part of a load, in settings that may be the live ones. */
    method SanitiseSettings(env: Surroundings, live: Memory)
      modifies this
      ensures values == Sanitise(env, old(values), live)
    {
      ghost var was := values;
      DistinctSanitised();
      HistoryDirectoryIsKept();
      SanitiseEach(env, SANITISED, live);
      forall k | k in was
        ensures values[k] == SanitisedValue(env, k, was, live)
      {
        if k !in SANITISED {
          UnlistedIsKept(env, k, was, live);
        }
      }
    }

    /** `recording_driver_update_streaming_url` */
    method UpdateStreamUrl()
      modifies this
      ensures values == Streamed(old(values))
    {
      if STREAM in values {
        var mode := UintOf(values, STREAM_MODE);
        match mode {
          case None =>
          case Some(m) =>
            if m == 0 {
              var key := TextOf(values, TWITCH_KEY);
              if key != "" {
                values := values[STREAM := TextValue(TWITCH_ADDRESS + key)];
              }
            } else if m == 1 {
              var key := TextOf(values, YOUTUBE_KEY);
              if key != "" {
                values := values[STREAM := TextValue(YOUTUBE_ADDRESS + key)];
              }
            } else if m == 2 {
              var port := UintOf(values, STREAM_PORT);
              if port.Some? {
                values := values[STREAM := TextValue(LOCAL_ADDRESS + Dec(port.value))];
              }
            }
        }
      }
    }

    /** `config_load_file` on these settings, which may be the live ones. The menu driver check looks at the
        live settings, and the streaming address is set there, whichever settings are loaded. */
    method LoadFile(env: Surroundings, conf: Config, table: seq<Setting>, live: SettingsStore)
      modifies this, live
      ensures live == this ==> values == LoadLive(env, conf, table, old(values))
      ensures live != this ==> values == Load(env, conf, table, old(values), old(live.values))
      ensures live != this ==> live.values == Streamed(old(live.values))
    {
      ReadTable(env, conf, table);
      SanitiseSettings(env, live.values);
      live.UpdateStreamUrl();
    }
  }

  /** Whatever was loaded, the bounded settings end up at the nearest value within their bounds. */
  lemma SanitisedBounds(env: Surroundings, m: Memory, live: Memory, u: uint32)
    ensures "video_hard_sync_frames" in m && m["video_hard_sync_frames"] == UintValue(u) ==>
              Sanitise(env, m, live)["video_hard_sync_frames"] == UintValue(if u > 3 then 3 else u)
    ensures "video_frame_delay" in m && m["video_frame_delay"] == UintValue(u) ==>
              Sanitise(env, m, live)["video_frame_delay"] == UintValue(if u > 15 then 15 else u)
    ensures "video_swap_interval" in m && m["video_swap_interval"] == UintValue(u) ==>
              Sanitise(env, m, live)["video_swap_interval"] == UintValue(if u == 0 then 1 else if u > 4 then 4 else u)
  {
  }

  lemma HistoryDirectoryIsKept()
    ensures "content_history_dir" !in SANITISED
  {
  }

  lemma DistinctSanitised()
    ensures forall i :: 0 <= i < |SANITISED| ==> SANITISED[i] !in SANITISED[..i]
  {
    forall i | 0 <= i < |SANITISED|
      ensures SANITISED[i] !in SANITISED[..i]
    {
      if i < 13 {
        DistinctLower(i);
      } else if i < 20 {
        DistinctMiddle(i);
      } else {
        DistinctUpper(i);
      }
    }
  }

  lemma DistinctLower(i: nat)
    requires i < 13
    ensures SANITISED[i] !in SANITISED[..i]
  {
  }

  lemma DistinctMiddle(i: nat)
    requires 13 <= i < 20
    ensures SANITISED[i] !in SANITISED[..i]
  {
  }

  lemma DistinctUpper(i: nat)
    requires 20 <= i < |SANITISED|
    ensures SANITISED[i] !in SANITISED[..i]
  {
  }

  lemma ListedIsSanitised(ident: string)
    ensures ident in HISTORIES || ident in DEFAULT_TO_EMPTY || ident in OTHERS ==> ident in SANITISED
  {
    InConcatenation(HISTORIES, DEFAULT_TO_EMPTY, OTHERS, ident);
  }

  lemma InConcatenation(a: seq<string>, b: seq<string>, c: seq<string>, x: string)
    ensures x in a || x in b || x in c <==> x in a + b + c
  {
  }

  lemma OthersAreListed()
    ensures "video_hard_sync_frames" in OTHERS && "video_frame_delay" in OTHERS && "video_swap_interval" in OTHERS
    ensures "screenshot_directory" in OTHERS && "log_dir" in OTHERS && MENU in OTHERS
  {
    assert OTHERS[0] == "video_hard_sync_frames" && OTHERS[1] == "video_frame_delay";
    assert OTHERS[2] == "video_swap_interval" && OTHERS[3] == "screenshot_directory";
    assert OTHERS[4] == "log_dir" && OTHERS[5] == MENU;
  }

  lemma UnlistedIsKept(env: Surroundings, ident: string, m: Memory, live: Memory)
    requires ident in m && ident !in SANITISED
    ensures SanitisedValue(env, ident, m, live) == m[ident]
  {
    ListedIsSanitised(ident);
    OthersAreListed();
    assert ident !in HISTORIES && ident !in DEFAULT_TO_EMPTY && ident !in OTHERS;
  }

  lemma DiffStep(env: Surroundings, conf: Config, table: seq<Setting>, i: nat, base: Memory, mem: Memory)
    requires i < |table|
    ensures var s := table[i];
            conf + Diff(env, table[i..], base, mem) ==
            conf + (if Differs(s, base, mem) then [LineOf(env, s, mem)] else [])
            + Diff(env, table[i + 1..], base, mem)
  {
    assert table[i..][0] == table[i] && table[i..][1..] == table[i + 1..];
  }

  /** The comparing loop of `config_save_overrides`. */
  method Compare(env: Surroundings, table: seq<Setting>, settings: Memory, overrides: Memory) returns (conf: Config)
    ensures conf == Diff(env, table, settings, overrides)
  {
    conf := [];
    var i := 0;
    while i < |table|
      invariant i <= |table|
      invariant conf + Diff(env, table[i..], settings, overrides) == Diff(env, table, settings, overrides)
    {
      var s := table[i];
      DiffStep(env, conf, table, i, settings, overrides);
      if s.ident != SHADER && s.ident in settings && s.ident in overrides {
        if settings[s.ident] != overrides[s.ident] {
          conf := conf + [LineOf(env, s, overrides)];
        }
      }
      i := i + 1;
    }
    assert Diff(env, table[i..], settings, overrides) == [];
    assert conf + [] == conf;
  }

  /** `config_save_overrides`: loads the base file into settings of its own, compares, and writes. The load
      sets the streaming address of the live settings before they are compared. */
  method SaveOverrides(env: Surroundings, base: Config, table: seq<Setting>, zero: Memory, live: SettingsStore)
    returns (file: Config)
    modifies live
    ensures live.values == Streamed(old(live.values))
    ensures file == ReadBack(Diff(env, table, Load(env, base, table, zero, old(live.values)), live.values))
  {
    var settings := new SettingsStore(zero);
    settings.LoadFile(env, base, table, live);
    var conf := Compare(env, table, settings.values, live.values);
    return ReadBack(conf);
  }
}
