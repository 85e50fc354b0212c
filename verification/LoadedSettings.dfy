/** What a load makes of a line in a configuration file, what sanitising makes of a value, and which lines an
    override gets, with the names of the settings and their values written out. */
module LoadedSettings {
  import opened CText
  import opened ConfigFile
  import opened PathText
  import opened Settings
  import opened Overrides

  // ---------------------------------------------------------------- numbers

  predicate Bounded(ident: string) {
    ident == "video_hard_sync_frames" || ident == "video_frame_delay" || ident == "video_swap_interval"
  }

  predicate HasRules(ident: string) {
    Bounded(ident) || ident == "video_stream_url"
  }

  predicate IsText(kind: Kind) {
    kind == TextKind || kind == PathKind
  }

  lemma NotTextIsKept(env: Surroundings, ident: string, m: Memory)
    requires ident in m && !m[ident].TextValue? && !Bounded(ident)
    ensures SanitisedValue(env, ident, m, m) == m[ident]
  {
  }

  lemma RawIsNoText(env: Surroundings, base: Config, s: Setting, prior: Value)
    requires !IsText(s.kind) && Fits(s.kind, prior)
    ensures !RawValue(env, base, s, prior).TextValue?
  {
  }

  /** Sanitising leaves alone what is no text and has no bounds. */
  lemma {:induction false} LoadedAsRead(env: Surroundings, base: Config, table: seq<Setting>, prior: Memory, i: nat)
    requires SameKinds(table) && Typed(table, prior) && i < |table|
    requires !IsText(table[i].kind) && !HasRules(table[i].ident)
    ensures LoadLive(env, base, table, prior)[table[i].ident] ==
            RawValue(env, base, table[i], prior[table[i].ident])
  {
    var ident := table[i].ident;
    LoadRawAt(env, base, table, prior, ident, i);
    RawIsNoText(env, base, table[i], prior[ident]);
    NotTextIsKept(env, ident, LoadRaw(env, base, table, prior));
    LoadedAt(env, base, table, prior, ident);
  }

  lemma ReadSizeOfDec(m: nat)
    requires m < 0x1_0000_0000_0000_0000
    ensures ReadSize(Dec(m)) == Some(m)
  {
    ScanDec(m);
  }

  lemma RawSize(env: Surroundings, base: Config, s: Setting, prior: Value, m: nat)
    requires s.kind == SizeKind && m < 0x1_0000_0000_0000_0000
    requires Get(base, s.ident) == Some(Dec(m)) || (Get(base, s.ident) == None && prior == SizeValue(m))
    ensures RawValue(env, base, s, prior) ==
            SizeValue(if s.ident == "rewind_buffer_size" && m < 10000 then m * 1048576 else m)
  {
    ReadSizeOfDec(m);
  }

  /** A rewind buffer size below 10000 is megabytes, whether the file says so or the setting was that small. */
  lemma RewindBufferSize(env: Surroundings, base: Config, table: seq<Setting>, prior: Memory, i: nat, m: nat)
    requires SameKinds(table) && Typed(table, prior) && m < 0x1_0000_0000_0000_0000
    requires i < |table| && table[i].ident == "rewind_buffer_size" && table[i].kind == SizeKind
    requires Get(base, "rewind_buffer_size") == Some(Dec(m)) ||
             (Get(base, "rewind_buffer_size") == None && prior["rewind_buffer_size"] == SizeValue(m))
    ensures LoadLive(env, base, table, prior)["rewind_buffer_size"] ==
            SizeValue(if m < 10000 then m * 1048576 else m)
  {
    RawSize(env, base, table[i], prior["rewind_buffer_size"], m);
    LoadedAsRead(env, base, table, prior, i);
  }

  /** Every other size is what the file says. */
  lemma {:induction false} OtherSize(env: Surroundings, base: Config, table: seq<Setting>, prior: Memory, i: nat,
                                     m: nat)
    requires SameKinds(table) && Typed(table, prior) && m < 0x1_0000_0000_0000_0000
    requires i < |table| && table[i].ident != "rewind_buffer_size" && table[i].kind == SizeKind
    requires !HasRules(table[i].ident) && Get(base, table[i].ident) == Some(Dec(m))
    ensures LoadLive(env, base, table, prior)[table[i].ident] == SizeValue(m)
  {
    RawSize(env, base, table[i], prior[table[i].ident], m);
    LoadedAsRead(env, base, table, prior, i);
  }

  lemma RawInt(env: Surroundings, base: Config, s: Setting, prior: Value, n: int)
    requires s.kind == IntKind && -0x8000_0000 <= n < 0x8000_0000
    requires Get(base, s.ident) == Some(if n < 0 then "-" + Dec(-n) else Dec(n))
    ensures RawValue(env, base, s, prior) == IntValue(n)
  {
    IntRoundTrip(n);
  }

  /** A decimal number, with its sign, is loaded as that number. */
  lemma LoadedInt(env: Surroundings, base: Config, table: seq<Setting>, prior: Memory, i: nat, n: int)
    requires SameKinds(table) && Typed(table, prior) && -0x8000_0000 <= n < 0x8000_0000
    requires i < |table| && table[i].kind == IntKind && !HasRules(table[i].ident)
    requires Get(base, table[i].ident) == Some(if n < 0 then "-" + Dec(-n) else Dec(n))
    ensures LoadLive(env, base, table, prior)[table[i].ident] == IntValue(n)
  {
    RawInt(env, base, table[i], prior[table[i].ident], n);
    LoadedAsRead(env, base, table, prior, i);
  }

  lemma RawUint(env: Surroundings, base: Config, s: Setting, prior: Value, n: uint32)
    requires s.kind == UintKind && Get(base, s.ident) == Some(Dec(n))
    ensures RawValue(env, base, s, prior) == UintValue(n)
  {
    ReadLongOfDec(n);
    SignedThenUnsigned(n);
  }

  /** So is an unsigned number of 32 bits. */
  lemma LoadedUint(env: Surroundings, base: Config, table: seq<Setting>, prior: Memory, i: nat, n: uint32)
    requires SameKinds(table) && Typed(table, prior)
    requires i < |table| && table[i].kind == UintKind && !HasRules(table[i].ident)
    requires Get(base, table[i].ident) == Some(Dec(n))
    ensures LoadLive(env, base, table, prior)[table[i].ident] == UintValue(n)
  {
    RawUint(env, base, table[i], prior[table[i].ident], n);
    LoadedAsRead(env, base, table, prior, i);
  }

  /** Only four texts are values of a switch; every other text leaves it as it was. */
  lemma LoadedBool(env: Surroundings, base: Config, table: seq<Setting>, prior: Memory, i: nat)
    requires SameKinds(table) && Typed(table, prior)
    requires i < |table| && table[i].kind == BoolKind && !HasRules(table[i].ident)
    ensures var line := Get(base, table[i].ident);
            LoadLive(env, base, table, prior)[table[i].ident] ==
            if line == Some("true") || line == Some("1") then BoolValue(true)
            else if line == Some("false") || line == Some("0") then BoolValue(false)
            else prior[table[i].ident]
  {
    LoadedAsRead(env, base, table, prior, i);
  }

  // ---------------------------------------------------------------- other bases

  function HexChar(d: nat): char
    requires d < 16
  {
    if d < 10 then ('0' as int + d) as char else ('a' as int + d - 10) as char
  }

  /** A number in hexadecimal or octal digits. */
  function InBase(n: nat, base: nat): (s: string)
    requires 2 <= base <= 16
    ensures s != ""
    decreases n
  {
    if n < base then [HexChar(n)] else InBase(n / base, base) + [HexChar(n % base)]
  }

  lemma HexDigit(d: nat)
    requires d < 16
    ensures DigitValue(HexChar(d)) == d
  {
  }

  ghost predicate DigitsIn(s: string, base: nat) {
    forall k :: 0 <= k < |s| ==> DigitValue(s[k]) < base
  }

  lemma {:induction false} ValueSnoc(acc: nat, s: string, c: char, base: nat)
    requires DigitsIn(s, base) && DigitValue(c) < base
    ensures BaseValue(acc, s + [c], base) == BaseValue(acc, s, base) * base + DigitValue(c)
    decreases |s|
  {
    if s == "" {
      assert (s + [c])[1..] == "";
    } else {
      assert (s + [c])[1..] == s[1..] + [c];
      ValueSnoc(acc * base + DigitValue(s[0]), s[1..], c, base);
    }
  }

  lemma QuotientIsSmaller(n: nat, base: nat)
    requires 2 <= base <= n
    ensures 0 < n / base < n && (n / base) * base + n % base == n && n % base < base
  {
  }

  lemma {:induction false} ValueInBase(n: nat, base: nat)
    requires 2 <= base <= 16
    ensures DigitsIn(InBase(n, base), base) && BaseValue(0, InBase(n, base), base) == n
    decreases n
  {
    if n < base {
      HexDigit(n);
      assert InBase(n, base)[1..] == "";
    } else {
      QuotientIsSmaller(n, base);
      HexDigit(n % base);
      ValueInBase(n / base, base);
      ValueSnoc(0, InBase(n / base, base), HexChar(n % base), base);
    }
  }

  /** Behind "0x" a number is hexadecimal. */
  lemma Hexadecimal(n: nat)
    ensures ReadLong("0x" + InBase(n, 16)) == n
  {
    ValueInBase(n, 16);
    var s := "0x" + InBase(n, 16);
    assert s[2..] == InBase(n, 16) && s[2] == InBase(n, 16)[0] && SkipSpace(s) == s;
  }

  /** Behind a zero it is octal. */
  lemma Octal(n: nat)
    ensures ReadLong("0" + InBase(n, 8)) == n
  {
    ValueInBase(n, 8);
    var s := "0" + InBase(n, 8);
    assert s[1..] == InBase(n, 8) && s[1] == InBase(n, 8)[0] && SkipSpace(s) == s;
    assert DigitValue(s[1]) < 8;
  }

  predicate IsBlank(c: char) {
    c == ' ' || c == '\t' || c == '\n' || c as int == 11 || c as int == 12 || c == '\r'
  }

  lemma {:induction false} BlanksAreSkipped(w: string, s: string)
    requires (forall k :: 0 <= k < |w| ==> IsBlank(w[k])) && s != "" && !IsBlank(s[0])
    ensures SkipSpace(w + s) == s
  {
    if w == "" {
      assert w + s == s;
    } else {
      assert (w + s)[1..] == w[1..] + s && (w + s)[0] == w[0];
      BlanksAreSkipped(w[1..], s);
    }
  }

  /** White space in front of a number, and a plus sign, do not matter. */
  lemma BlanksAndPlus(w: string, n: nat)
    requires forall k :: 0 <= k < |w| ==> IsBlank(w[k])
    ensures ReadLong(w + Dec(n)) == n && ReadLong(w + ("+" + Dec(n))) == n
  {
    BlanksAreSkipped(w, Dec(n));
    BlanksAreSkipped(w, "+" + Dec(n));
    MagnitudeOfDec(n);
    assert ("+" + Dec(n))[1..] == Dec(n);
  }

  // ---------------------------------------------------------------- texts

  /** A text of the file is loaded as it is, and a path with its directory in full. Settings that are not handled
      stay as they were, whatever the file says. */
  lemma LoadedText(env: Surroundings, base: Config, table: seq<Setting>, prior: Memory, i: nat, text: string)
    requires SameKinds(table) && Typed(table, prior) && i < |table| && Get(base, table[i].ident) == Some(text)
    requires table[i].kind == TextKind || table[i].kind == PathKind
    ensures table[i].handle ==>
              LoadRaw(env, base, table, prior)[table[i].ident] ==
              TextValue(if table[i].kind == PathKind then Expand(env.dirs, text) else text)
    ensures (forall j :: 0 <= j < |table| && table[j].ident == table[i].ident ==> !table[j].handle) ==>
              LoadRaw(env, base, table, prior)[table[i].ident] == prior[table[i].ident]
  {
    var ident := table[i].ident;
    if table[i].handle {
      LoadRawAt(env, base, table, prior, ident, i);
    }
    if forall j :: 0 <= j < |table| && table[j].ident == ident ==> !table[j].handle {
      assert forall j :: 0 <= j < |table| && table[j].ident == ident ==> table[j].kind == table[i].kind;
      NotLoaded(env, base, table, prior, ident);
    }
  }

  /** In a file the application directory is ":". */
  lemma ApplicationInFile(d: Dirs, rest: string)
    requires d.application != "" && !SlashLast(d.application)
    ensures Abbreviate(d, d.application + "/" + rest) == ":/" + rest
    ensures Expand(d, ":/" + rest) == d.application + "/" + rest
  {
    assert Rest(d.application, d.application + "/" + rest) == "/" + rest;
    assert Drop(":/" + rest, 2) == rest;
    assert ":/" + rest == ":" + "" + ("/" + rest);
  }

  /** The home directory is "~", unless the path is in the application directory. */
  lemma HomeInFile(d: Dirs, rest: string)
    requires d.home != "" && !SlashLast(d.home)
    ensures !Under(d.application, d.home + "/" + rest) ==> Abbreviate(d, d.home + "/" + rest) == "~/" + rest
    ensures Expand(d, "~/" + rest) == d.home + "/" + rest
  {
    assert Rest(d.home, d.home + "/" + rest) == "/" + rest;
    assert Drop("~/" + rest, 2) == rest;
    assert "~/" + rest == "~" + "" + ("/" + rest);
  }

  // ---------------------------------------------------------------- sanitising

  predicate IsHistory(ident: string) {
    || ident == "content_history_path" || ident == "content_favorites_path" || ident == "content_music_history_path"
    || ident == "content_video_history_path" || ident == "content_image_history_path"
  }

  lemma HistoriesAreListed(ident: string)
    requires IsHistory(ident)
    ensures ident in HISTORIES
  {
    assert HISTORIES[0] == "content_history_path" && HISTORIES[1] == "content_favorites_path";
    assert HISTORIES[2] == "content_music_history_path" && HISTORIES[3] == "content_video_history_path";
    assert HISTORIES[4] == "content_image_history_path";
  }

  /** An empty history path gets its default in the history directory. */
  lemma SanitisedHistory(env: Surroundings, ident: string, m: Memory, live: Memory)
    requires IsHistory(ident) && ident in m && m[ident].TextValue?
    ensures var dir := TextOf(m, "content_history_dir");
            Sanitise(env, m, live)[ident] ==
            if m[ident] == TextValue("") then TextValue(env.historyFile(dir, ident)) else m[ident]
  {
    HistoriesAreListed(ident);
  }

  predicate IsResettable(ident: string) {
    || ident == "menu_wallpaper" || ident == "rgui_menu_theme_preset" || ident == "video_shader_dir"
    || ident == "video_filter_dir" || ident == "audio_filter_dir" || ident == "core_assets_directory"
    || ident == "assets_directory" || ident == "dynamic_wallpapers_directory" || ident == "thumbnails_directory"
    || ident == "playlist_directory" || ident == "runtime_log_directory" || ident == "rgui_browser_directory"
    || ident == "rgui_config_directory" || ident == "overlay_directory" || ident == "video_layout_directory"
    || ident == "system_directory"
  }

  lemma ResettablesAreListed(ident: string)
    requires IsResettable(ident)
    ensures ident in DEFAULT_TO_EMPTY
  {
    var l := DEFAULT_TO_EMPTY;
    assert l[0] == "menu_wallpaper" && l[1] == "rgui_menu_theme_preset" && l[2] == "video_shader_dir";
    assert l[3] == "video_filter_dir" && l[4] == "audio_filter_dir" && l[5] == "core_assets_directory";
    assert l[6] == "assets_directory" && l[7] == "dynamic_wallpapers_directory" && l[8] == "thumbnails_directory";
    assert l[9] == "playlist_directory" && l[10] == "runtime_log_directory" && l[11] == "rgui_browser_directory";
    assert l[12] == "rgui_config_directory" && l[13] == "overlay_directory" && l[14] == "video_layout_directory";
    assert l[15] == "system_directory";
  }

  lemma NoHistory(ident: string)
    requires IsResettable(ident)
    ensures ident !in HISTORIES
  {
    OnlyHistoriesAreListed(ident);
  }

  lemma ResetRule(env: Surroundings, ident: string, m: Memory, live: Memory)
    requires ident in DEFAULT_TO_EMPTY && ident !in HISTORIES && ident in m && m[ident].TextValue?
    ensures SanitisedValue(env, ident, m, live) ==
            if m[ident].s == "default" then TextValue("") else m[ident]
  {
  }

  /** "default" stands for no text at all in these settings. */
  lemma SanitisedDefault(env: Surroundings, ident: string, m: Memory, live: Memory)
    requires IsResettable(ident) && ident in m && m[ident].TextValue?
    ensures Sanitise(env, m, live)[ident] == if m[ident] == TextValue("default") then TextValue("") else m[ident]
  {
    ResettablesAreListed(ident);
    NoHistory(ident);
    ResetRule(env, ident, m, live);
  }

  /** Screenshots go to a directory that exists, and logs to one that has a name. */
  lemma SanitisedDirectories(env: Surroundings, s: string, m: Memory, live: Memory)
    ensures "screenshot_directory" in m && m["screenshot_directory"] == TextValue(s) ==>
              Sanitise(env, m, live)["screenshot_directory"] ==
              TextValue(if s != "" && s != "default" && env.isDirectory(s) then s else "")
    ensures "log_dir" in m && m["log_dir"] == TextValue(s) ==>
              Sanitise(env, m, live)["log_dir"] == TextValue(if s == "default" then env.logsDirectory else s)
  {
    assert "screenshot_directory" !in HISTORIES && "screenshot_directory" !in DEFAULT_TO_EMPTY;
    assert "log_dir" !in HISTORIES && "log_dir" !in DEFAULT_TO_EMPTY;
  }

  predicate DrawsMenus(video: string) {
    || video == "d3d9" || video == "d3d10" || video == "d3d11" || video == "d3d12" || video == "caca"
    || video == "gdi" || video == "gl" || video == "gl1" || video == "gx2" || video == "vulkan"
    || video == "glcore" || video == "metal" || video == "ctr" || video == "vita2d"
  }

  lemma DriversAreListed(video: string)
    ensures video in MENU_VIDEO_DRIVERS <==> DrawsMenus(video)
  {
    var l := MENU_VIDEO_DRIVERS;
    assert l[0] == "d3d9" && l[1] == "d3d10" && l[2] == "d3d11" && l[3] == "d3d12" && l[4] == "caca";
    assert l[5] == "gdi" && l[6] == "gl" && l[7] == "gl1" && l[8] == "gx2" && l[9] == "vulkan";
    assert l[10] == "glcore" && l[11] == "metal" && l[12] == "ctr" && l[13] == "vita2d";
    if video in l {
      var i :| 0 <= i < |l| && l[i] == video;
      assert |l| == 14;
    }
  }

  /** A menu driver other than "rgui" and "null" needs one of these video drivers, or none at all; otherwise it is
      replaced by "rgui". */
  lemma {:induction false} SanitisedMenu(env: Surroundings, m: Memory, menu: string, video: string)
    requires "menu_driver" in m && m["menu_driver"] == TextValue(menu)
    requires "video_driver" in m && m["video_driver"] == TextValue(video)
    ensures Sanitise(env, m, m)["menu_driver"] ==
            TextValue(if menu == "null" || video == "null" || DrawsMenus(video) then menu else "rgui")
  {
    DriversAreListed(video);
    MenuIsSanitised(env, m, m);
  }

  /** No other setting is touched. */
  lemma OthersAreKept(env: Surroundings, ident: string, m: Memory, live: Memory)
    requires ident in m && !IsHistory(ident) && !IsResettable(ident) && !Bounded(ident)
    requires ident != "screenshot_directory" && ident != "log_dir" && ident != "menu_driver"
    ensures Sanitise(env, m, live)[ident] == m[ident]
  {
    OnlyHistoriesAreListed(ident);
    OnlyResettablesAreListed(ident);
  }

  lemma OnlyHistoriesAreListed(ident: string)
    requires !IsHistory(ident)
    ensures ident !in HISTORIES
  {
  }

  lemma OnlyResettablesAreListed(ident: string)
    requires !IsResettable(ident)
    ensures ident !in DEFAULT_TO_EMPTY
  {
  }

  /** The streaming address of each mode. */
  lemma StreamAddress(m: Memory, mode: uint32, key: string, port: uint32)
    requires "video_stream_url" in m && "streaming_mode" in m && m["streaming_mode"] == UintValue(mode)
    requires "twitch_stream_key" in m && "youtube_stream_key" in m
    requires "video_stream_port" in m && m["video_stream_port"] == UintValue(port)
    ensures mode == 0 && m["twitch_stream_key"] == TextValue(key) && key != "" ==>
              Streamed(m) == m["video_stream_url" := TextValue("rtmp://live.twitch.tv/app/" + key)]
    ensures mode == 1 && m["youtube_stream_key"] == TextValue(key) && key != "" ==>
              Streamed(m) == m["video_stream_url" := TextValue("rtmp://a.rtmp.youtube.com/live2/" + key)]
    ensures mode == 2 ==> Streamed(m) == m["video_stream_url" := TextValue("udp://127.0.0.1:" + Dec(port))]
    ensures mode == 0 && m["twitch_stream_key"] == TextValue("") ==> Streamed(m) == m
    ensures mode == 1 && m["youtube_stream_key"] == TextValue("") ==> Streamed(m) == m
    ensures mode > 2 ==> Streamed(m) == m
  {
  }

  // ---------------------------------------------------------------- lines of an override

  /** How switches and texts are written. */
  lemma WrittenText(env: Surroundings, kind: Kind, b: bool, s: string)
    ensures WriteValue(env, kind, BoolValue(b)) == if b then "true" else "false"
    ensures WriteValue(env, TextKind, TextValue(s)) == s
    ensures WriteValue(env, PathKind, TextValue(s)) == Abbreviate(env.dirs, s)
  {
  }

  /** How numbers are written: those of 32 bits that are too large for a signed number get a sign. */
  lemma WrittenNumber(env: Surroundings, kind: Kind, n: int)
    requires 0 <= n < 0x8000_0000
    ensures WriteValue(env, kind, IntValue(n)) == Dec(n) && WriteValue(env, kind, IntValue(-n - 1)) == "-" + Dec(n + 1)
    ensures WriteValue(env, kind, UintValue(n)) == Dec(n) && WriteValue(env, kind, SizeValue(n)) == Dec(n)
    ensures WriteValue(env, kind, UintValue(0x1_0000_0000 - n - 1)) == "-" + Dec(n + 1)
  {
    assert Int32(n) == n && Int32(0x1_0000_0000 - n - 1) == -n - 1;
  }

  /** The shader is never written; every other setting of the table is, if it is not what the base has. */
  lemma WrittenSettings(env: Surroundings, table: seq<Setting>, base: Memory, mem: Memory, i: nat)
    requires SameKinds(table) && i < |table| && table[i].ident in base && table[i].ident in mem
    ensures Get(Diff(env, table, base, mem), table[i].ident) ==
            if table[i].ident == "video_shader" || base[table[i].ident] == mem[table[i].ident] then None
            else Some(WriteValue(env, table[i].kind, mem[table[i].ident]))
  {
    DiffNamesWhatDiffers(env, table, base, mem, i);
  }

  /** A value is read up to its first quote. */
  lemma CutAtQuote(a: string, b: string)
    requires a != "" && '"' !in a
    ensures ReadBackText(a + "\"" + b) == Some(a) && ReadBackText("\"" + b) == None
  {
    FirstQuote(a, b);
    assert (a + "\"" + b)[..|a|] == a;
    FirstQuote("", b);
    assert "" + "\"" + b == "\"" + b;
  }

  lemma {:induction false} FirstQuote(a: string, b: string)
    requires '"' !in a
    ensures FirstIndex(a + "\"" + b, '"') == Some(|a|)
  {
    if a == "" {
      assert (a + "\"" + b)[0] == '"';
    } else {
      assert (a + "\"" + b)[1..] == a[1..] + "\"" + b && (a + "\"" + b)[0] == a[0];
      FirstQuote(a[1..], b);
    }
  }
}
