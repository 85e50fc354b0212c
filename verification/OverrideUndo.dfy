/** Unloading an override: what loading the base again gives back, and what stays as the override left it. */
module OverrideUndo {
  import opened CText
  import opened ConfigFile
  import opened Settings
  import opened Overrides

  /** A setting that the base names is loaded as the same raw value, whatever was there. */
  lemma NamedIsLoaded(env: Surroundings, base: Config, table: seq<Setting>, a: Memory, b: Memory, i: nat)
    requires SameKinds(table) && Typed(table, a) && Typed(table, b)
    requires i < |table| && Loads(table[i]) && Names(env, base, table[i])
    ensures var x, y := LoadRaw(env, base, table, a), LoadRaw(env, base, table, b);
            && x[table[i].ident] == y[table[i].ident]
            && (Textual(table[i].kind) ==> x[table[i].ident].TextValue? && x[table[i].ident].s != "")
  {
    var s := table[i];
    LoadRawAt(env, base, table, a, s.ident, i);
    LoadRawAt(env, base, table, b, s.ident, i);
    NamedIgnoresPrior(env, base, s, a[s.ident], b[s.ident]);
    if Textual(s.kind) {
      NamedTextIsNotEmpty(env, base, s, a[s.ident]);
    }
  }

  /** A setting that has the same value before has the same value after loading the same file. */
  lemma SameIsLoaded(env: Surroundings, base: Config, table: seq<Setting>, a: Memory, b: Memory, ident: string)
    requires SameKinds(table) && ident in a && ident in b && a[ident] == b[ident]
    ensures LoadRaw(env, base, table, a)[ident] == LoadRaw(env, base, table, b)[ident]
  {
    if k :| LoadingRow(table, k, ident) {
      LoadRawAt(env, base, table, a, ident, k);
      LoadRawAt(env, base, table, b, ident, k);
    } else {
      NotLoaded(env, base, table, a, ident);
      NotLoaded(env, base, table, b, ident);
    }
  }

  /** The base file names a setting, or the override left it alone. */
  ghost predicate Returns(env: Surroundings, base: Config, table: seq<Setting>, original: Memory, overridden: Memory,
                          ident: string) {
    && ident in original && ident in overridden
    && (original[ident] == overridden[ident] || exists k :: LoadingRow(table, k, ident) && Names(env, base, table[k]))
  }

  lemma ReturnsRaw(env: Surroundings, base: Config, table: seq<Setting>, original: Memory, overridden: Memory,
                   ident: string)
    requires SameKinds(table) && Typed(table, original) && Typed(table, overridden)
    requires Returns(env, base, table, original, overridden, ident)
    ensures LoadRaw(env, base, table, overridden)[ident] == LoadRaw(env, base, table, original)[ident]
  {
    if original[ident] == overridden[ident] {
      SameIsLoaded(env, base, table, overridden, original, ident);
    } else {
      var k :| LoadingRow(table, k, ident) && Names(env, base, table[k]);
      NamedIsLoaded(env, base, table, overridden, original, k);
    }
  }

  lemma SameMenu(env: Surroundings, a: Memory, b: Memory)
    requires MENU in a && MENU in b && VIDEO in a && VIDEO in b
    requires a[MENU] == b[MENU] && a[MENU].TextValue? && a[VIDEO] == b[VIDEO]
    ensures SanitisedValue(env, MENU, a, a) == SanitisedValue(env, MENU, b, b)
  {
    MenuIsSanitised(env, a, a);
    MenuIsSanitised(env, b, b);
  }

  lemma StreamUnloaded(env: Surroundings, base: Config, table: seq<Setting>, original: Memory, overridden: Memory)
    requires SameKinds(table) && Typed(table, original) && Typed(table, overridden)
    requires forall ident :: StreamSetting(ident) ==> Returns(env, base, table, original, overridden, ident)
    ensures StreamUrl(LoadRaw(env, base, table, overridden)) == StreamUrl(LoadRaw(env, base, table, original))
  {
    forall ident | StreamSetting(ident)
      ensures Same(LoadRaw(env, base, table, overridden), LoadRaw(env, base, table, original), ident)
    {
      ReturnsRaw(env, base, table, original, overridden, ident);
    }
    SameStreamUrl(LoadRaw(env, base, table, overridden), LoadRaw(env, base, table, original));
  }

  /** Loading the base again after any override gives every named setting its base value back: the menu driver
      together with the video driver, and the streaming address together with the settings behind it. */
  lemma UnloadRestoresBase(env: Surroundings, base: Config, table: seq<Setting>, original: Memory,
                           overridden: Memory, i: nat)
    requires SameKinds(table) && Typed(table, original) && Typed(table, overridden)
    requires i < |table| && Loads(table[i]) && Names(env, base, table[i]) && KnownKinds(table)
    requires table[i].ident == MENU ==> Returns(env, base, table, original, overridden, VIDEO)
    requires table[i].ident == STREAM ==>
               forall ident :: StreamSetting(ident) ==> Returns(env, base, table, original, overridden, ident)
    ensures LoadLive(env, base, table, overridden)[table[i].ident] ==
            LoadLive(env, base, table, original)[table[i].ident]
  {
    var s := table[i];
    var a, b := LoadRaw(env, base, table, overridden), LoadRaw(env, base, table, original);
    NamedIsLoaded(env, base, table, overridden, original, i);
    LoadedAt(env, base, table, overridden, s.ident);
    LoadedAt(env, base, table, original, s.ident);
    if s.ident in HISTORIES {
      HistoryKept(env, s.ident, a, a);
      HistoryKept(env, s.ident, b, b);
    } else if s.ident == MENU {
      ReturnsRaw(env, base, table, original, overridden, VIDEO);
      SameMenu(env, a, b);
    } else {
      if s.ident == STREAM {
        StreamUnloaded(env, base, table, original, overridden);
      }
      SelfContainedSanitising(env, s.ident, a, b, a, b);
    }
  }

  /** A setting that the base does not name survives the unload with the value the override gave it, so that it
      has its old value again only if it never changed. The menu driver survives when it suits the video driver
      found then, and the streaming address when none is prescribed then. */
  lemma UnloadKeepsUnnamed(env: Surroundings, base: Config, table: seq<Setting>, overridden: Memory, i: nat)
    requires SameKinds(table) && Typed(table, overridden) && Settled(env, overridden) && KnownKinds(table)
    requires i < |table| && Loads(table[i]) && Unnamed(env, base, table[i])
    requires table[i].ident in HISTORIES ==> overridden[table[i].ident] != TextValue("")
    ensures var ident, raw := table[i].ident, LoadRaw(env, base, table, overridden);
            LoadLive(env, base, table, overridden)[ident] ==
            if ident == STREAM && StreamUrl(raw).Some? then TextValue(StreamUrl(raw).value)
            else if ident == MENU && !MenuCompatible(raw) then TextValue("rgui")
            else overridden[ident]
  {
    var ident, raw := table[i].ident, LoadRaw(env, base, table, overridden);
    LoadRawAt(env, base, table, overridden, ident, i);
    LoadedAt(env, base, table, overridden, ident);
    SteadyAt(env, overridden, ident);
    assert raw[ident] == overridden[ident];
    if ident in HISTORIES {
      HistoryKept(env, ident, raw, raw);
    } else if ident == MENU {
      MenuIsSanitised(env, raw, raw);
    } else {
      SelfContainedSanitising(env, ident, raw, overridden, raw, overridden);
    }
  }

  /** So a setting of its own that the base does not name gets its old value back exactly when the override did
      not change it. */
  lemma UnloadRestoresUnnamed(env: Surroundings, base: Config, table: seq<Setting>, original: Memory,
                              overridden: Memory, i: nat)
    requires SameKinds(table) && Typed(table, original) && Typed(table, overridden) && KnownKinds(table)
    requires Settled(env, original) && Settled(env, overridden)
    requires i < |table| && Loads(table[i]) && Unnamed(env, base, table[i])
    requires SelfContained(table[i].ident) && table[i].ident != STREAM
    ensures var ident := table[i].ident;
            LoadLive(env, base, table, overridden)[ident] == LoadLive(env, base, table, original)[ident] <==>
            overridden[ident] == original[ident]
  {
    UnloadKeepsUnnamed(env, base, table, overridden, i);
    UnloadKeepsUnnamed(env, base, table, original, i);
  }
}
