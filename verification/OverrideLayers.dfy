/** The layers of an override: core, content directory and game, which win in that order over the base. */
module OverrideLayers {
  import opened CText
  import opened ConfigFile

  /** `strtok_r` on '|': the non-empty pieces. */
  function Tokens(s: string): seq<string> {
    TokensAfter("", s)
  }

  function TokensAfter(piece: string, s: string): seq<string>
    decreases |s|
  {
    if s == "" then if piece == "" then [] else [piece]
    else if s[0] == '|' then (if piece == "" then [] else [piece]) + TokensAfter("", s[1..])
    else TokensAfter(piece + [s[0]], s[1..])
  }

  /** One more layer on the append path of `config_load_override`. */
  function AddLayer(path: string, layer: string, found: bool): string {
    if !found then path else if path == "" then layer else path + "|" + layer
  }

  /** The core, content directory and game layers that exist, in that order. */
  function AppendPath(core: string, hasCore: bool, dir: string, hasDir: bool, game: string, hasGame: bool): string {
    AddLayer(AddLayer(AddLayer("", core, hasCore), dir, hasDir), game, hasGame)
  }

  function Present(core: string, hasCore: bool, dir: string, hasDir: bool, game: string, hasGame: bool): seq<string> {
    (if hasCore then [core] else []) + (if hasDir then [dir] else []) + (if hasGame then [game] else [])
  }

  predicate GoodPath(p: string) {
    p != "" && '|' !in p
  }

  lemma {:induction false} TokensAfterPiece(piece: string, p: string, rest: string)
    requires '|' !in p
    ensures TokensAfter(piece, p + rest) == TokensAfter(piece + p, rest)
    decreases |p|
  {
    if p == "" {
      assert p + rest == rest && piece + p == piece;
    } else {
      assert (p + rest)[1..] == p[1..] + rest;
      TokensAfterPiece(piece + [p[0]], p[1..], rest);
      assert piece + [p[0]] + p[1..] == piece + p;
    }
  }

  lemma {:induction false} TokensAppend(piece: string, s: string, p: string)
    requires GoodPath(p)
    ensures TokensAfter(piece, s + "|" + p) == TokensAfter(piece, s) + [p]
    decreases |s|
  {
    if s == "" {
      assert s + "|" + p == "|" + p && ("|" + p)[1..] == p;
      TokensAfterPiece("", p, "");
      assert p + "" == p && "" + p == p;
    } else {
      assert (s + "|" + p)[1..] == s[1..] + "|" + p;
      if s[0] == '|' {
        TokensAppend("", s[1..], p);
      } else {
        TokensAppend(piece + [s[0]], s[1..], p);
      }
    }
  }

  lemma TokensOfLayer(path: string, layer: string, found: bool)
    requires GoodPath(layer)
    ensures Tokens(AddLayer(path, layer, found)) == Tokens(path) + if found then [layer] else []
  {
    if found {
      if path == "" {
        TokensAfterPiece("", layer, "");
        assert layer + "" == layer && "" + layer == layer;
      } else {
        TokensAppend("", path, layer);
      }
    } else {
      assert Tokens(path) + [] == Tokens(path);
    }
  }

  /** The joined append path splits back into exactly the layers that exist, in order. */
  lemma AppendPathSplitsBack(core: string, hasCore: bool, dir: string, hasDir: bool, game: string, hasGame: bool)
    requires GoodPath(core) && GoodPath(dir) && GoodPath(game)
    ensures Tokens(AppendPath(core, hasCore, dir, hasDir, game, hasGame)) ==
            Present(core, hasCore, dir, hasDir, game, hasGame)
  {
    var p1 := AddLayer("", core, hasCore);
    var p2 := AddLayer(p1, dir, hasDir);
    TokensOfLayer("", core, hasCore);
    TokensOfLayer(p1, dir, hasDir);
    TokensOfLayer(p2, game, hasGame);
    assert Tokens("") == [];
  }

  /** Appending files one after the other, each read from `files`; a missing one is skipped. */
  function AppendAll(conf: Config, paths: seq<string>, files: map<string, Config>): Config {
    if paths == [] then conf
    else
      var n := |paths| - 1;
      var c := AppendAll(conf, paths[..n], files);
      if paths[n] in files then Append(c, files[paths[n]]) else c
  }

  /** The append loop of `config_load_file`. */
  method AppendLayers(conf: Config, appendPath: string, files: map<string, Config>) returns (layered: Config)
    ensures layered == AppendAll(conf, Tokens(appendPath), files)
  {
    layered := conf;
    var paths := Tokens(appendPath);
    var i := 0;
    while i < |paths|
      invariant i <= |paths|
      invariant layered == AppendAll(conf, paths[..i], files)
    {
      assert paths[..i + 1][..i] == paths[..i];
      if paths[i] in files {
        layered := Append(layered, files[paths[i]]);
      }
      i := i + 1;
    }
    assert paths[..i] == paths;
  }

  /** `config_load_override`, up to the reload: the append path and whether there is anything to load. */
  method FindLayers(core: string, dir: string, game: string, files: map<string, Config>)
    returns (appendPath: string, any: bool)
    requires GoodPath(core) && GoodPath(dir) && GoodPath(game)
    ensures appendPath == AppendPath(core, core in files, dir, dir in files, game, game in files)
    ensures any <==> core in files || dir in files || game in files
  {
    appendPath, any := "", false;
    if core in files {
      appendPath, any := core, true;
    }
    if dir in files {
      appendPath := if any then appendPath + "|" + dir else dir;
      any := true;
    }
    if game in files {
      appendPath := if any then appendPath + "|" + game else game;
      any := true;
    }
  }

  function FirstOf(a: Option<string>, b: Option<string>): Option<string> {
    if a.Some? then a else b
  }

  function Layer(path: string, files: map<string, Config>, key: string): Option<string> {
    if path in files then Get(files[path], key) else None
  }

  /** Every key is read from the game file, else the content directory's, else the core's, else the base. */
  lemma LayersWinInOrder(base: Config, core: string, dir: string, game: string, files: map<string, Config>, key: string)
    requires GoodPath(core) && GoodPath(dir) && GoodPath(game)
    ensures var path := AppendPath(core, core in files, dir, dir in files, game, game in files);
            Get(AppendAll(base, Tokens(path), files), key) ==
            FirstOf(Layer(game, files, key),
                    FirstOf(Layer(dir, files, key), FirstOf(Layer(core, files, key), Get(base, key))))
  {
    AppendPathSplitsBack(core, core in files, dir, dir in files, game, game in files);
    var p1 := if core in files then [core] else [];
    var p2 := if dir in files then [dir] else [];
    var p3 := if game in files then [game] else [];
    GetOneLayer(base, [], files, core, key);
    GetOneLayer(base, p1, files, dir, key);
    GetOneLayer(base, p1 + p2, files, game, key);
    assert [] + p1 == p1;
  }

  lemma GetOneLayer(base: Config, before: seq<string>, files: map<string, Config>, path: string, key: string)
    ensures Get(AppendAll(base, before + (if path in files then [path] else []), files), key) ==
            FirstOf(Layer(path, files, key), Get(AppendAll(base, before, files), key))
  {
    if path in files {
      assert (before + [path])[..|before|] == before;
      GetAppend(AppendAll(base, before, files), files[path], key);
    } else {
      assert before + [] == before;
    }
  }
}
