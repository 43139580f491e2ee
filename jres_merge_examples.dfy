/** Small merges, for all inputs of a given shape. They show where the
    merge's output falls short of what one might expect of it: display
    names that are not unique, a loser entry lost to another, a tilemap
    carried although the winner holds an identical one, and a tilemap
    pointed at the wrong tile. */
module JresMergeExamples {
  import opened Wrappers
  import opened Text
  import opened Suffix
  import opened Jres
  import opened JresMerge
  import opened JresMergeProps

  /** An object of MIME type `m` with the given data, display name and
      tile flag, and no tileset or id. */
  function Obj(data: string, name: Option<string>, m: string, tile: Option<bool>): Entry {
    Asset(Some(data), name, Some(m), tile, None, None, map[])
  }

  /** A winner holding only its defaults, with default MIME type `m`. */
  function BareWinner(m: string): (r: Manifest)
    ensures r.Valid() && HasDefaults(r)
  {
    Manifest([DEFAULTS_KEY], map[DEFAULTS_KEY := Obj("", None, m, None)])
  }

  /** Equal prefixes: the strings differ exactly where the tails do. */
  lemma AppendCancel(p: string, a: string, b: string)
    ensures p + a == p + b ==> a == b
  {
    if p + a == p + b {
      assert a == (p + a)[|p|..];
      assert b == (p + b)[|p|..];
    }
  }

  /** Two loser objects (not tilemaps) under different keys, with one
      non-empty display name and different data: neither name was taken when it was kept, so
      neither was marked occupied, and both reach the merged catalog under
      that name. */
  lemma DisplayNamesNotUnique(a: string, b: string, d1: string, d2: string, name: string, m: string)
    requires a != b && a != DEFAULTS_KEY && b != DEFAULTS_KEY
    requires d1 != d2 && name != "" && m != TILEMAP_MIME_TYPE
    ensures var previous := Manifest([a, b], map[a := Obj(d1, Some(name), m, None), b := Obj(d2, Some(name), m, None)]);
      var r := MergeBoth(previous, BareWinner(m));
      && a in r.entries && b in r.entries
      && r.entries[a] == Obj(d1, Some(name), m, None)
      && r.entries[b] == Obj(d2, Some(name), m, None)
  {
    var previous := Manifest([a, b], map[a := Obj(d1, Some(name), m, None), b := Obj(d2, Some(name), m, None)]);
    var f2 := DisplaySecondStep(a, b, d1, d2, name, m);
    assert Folded(previous, BareWinner(m)) == f2;
    MergeOfNoTilemaps(previous, BareWinner(m));
  }

  /** The second loser step of `DisplayNamesNotUnique`: `b`'s fingerprint
      differs from `a`'s, so `b` is kept under its own key as well. */
  lemma DisplaySecondStep(a: string, b: string, d1: string, d2: string, name: string, m: string) returns (f2: Fold)
    requires a != b && a != DEFAULTS_KEY && b != DEFAULTS_KEY
    requires d1 != d2 && name != "" && m != TILEMAP_MIME_TYPE
    ensures var previous := Manifest([a, b], map[a := Obj(d1, Some(name), m, None), b := Obj(d2, Some(name), m, None)]);
      f2 == FoldLoser(previous, Some(m), Start(BareWinner(m)), 2)
    ensures f2.out.entries == BareWinner(m).entries[a := Obj(d1, Some(name), m, None)][b := Obj(d2, Some(name), m, None)]
    ensures f2.tilemaps == EmptyManifest
  {
    var previous := Manifest([a, b], map[a := Obj(d1, Some(name), m, None), b := Obj(d2, Some(name), m, None)]);
    var f1 := DisplayFirstStep(a, b, d1, d2, name, m);
    AppendCancel(m + "false", d1, d2);
    f2 := FoldLoser(previous, Some(m), Start(BareWinner(m)), 2);
    assert f2 == FoldEntry(f1, b, previous.entries[b], Some(m));
  }

  /** The first loser step of `DisplayNamesNotUnique`: `a` is kept under its
      own key and only its fingerprint is recorded. */
  lemma DisplayFirstStep(a: string, b: string, d1: string, d2: string, name: string, m: string) returns (f1: Fold)
    requires a != b && a != DEFAULTS_KEY && b != DEFAULTS_KEY
    requires name != "" && m != TILEMAP_MIME_TYPE
    ensures var previous := Manifest([a, b], map[a := Obj(d1, Some(name), m, None), b := Obj(d2, Some(name), m, None)]);
      f1 == FoldLoser(previous, Some(m), Start(BareWinner(m)), 1)
    ensures f1.ix == Index({}, {}, map[Fingerprint(Some(m), false, Some(d1)) := a])
    ensures f1.out.entries == BareWinner(m).entries[a := Obj(d1, Some(name), m, None)]
    ensures f1.tilemaps == EmptyManifest
  {
    var previous := Manifest([a, b], map[a := Obj(d1, Some(name), m, None), b := Obj(d2, Some(name), m, None)]);
    var w := BareWinner(m);
    assert |w.keys| == 1 && w.keys[0] == DEFAULTS_KEY && DefaultMime(w) == Some(m);
    assert IndexWinner(w, Some(m), 1) == NoIndex;
    var s0 := Start(w);
    var f0 := FoldLoser(previous, Some(m), s0, 0);
    assert f0.ix == NoIndex;
    f1 := FoldLoser(previous, Some(m), s0, 1);
    assert f1 == KeepEntry(f0, a, previous.entries[a], Some(m));
  }

  /** A loser pass that holds back no tilemap leaves its catalog as the
      merged one. */
  lemma MergeOfNoTilemaps(previous: Manifest, next: Manifest)
    requires previous.Valid() && next.Valid() && HasDefaults(next)
    requires Folded(previous, next).tilemaps.keys == []
    ensures MergeBoth(previous, next) == Folded(previous, next).out
  {
  }

  /** `a + "0"` is the first suffixed form of `a`. */
  lemma FirstSuffix(a: string, occupied: set<string>)
    requires a + "0" !in occupied
    ensures FirstFree(a, occupied, 0) == 0
  {
    assert NatStr(0) == "0";
  }

  /** `a + "0"` is neither `a` nor `"*"`. */
  lemma SuffixedKeyIsNew(a: string)
    ensures a + "0" != a && a + "0" != DEFAULTS_KEY
  {
    assert |a + "0"| == |a| + 1;
    assert (a + "0")[|a|] == '0';
  }

  /** A winner holding its defaults and an object under `a`. */
  function WinnerWith(a: string, dw: string, m: string): (r: Manifest)
    requires a != DEFAULTS_KEY
    ensures r.Valid() && HasDefaults(r) && DefaultMime(r) == Some(m)
  {
    Manifest([DEFAULTS_KEY, a], map[DEFAULTS_KEY := Obj("", None, m, None), a := Obj(dw, None, m, None)])
  }

  /** A loser holding an object under `a + "0"` and then one under `a`. */
  function LoserWithSuffixed(a: string, dx: string, dy: string, m: string): (r: Manifest)
    ensures r.Valid() && r.keys == [a + "0", a]
  {
    SuffixedKeyIsNew(a);
    Manifest([a + "0", a], map[a + "0" := Obj(dx, None, m, None), a := Obj(dy, None, m, None)])
  }

  /** The loser holds `a + "0"` and then `a`, the winner holds `a`, and all
      three have different data. The loser's `a + "0"` is kept under its
      own key, which is not marked occupied; the loser's `a` collides with
      the winner and is renamed to the least free suffix by the occupied
      ids, which is again `a + "0"`: it overwrites the entry just written,
      and the loser's `a + "0"` data is in no entry of the result. */
  lemma LoserEntryOverwritten(a: string, dw: string, dx: string, dy: string, m: string)
    requires a != DEFAULTS_KEY && m != TILEMAP_MIME_TYPE
    requires dw != dx && dx != dy && dw != dy
    ensures var r := MergeBoth(LoserWithSuffixed(a, dx, dy, m), WinnerWith(a, dw, m));
      && r.keys == [DEFAULTS_KEY, a, a + "0"]
      && a + "0" in r.entries
      && r.entries[a + "0"] == Obj(dy, NameToUse(View(Some(dy), None, Some(m), false)), m, None)
  {
    var a0 := a + "0";
    SuffixedKeyIsNew(a);
    var winner := WinnerWith(a, dw, m);
    var previous := LoserWithSuffixed(a, dx, dy, m);
    var fw := Fingerprint(Some(m), false, Some(dw));
    var fx := Fingerprint(Some(m), false, Some(dx));
    AppendCancel(m + "false", dw, dx);
    AppendCancel(m + "false", dx, dy);
    AppendCancel(m + "false", dw, dy);
    assert IndexWinner(winner, Some(m), 1) == NoIndex;
    assert IndexWinner(winner, Some(m), 2) == Index({a}, {}, map[fw := a]);
    var s0 := Start(winner);
    var f1 := OverwriteFirstStep(a, dw, dx, dy, m);
    FirstSuffix(a, {a});
    var f2 := FoldLoser(previous, Some(m), s0, 2);
    assert f2 == KeepEntry(f1, a, previous.entries[a], Some(m));
  }

  /** The first loser step of `LoserEntryOverwritten`: `a + "0"` is kept
      under its own key and only its fingerprint is recorded. */
  lemma OverwriteFirstStep(a: string, dw: string, dx: string, dy: string, m: string) returns (f1: Fold)
    requires a != DEFAULTS_KEY && m != TILEMAP_MIME_TYPE && dw != dx
    ensures f1 == FoldLoser(LoserWithSuffixed(a, dx, dy, m), Some(m), Start(WinnerWith(a, dw, m)), 1)
    ensures f1.out.keys == [DEFAULTS_KEY, a, a + "0"]
    ensures f1.ix == Index({a}, {}, map[Fingerprint(Some(m), false, Some(dw)) := a, Fingerprint(Some(m), false, Some(dx)) := a + "0"])
    ensures f1.tileMapping == map[] && f1.tilemaps == EmptyManifest
  {
    SuffixedKeyIsNew(a);
    var winner := WinnerWith(a, dw, m);
    var previous := LoserWithSuffixed(a, dx, dy, m);
    AppendCancel(m + "false", dw, dx);
    assert IndexWinner(winner, Some(m), 1) == NoIndex;
    assert IndexWinner(winner, Some(m), 2) == Index({a}, {}, map[Fingerprint(Some(m), false, Some(dw)) := a]);
    var s0 := Start(winner);
    assert s0.ix == Index({a}, {}, map[Fingerprint(Some(m), false, Some(dw)) := a]);
    assert !Registered(s0.ix.values, Fingerprint(Some(m), false, Some(dx)));
    f1 := FoldLoser(previous, Some(m), s0, 1);
    assert FoldLoser(previous, Some(m), s0, 0) == s0;
    assert previous.keys[0] == a + "0";
    assert f1 == FoldEntry(s0, a + "0", previous.entries[a + "0"], Some(m));
  }

  // ------------------------------------------------------------ wrong tile

  /** A tile object with the given data and no display name. */
  function Tile(data: string): Entry {
    Obj(data, None, IMAGE_MIME_TYPE, Some(true))
  }

  /** A winner holding its defaults and a tile under `t`. */
  function WinnerWithTile(t: string, dw: string): (r: Manifest)
    requires t != DEFAULTS_KEY
    ensures r.Valid() && HasDefaults(r) && DefaultMime(r) == Some(IMAGE_MIME_TYPE)
    ensures r.keys == [DEFAULTS_KEY, t] && t in r.entries && r.entries[t] == Tile(dw)
  {
    Manifest([DEFAULTS_KEY, t], map[DEFAULTS_KEY := Obj("", None, IMAGE_MIME_TYPE, None), t := Tile(dw)])
  }

  /** The tilemap of the loser: its tileset is the single tile `u`. */
  function TilemapOf(u: string): Entry {
    Asset(Some(""), None, Some(TILEMAP_MIME_TYPE), None, Some([TileRef(u)]), None, map[])
  }

  /** A loser holding a tile under `t`, the same tile under `u`, and a
      tilemap under `mp` that uses the tile `u`. */
  function LoserWithTiles(t: string, u: string, mp: string, dl: string): (r: Manifest)
    requires t != u && u != mp && t != mp
    ensures r.Valid() && r.keys == [t, u, mp]
    ensures t in r.entries && u in r.entries && mp in r.entries
    ensures r.entries[t] == Tile(dl) && r.entries[u] == Tile(dl) && r.entries[mp] == TilemapOf(u)
  {
    Manifest([t, u, mp], map[t := Tile(dl), u := Tile(dl), mp := TilemapOf(u)])
  }

  /** What `TileRedirectedToWinner` asks of its keys and data. */
  predicate TileCase(t: string, u: string, mp: string, dw: string, dl: string) {
    && t != u && u != mp && t != mp && mp != t + "0"
    && t != DEFAULTS_KEY && u != DEFAULTS_KEY && mp != DEFAULTS_KEY
    && t != "" && dw != dl
  }

  /** The loser's tilemap as the merge writes it, with tileset `[TileRef(u)]`. */
  function CarriedTilemap(u: string): Entry {
    Asset(Some(""), Some("tilemap"), Some(TILEMAP_MIME_TYPE), None, Some([TileRef(u)]), None, map[])
  }

  /** The name the merge gives an unnamed tile. */
  const TileName: Option<string> := Some(TILE_NAMESPACE + "." + TILE_PREFIX)

  /** Step 1: the loser's `t` collides with the winner's `t` and is kept
      as `t + "0"`; its reference is renamed, and its fingerprint is
      registered under `t`, the winner's key. */
  lemma TileFirstStep(t: string, u: string, mp: string, dw: string, dl: string) returns (f1: Fold)
    requires TileCase(t, u, mp, dw, dl)
    ensures f1 == FoldLoser(LoserWithTiles(t, u, mp, dl), Some(IMAGE_MIME_TYPE), Start(WinnerWithTile(t, dw)), 1)
    ensures f1.out.Valid() && f1.tilemaps.Valid()
    ensures f1.out.entries == WinnerWithTile(t, dw).entries[t + "0" := Obj(dl, TileName, IMAGE_MIME_TYPE, Some(true))]
    ensures f1.ix.ids == {t, t + "0"} && f1.ix.names == {}
    ensures f1.ix.values == map[Fingerprint(Some(IMAGE_MIME_TYPE), true, Some(dw)) := t, Fingerprint(Some(IMAGE_MIME_TYPE), true, Some(dl)) := t]
    ensures f1.tileMapping == map[TileRef(t) := TileRef(t + "0")]
    ensures f1.tilemaps == EmptyManifest
  {
    var winner := WinnerWithTile(t, dw);
    var previous := LoserWithTiles(t, u, mp, dl);
    var fw := Fingerprint(Some(IMAGE_MIME_TYPE), true, Some(dw));
    var fl := Fingerprint(Some(IMAGE_MIME_TYPE), true, Some(dl));
    AppendCancel(IMAGE_MIME_TYPE + "true", dw, dl);
    assert IndexWinner(winner, Some(IMAGE_MIME_TYPE), 1) == NoIndex;
    assert IndexWinner(winner, Some(IMAGE_MIME_TYPE), 2) == Index({t}, {}, map[fw := t]);
    var s0 := Start(winner);
    assert !Registered(s0.ix.values, fl);
    FirstSuffix(t, {t});
    f1 := FoldLoser(previous, Some(IMAGE_MIME_TYPE), s0, 1);
    assert FoldLoser(previous, Some(IMAGE_MIME_TYPE), s0, 0) == s0;
    assert f1 == KeepEntry(s0, t, Tile(dl), Some(IMAGE_MIME_TYPE));
  }

  /** Step 2: the loser's `u` duplicates the fingerprint registered under
      `t`, so it is dropped and its reference is mapped to `t`. */
  lemma TileSecondStep(t: string, u: string, mp: string, dw: string, dl: string) returns (f2: Fold)
    requires TileCase(t, u, mp, dw, dl)
    ensures f2 == FoldLoser(LoserWithTiles(t, u, mp, dl), Some(IMAGE_MIME_TYPE), Start(WinnerWithTile(t, dw)), 2)
    ensures f2.out.Valid() && f2.tilemaps.Valid()
    ensures f2.out.entries == WinnerWithTile(t, dw).entries[t + "0" := Obj(dl, TileName, IMAGE_MIME_TYPE, Some(true))]
    ensures f2.ix.ids == {t, t + "0"} && f2.ix.names == {}
    ensures f2.ix.values == map[Fingerprint(Some(IMAGE_MIME_TYPE), true, Some(dw)) := t, Fingerprint(Some(IMAGE_MIME_TYPE), true, Some(dl)) := t]
    ensures f2.tileMapping == map[TileRef(t) := TileRef(t + "0"), TileRef(u) := TileRef(t)]
    ensures f2.tilemaps == EmptyManifest
  {
    var f1 := TileFirstStep(t, u, mp, dw, dl);
    var previous := LoserWithTiles(t, u, mp, dl);
    f2 := FoldLoser(previous, Some(IMAGE_MIME_TYPE), Start(WinnerWithTile(t, dw)), 2);
    assert f2 == FoldEntry(f1, u, Tile(dl), Some(IMAGE_MIME_TYPE));
  }

  /** Step 3: the tilemap is kept under its own key, held back. */
  lemma TileThirdStep(t: string, u: string, mp: string, dw: string, dl: string) returns (f3: Fold)
    requires TileCase(t, u, mp, dw, dl)
    ensures f3 == Folded(LoserWithTiles(t, u, mp, dl), WinnerWithTile(t, dw))
    ensures f3.out.entries == WinnerWithTile(t, dw).entries[t + "0" := Obj(dl, TileName, IMAGE_MIME_TYPE, Some(true))]
    ensures f3.tileMapping == map[TileRef(t) := TileRef(t + "0"), TileRef(u) := TileRef(t)]
    ensures f3.tilemaps.keys == [mp] && mp in f3.tilemaps.entries
    ensures f3.tilemaps.entries[mp] == CarriedTilemap(u)
  {
    var f2 := TileSecondStep(t, u, mp, dw, dl);
    var previous := LoserWithTiles(t, u, mp, dl);
    var fm := Fingerprint(Some(TILEMAP_MIME_TYPE), false, Some(""));
    assert fm[0] == 'a';
    assert Fingerprint(Some(IMAGE_MIME_TYPE), true, Some(dw))[0] == 'i';
    assert Fingerprint(Some(IMAGE_MIME_TYPE), true, Some(dl))[0] == 'i';
    assert !Registered(f2.ix.values, fm);
    var v := ViewOf(TilemapOf(u), Some(IMAGE_MIME_TYPE));
    assert NameToUse(v) == Some("tilemap");
    assert UniqueId(mp, f2.ix.ids) == mp;
    f3 := FoldLoser(previous, Some(IMAGE_MIME_TYPE), Start(WinnerWithTile(t, dw)), 3);
    assert f3 == KeepEntry(f2, mp, TilemapOf(u), Some(IMAGE_MIME_TYPE));
    assert Carried(TilemapOf(u), Some(IMAGE_MIME_TYPE), Some("tilemap"), mp) == CarriedTilemap(u);
  }

  /** The loser's tilemap uses its tile `u`, which is the same tile as the
      loser's `t`. The loser's `t` is kept as `t + "0"`, but its
      fingerprint is registered under `t`, so `u` is redirected to `t`:
      the merged tilemap points at the winner's tile `t`, whose data is
      not the data the tilemap was drawn with. */
  lemma TileRedirectedToWinner(t: string, u: string, mp: string, dw: string, dl: string)
    requires TileCase(t, u, mp, dw, dl)
    ensures var r := MergeBoth(LoserWithTiles(t, u, mp, dl), WinnerWithTile(t, dw));
      && mp in r.entries && t in r.entries && t + "0" in r.entries
      && r.entries[mp] == CarriedTilemap(t)
      && r.entries[t] == Tile(dw)
      && r.entries[t + "0"] == Obj(dl, TileName, IMAGE_MIME_TYPE, Some(true))
  {
    TileMergeEntries(t, u, mp, dw, dl);
  }

  /** The merged catalog of the wrong-tile case: the winner, the loser's
      `t` as `t + "0"`, and the tilemap pointed at `t`. */
  lemma TileMergeEntries(t: string, u: string, mp: string, dw: string, dl: string)
    requires TileCase(t, u, mp, dw, dl)
    ensures MergeBoth(LoserWithTiles(t, u, mp, dl), WinnerWithTile(t, dw)).entries ==
      WinnerWithTile(t, dw).entries[t + "0" := Obj(dl, TileName, IMAGE_MIME_TYPE, Some(true))][mp := CarriedTilemap(t)]
  {
    var f3 := TileThirdStep(t, u, mp, dw, dl);
    MergeOfOneTilemap(LoserWithTiles(t, u, mp, dl), WinnerWithTile(t, dw));
    assert Lookup(f3.tileMapping, TileRef(u)) == TileRef(t);
    RemappedToTile(t, u, f3.tileMapping);
  }

  /** With a single held-back tilemap, pass 3 writes just that one. */
  lemma MergeOfOneTilemap(previous: Manifest, next: Manifest)
    requires previous.Valid() && next.Valid() && HasDefaults(next)
    requires |Folded(previous, next).tilemaps.keys| == 1
    ensures var f := Folded(previous, next);
      var k := f.tilemaps.keys[0];
      MergeBoth(previous, next).entries == f.out.entries[k := WithRemappedTileset(f.tilemaps.entries[k], f.tileMapping)]
  {
    var f := Folded(previous, next);
    assert FixTilemaps(f.out, f.tilemaps, f.tileMapping, 0) == f.out;
  }

  // ------------------------------------------------------------ tilemaps kept

  /** An unnamed tilemap with the given data, and no tileset or id. */
  function BareTilemap(d: string): Entry {
    Asset(Some(d), None, Some(TILEMAP_MIME_TYPE), None, None, None, map[])
  }

  /** A winner holding its defaults (images) and the tilemap `BareTilemap(d)` under `mp`. */
  function WinnerWithTilemap(mp: string, d: string): (r: Manifest)
    requires mp != DEFAULTS_KEY
    ensures r.Valid() && HasDefaults(r) && DefaultMime(r) == Some(IMAGE_MIME_TYPE)
  {
    Manifest([DEFAULTS_KEY, mp], map[DEFAULTS_KEY := Obj("", None, IMAGE_MIME_TYPE, None), mp := BareTilemap(d)])
  }

  /** Tilemaps are never deduplicated: no tilemap's content is registered,
      the winner's or the loser's, so a loser tilemap identical to the
      winner's is still carried, named `"tilemap"` and written under the
      suffixed key `mp + "0"`. */
  lemma TilemapNotDeduplicated(mp: string, d: string)
    requires mp != DEFAULTS_KEY
    ensures var next := WinnerWithTilemap(mp, d);
      var r := MergeBoth(Manifest([mp], map[mp := BareTilemap(d)]), next);
      && r.keys == [DEFAULTS_KEY, mp, mp + "0"]
      && r.entries == next.entries[mp + "0" := BareTilemap(d).(displayName := Some("tilemap"))]
  {
    var next := WinnerWithTilemap(mp, d);
    var previous := Manifest([mp], map[mp := BareTilemap(d)]);
    var carried := BareTilemap(d).(displayName := Some("tilemap"));
    var f := TilemapKeptStep(mp, d);
    assert Folded(previous, next) == f;
    MergeOfOneTilemap(previous, next);
    assert f.tilemaps.keys[0] == mp + "0" && f.tilemaps.entries[mp + "0"] == carried;
    assert WithRemappedTileset(carried, f.tileMapping) == carried;
    assert MergeBoth(previous, next) == FixTilemaps(next, f.tilemaps, f.tileMapping, 1);
    assert FixTilemaps(next, f.tilemaps, f.tileMapping, 0) == next;
    SuffixedKeyIsNew(mp);
    assert mp + "0" !in next.entries;
    assert MergeBoth(previous, next) == Put(next, mp + "0", carried);
  }

  /** The one loser step of `TilemapNotDeduplicated`: the winner's tilemap
      registered nothing, so the loser's is kept, its key taken, under
      `mp + "0"` among the held-back tilemaps. */
  lemma TilemapKeptStep(mp: string, d: string) returns (f1: Fold)
    requires mp != DEFAULTS_KEY
    ensures f1 == FoldLoser(Manifest([mp], map[mp := BareTilemap(d)]), Some(IMAGE_MIME_TYPE), Start(WinnerWithTilemap(mp, d)), 1)
    ensures f1.out == WinnerWithTilemap(mp, d)
    ensures f1.tilemaps == Put(EmptyManifest, mp + "0", BareTilemap(d).(displayName := Some("tilemap")))
  {
    SuffixedKeyIsNew(mp);
    var next := WinnerWithTilemap(mp, d);
    var previous := Manifest([mp], map[mp := BareTilemap(d)]);
    var dm := Some(IMAGE_MIME_TYPE);
    assert IndexWinner(next, dm, 1) == NoIndex;
    assert IndexWinner(next, dm, 2) == Index({mp}, {}, map[]);
    var s0 := Start(next);
    assert FoldLoser(previous, dm, s0, 0) == s0;
    f1 := FoldLoser(previous, dm, s0, 1);
    assert f1 == KeepEntry(s0, mp, BareTilemap(d), dm);
    FirstSuffix(mp, {mp});
    assert UniqueId(mp, {mp}) == mp + "0";
  }

  /** The loser's tilemap, with `TileRef(u)` mapped to `TileRef(t)`. */
  lemma RemappedToTile(t: string, u: string, mapping: map<string, string>)
    requires Lookup(mapping, TileRef(u)) == TileRef(t)
    ensures WithRemappedTileset(CarriedTilemap(u), mapping) == CarriedTilemap(t)
  {
    var ts := RemapTileset([TileRef(u)], mapping);
    RemapTilesetAt([TileRef(u)], mapping, 0);
    assert ts == [TileRef(t)];
  }

  // ------------------------------------------------------------ plain defaults

  /** A winner whose `"*"` entry is a plain string merges without failing:
      its default MIME type is absent, so a plain loser entry is carried as
      an object with no MIME type and no display name. */
  lemma PlainDefaultsMerge(a: string, d: string, s: string)
    requires a != DEFAULTS_KEY
    ensures var next := Manifest([DEFAULTS_KEY], map[DEFAULTS_KEY := Plain(s)]);
      var previous := Manifest([a], map[a := Plain(d)]);
      Merge(Some(previous), Some(next)) ==
        Success(Some(Manifest([DEFAULTS_KEY, a], map[DEFAULTS_KEY := Plain(s), a := Asset(Some(d), None, None, None, None, None, map[])])))
  {
    var next := Manifest([DEFAULTS_KEY], map[DEFAULTS_KEY := Plain(s)]);
    var previous := Manifest([a], map[a := Plain(d)]);
    assert DefaultMime(next) == None;
    assert IndexWinner(next, None, 1) == NoIndex;
    var s0 := Start(next);
    assert FoldLoser(previous, None, s0, 0) == s0;
    var f1 := FoldLoser(previous, None, s0, 1);
    assert !Registered(s0.ix.values, ViewFingerprint(ViewOf(Plain(d), None)));
    assert f1 == KeepEntry(s0, a, Plain(d), None);
    assert NameToUse(View(Some(d), None, None, false)) == None;
    assert UniqueId(a, {}) == a;
    assert f1.out == Put(next, a, Asset(Some(d), None, None, None, None, None, map[]));
    assert f1.tilemaps == EmptyManifest;
    assert Folded(previous, next) == f1;
    MergeOfNoTilemaps(previous, next);
    assert [DEFAULTS_KEY] + [a] == [DEFAULTS_KEY, a];
  }

  /** Without a default MIME type, a plain loser string duplicates a winner
      tile object with the same data and no MIME type: both are keyed
      `"NaN" + data`, whatever the tile flag, so the loser entry is
      dropped and the winner comes through unchanged. */
  lemma UntypedTileDuplicatesPlain(a: string, b: string, d: string, s: string)
    requires a != "" && a != DEFAULTS_KEY && b != DEFAULTS_KEY
    ensures var next := Manifest([DEFAULTS_KEY, a], map[DEFAULTS_KEY := Plain(s), a := Asset(Some(d), None, None, Some(true), None, None, map[])]);
      var previous := Manifest([b], map[b := Plain(d)]);
      Merge(Some(previous), Some(next)) == Success(Some(next))
  {
    var next := Manifest([DEFAULTS_KEY, a], map[DEFAULTS_KEY := Plain(s), a := Asset(Some(d), None, None, Some(true), None, None, map[])]);
    var previous := Manifest([b], map[b := Plain(d)]);
    assert DefaultMime(next) == None;
    assert IndexWinner(next, None, 1) == NoIndex;
    assert IndexWinner(next, None, 2).values == map["NaN" + d := a];
    assert Registered(IndexWinner(next, None, 2).values, ViewFingerprint(ViewOf(Plain(d), None)));
    MergeOfDuplicatesIsWinner(previous, next);
  }
}
