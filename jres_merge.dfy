/** `mergeJRES`: folds the entries of one JRES catalog (the loser,
    `previous`) into another (the winner, `next`). The winner's entries are
    kept as they are; a loser entry whose content the catalog already
    holds is dropped; every other loser entry is added, with a display name
    and an id made free by a numeric suffix where they are taken; finally
    the tilesets of the added tilemaps are pointed at the renamed tiles.

    The functions below state the three passes as folds over the key order;
    the method `MergeJRES` is the source's loop-and-dictionary algorithm and
    is proved to compute exactly `Merge`. */
module JresMerge {
  import opened Wrappers
  import opened Text
  import opened Suffix
  import opened Jres

  /** The winner has no `"*"` entry to take the default MIME type from
      (the source reads `mimeType` of `undefined` and throws a TypeError). */
  datatype MergeError = MissingDefaults

  /** The deduplication key `mimeType + isTile + valueString`, evaluated
      left to right as JavaScript does. With a MIME type it is string
      concatenation: the boolean reads "true" or "false", an absent data
      "undefined". Without one, `undefined + isTile` is the number `NaN`:
      followed by a data string it reads "NaN", and with no data the key
      stays `NaN`, which as a property name is "NaN" too. */
  function Fingerprint(mimeType: Option<string>, isTile: bool, data: Option<string>): string {
    match mimeType
    case Some(m) => m + (if isTile then "true" else "false") + Rendered(data)
    case None => "NaN" + (if data.Some? then data.value else "")
  }

  /** What the merge reads of an entry: a plain string is data of the
      default MIME type, is not a tile and has no display name. */
  datatype View = View(data: Option<string>, displayName: Option<string>, mimeType: Option<string>, isTile: bool)

  function ViewOf(e: Entry, defaultMime: Option<string>): View {
    match e
    case Plain(t) => View(Some(t), None, defaultMime, false)
    case Asset(d, n, m, tt, _, _, _) => View(d, n, m, tt == Some(true))
  }

  function ViewFingerprint(v: View): string {
    Fingerprint(v.mimeType, v.isTile, v.data)
  }

  /** How a tilemap's tileset refers to the tile stored under `key`. */
  function TileRef(key: string): string {
    TILE_NAMESPACE + "." + key
  }

  /** `valueMap[fp]` is truthy: registered, under a non-empty key. */
  predicate Registered(values: map<string, string>, fp: string) {
    fp in values && values[fp] != ""
  }

  // ------------------------------------------------------------ pass 1

  /** The bookkeeping of the merge: `idMap`, `nameMap` and `valueMap`. */
  datatype Index = Index(ids: set<string>, names: set<string>, values: map<string, string>)

  const NoIndex: Index := Index({}, {}, map[])

  /** Records one winner entry: its key, its display name if it has one,
      and (unless it is a tilemap) its fingerprint. */
  function IndexEntry(ix: Index, key: string, e: Entry, defaultMime: Option<string>): Index {
    var v := ViewOf(e, defaultMime);
    Index(ix.ids + {key},
          if Truthy(v.displayName) then ix.names + {v.displayName.value} else ix.names,
          if v.mimeType != Some(TILEMAP_MIME_TYPE) then ix.values[ViewFingerprint(v) := key] else ix.values)
  }

  /** The bookkeeping after the first `n` keys of the winner. */
  function IndexWinner(next: Manifest, defaultMime: Option<string>, n: nat): Index
    requires next.Valid() && n <= |next.keys|
  {
    if n == 0 then NoIndex
    else
      var ix := IndexWinner(next, defaultMime, n - 1);
      var key := next.keys[n - 1];
      if key == DEFAULTS_KEY then ix else IndexEntry(ix, key, next.entries[key], defaultMime)
  }

  // ------------------------------------------------------------ pass 2

  /** The state of the loser pass: the catalog being built (`nextParsed`),
      the bookkeeping, the tile renames and the held-back tilemaps. */
  datatype Fold = Fold(out: Manifest, ix: Index, tileMapping: map<string, string>, tilemaps: Manifest)

  /** An image, a tile, a tilemap or an animation: the kinds the editor
      shows by display name. */
  predicate KnownKind(mimeType: Option<string>) {
    mimeType == Some(IMAGE_MIME_TYPE) || mimeType == Some(TILEMAP_MIME_TYPE) || mimeType == Some(ANIMATION_MIME_TYPE)
  }

  /** The display name a kept entry gets before uniquing: its own when it
      has a non-empty one, otherwise one by kind; an entry of any other
      MIME type keeps what it had. */
  function NameToUse(v: View): Option<string> {
    if Truthy(v.displayName) then v.displayName
    else if v.mimeType == Some(IMAGE_MIME_TYPE) then
      Some(if v.isTile then TILE_NAMESPACE + "." + TILE_PREFIX else IMAGES_NAMESPACE + "." + IMAGE_PREFIX)
    else if v.mimeType == Some(TILEMAP_MIME_TYPE) then Some("tilemap")
    else if v.mimeType == Some(ANIMATION_MIME_TYPE) then Some(ANIMATION_NAMESPACE + "." + ANIMATION_PREFIX)
    else v.displayName
  }

  /** The name by kind: an image gets the tile or image name, a tilemap
      `"tilemap"`, an animation the animation name; an entry of another
      kind keeps its own, and one of a known kind always gets a non-empty
      name. */
  lemma NameToUseByKind(v: View)
    ensures Truthy(v.displayName) ==> NameToUse(v) == v.displayName
    ensures !Truthy(v.displayName) && v.mimeType == Some(IMAGE_MIME_TYPE) ==>
      NameToUse(v) == Some(if v.isTile then TILE_NAMESPACE + "." + TILE_PREFIX else IMAGES_NAMESPACE + "." + IMAGE_PREFIX)
    ensures !Truthy(v.displayName) && v.mimeType == Some(TILEMAP_MIME_TYPE) ==> NameToUse(v) == Some("tilemap")
    ensures !Truthy(v.displayName) && v.mimeType == Some(ANIMATION_MIME_TYPE) ==>
      NameToUse(v) == Some(ANIMATION_NAMESPACE + "." + ANIMATION_PREFIX)
    ensures !KnownKind(v.mimeType) ==> NameToUse(v) == v.displayName
    ensures KnownKind(v.mimeType) ==> Truthy(NameToUse(v))
  {
  }

  /** A non-empty name that is taken becomes `name + i` for the least free
      `i`; any other name is kept. */
  function UniqueName(name: Option<string>, names: set<string>): (r: Option<string>)
    ensures !(Truthy(name) && name.value in names) ==> r == name
    ensures Truthy(name) && name.value in names ==> r.Some? && r.value !in names
    ensures Truthy(name) ==> Truthy(r)
  {
    if Truthy(name) && name.value in names then Some(name.value + NatStr(FirstFree(name.value, names, 0)))
    else name
  }

  /** A taken name becomes the name with the least free number appended. */
  lemma UniqueNameSuffix(name: Option<string>, names: set<string>)
    requires Truthy(name) && name.value in names
    ensures exists i :: UniqueName(name, names) == Some(name.value + NatStr(i)) && Taken(name.value, names, i)
  {
    var i := FirstFree(name.value, names, 0);
    assert UniqueName(name, names) == Some(name.value + NatStr(i)) && Taken(name.value, names, i);
  }

  /** The occupied names afterwards: only a name that had to be renamed is
      marked occupied. */
  function NamesAfter(name: Option<string>, names: set<string>): set<string> {
    if Truthy(name) && name.value in names then names + {UniqueName(name, names).value} else names
  }

  /** A key that is taken becomes `key + i` for the least free `i`. */
  function UniqueId(key: string, ids: set<string>): (id: string)
    ensures id !in ids
    ensures key !in ids ==> id == key
  {
    if key in ids then key + NatStr(FirstFree(key, ids, 0)) else key
  }

  /** A taken key becomes the key with the least free number appended. */
  lemma UniqueIdSuffix(key: string, ids: set<string>)
    requires key in ids
    ensures exists i :: UniqueId(key, ids) == key + NatStr(i) && Taken(key, ids, i)
  {
    var i := FirstFree(key, ids, 0);
    assert UniqueId(key, ids) == key + NatStr(i) && Taken(key, ids, i);
  }

  /** The occupied ids afterwards: only a renamed id is marked occupied. */
  function IdsAfter(key: string, ids: set<string>): set<string> {
    if key in ids then ids + {UniqueId(key, ids)} else ids
  }

  /** The entry written for a kept loser entry: the original object with
      `data`, `displayName` and `mimeType` set and, when it has a non-empty
      `id`, that id replaced by the resolved one. A plain string becomes an
      object of the default MIME type. */
  function Carried(e: Entry, defaultMime: Option<string>, displayName: Option<string>, id: string): (r: Entry)
    ensures r.Asset? && r.displayName == displayName
  {
    match e
    case Plain(t) => Asset(Some(t), displayName, defaultMime, None, None, None, map[])
    case Asset(d, _, m, tt, ts, oldId, others) =>
      Asset(d, displayName, m, tt, ts, if Truthy(oldId) then Some(id) else oldId, others)
  }

  /** Field by field: the carried entry reads as the loser entry with the
      new display name; an object keeps its tile flag, tileset and other
      fields, and a non-empty id is replaced by the resolved one; a plain
      string gets no other field. */
  lemma CarriedFields(e: Entry, defaultMime: Option<string>, displayName: Option<string>, id: string)
    ensures var r := Carried(e, defaultMime, displayName, id);
      && ViewOf(r, defaultMime) == ViewOf(e, defaultMime).(displayName := displayName)
      && (e.Asset? ==> r.tilemapTile == e.tilemapTile && r.tileset == e.tileset && r.others == e.others)
      && (e.Asset? ==> r.id == if Truthy(e.id) then Some(id) else e.id)
      && (e.Plain? ==> r.tilemapTile.None? && r.tileset.None? && r.id.None? && r.others == map[])
  {
  }

  /** A duplicate is dropped; a duplicate tile's reference is mapped to
      the tile it duplicates. */
  function DropEntry(f: Fold, key: string, v: View): Fold
    requires Registered(f.ix.values, ViewFingerprint(v))
  {
    if v.isTile then f.(tileMapping := f.tileMapping[TileRef(key) := TileRef(f.ix.values[ViewFingerprint(v)])]) else f
  }

  /** The bookkeeping after a kept entry: a renamed id and a renamed
      display name are marked occupied, and the fingerprint (unless the
      entry is a tilemap) is registered under the original loser key. */
  function KeptIndex(ix: Index, key: string, v: View): Index {
    Index(IdsAfter(key, ix.ids), NamesAfter(NameToUse(v), ix.names),
          if v.mimeType != Some(TILEMAP_MIME_TYPE) then ix.values[ViewFingerprint(v) := key] else ix.values)
  }

  /** A tile whose id had to be renamed maps its old reference to the new. */
  function KeptTileMapping(f: Fold, key: string, v: View): map<string, string> {
    if key in f.ix.ids && v.isTile then f.tileMapping[TileRef(key) := TileRef(UniqueId(key, f.ix.ids))]
    else f.tileMapping
  }

  /** A kept entry is written under its resolved id: a tilemap into the
      held-back tilemaps, anything else into the catalog. */
  function KeepEntry(f: Fold, key: string, e: Entry, defaultMime: Option<string>): (g: Fold)
    requires f.out.Valid() && f.tilemaps.Valid()
    ensures g.out.Valid() && g.tilemaps.Valid()
  {
    var v := ViewOf(e, defaultMime);
    var id := UniqueId(key, f.ix.ids);
    var entry := Carried(e, defaultMime, UniqueName(NameToUse(v), f.ix.names), id);
    var ix := KeptIndex(f.ix, key, v);
    var tileMapping := KeptTileMapping(f, key, v);
    if v.mimeType == Some(TILEMAP_MIME_TYPE) then Fold(f.out, ix, tileMapping, Put(f.tilemaps, id, entry))
    else Fold(Put(f.out, id, entry), ix, tileMapping, f.tilemaps)
  }

  /** One step of the loser pass, for a key other than `"*"`. */
  function FoldEntry(f: Fold, key: string, e: Entry, defaultMime: Option<string>): (g: Fold)
    requires f.out.Valid() && f.tilemaps.Valid()
    ensures g.out.Valid() && g.tilemaps.Valid()
  {
    var v := ViewOf(e, defaultMime);
    if Registered(f.ix.values, ViewFingerprint(v)) then DropEntry(f, key, v) else KeepEntry(f, key, e, defaultMime)
  }

  /** The loser pass after the first `n` keys of the loser. */
  function FoldLoser(previous: Manifest, defaultMime: Option<string>, start: Fold, n: nat): (f: Fold)
    requires previous.Valid() && n <= |previous.keys|
    requires start.out.Valid() && start.tilemaps.Valid()
    ensures f.out.Valid() && f.tilemaps.Valid()
  {
    if n == 0 then start
    else
      var f := FoldLoser(previous, defaultMime, start, n - 1);
      var key := previous.keys[n - 1];
      if key == DEFAULTS_KEY then f else FoldEntry(f, key, previous.entries[key], defaultMime)
  }

  // ------------------------------------------------------------ pass 3

  /** `tileMapping[ref] || ref`. */
  function Lookup(mapping: map<string, string>, ref: string): string {
    if ref in mapping && mapping[ref] != "" then mapping[ref] else ref
  }

  /** `tileset.map(id => tileMapping[id] || id)`. */
  function RemapTileset(tileset: seq<string>, mapping: map<string, string>): (r: seq<string>)
    ensures |r| == |tileset|
  {
    seq(|tileset|, i requires 0 <= i < |tileset| => Lookup(mapping, tileset[i]))
  }

  /** Each reference of a remapped tileset is the reference in the same
      place, mapped. */
  lemma RemapTilesetAt(tileset: seq<string>, mapping: map<string, string>, i: nat)
    requires i < |tileset|
    ensures RemapTileset(tileset, mapping)[i] == Lookup(mapping, tileset[i])
  {
  }

  /** `entry.tileset = entry.tileset?.map(...)`. */
  function WithRemappedTileset(e: Entry, mapping: map<string, string>): Entry {
    if e.Asset? && e.tileset.Some? then e.(tileset := Some(RemapTileset(e.tileset.value, mapping))) else e
  }

  /** The catalog after the first `n` held-back tilemaps are written. */
  function FixTilemaps(out: Manifest, tilemaps: Manifest, mapping: map<string, string>, n: nat): (r: Manifest)
    requires out.Valid() && tilemaps.Valid() && n <= |tilemaps.keys|
    ensures r.Valid()
  {
    if n == 0 then out
    else
      var key := tilemaps.keys[n - 1];
      Put(FixTilemaps(out, tilemaps, mapping, n - 1), key, WithRemappedTileset(tilemaps.entries[key], mapping))
  }

  // ------------------------------------------------------------ the merge

  /** The winner has a `"*"` entry to read the default MIME type of. */
  predicate HasDefaults(next: Manifest) {
    DEFAULTS_KEY in next.entries
  }

  /** `(nextParsed["*"] as pxt.JRes).mimeType`: a plain string has no
      `mimeType`, so it gives `undefined`, as an object without one does. */
  function DefaultMime(next: Manifest): Option<string>
    requires HasDefaults(next)
  {
    match next.entries[DEFAULTS_KEY]
    case Plain(_) => None
    case Asset(_, _, m, _, _, _, _) => m
  }

  /** The state the loser pass starts from: the winner, fully indexed. */
  function Start(next: Manifest): Fold
    requires next.Valid() && HasDefaults(next)
  {
    Fold(next, IndexWinner(next, DefaultMime(next), |next.keys|), map[], EmptyManifest)
  }

  /** The state after the loser pass. */
  function Folded(previous: Manifest, next: Manifest): (f: Fold)
    requires previous.Valid() && next.Valid() && HasDefaults(next)
    ensures f.out.Valid() && f.tilemaps.Valid()
  {
    FoldLoser(previous, DefaultMime(next), Start(next), |previous.keys|)
  }

  /** Both catalogs present: the three passes. */
  function MergeBoth(previous: Manifest, next: Manifest): (r: Manifest)
    requires previous.Valid() && next.Valid() && HasDefaults(next)
    ensures r.Valid()
  {
    var f := Folded(previous, next);
    FixTilemaps(f.out, f.tilemaps, f.tileMapping, |f.tilemaps.keys|)
  }

  /** `mergeJRES(previous, next)`, with `None` for an absent or empty
      catalog text. */
  function Merge(previous: Option<Manifest>, next: Option<Manifest>): (r: Result<Option<Manifest>, MergeError>)
    requires previous.Some? ==> previous.value.Valid()
    requires next.Some? ==> next.value.Valid()
  {
    if previous.None? then Success(next)
    else if next.None? then Success(previous)
    else if !HasDefaults(next.value) then Failure(MissingDefaults)
    else Success(Some(MergeBoth(previous.value, next.value)))
  }

  // ------------------------------------------------------------ the method

  /** `let index = 0; while (occupied[base + index]) index++;` */
  method LeastFreeSuffix(base: string, occupied: set<string>) returns (index: nat)
    ensures index == FirstFree(base, occupied, 0)
  {
    index := 0;
    while base + NatStr(index) in occupied
      invariant Taken(base, occupied, index)
      decreases |occupied| - index
    {
      TakenBound(base, occupied, index + 1);
      index := index + 1;
    }
    FirstFreeUnique(base, occupied, index);
  }

  /** A display name that is taken gets the least free suffix and is then
      marked taken; any other name is returned as it is. */
  method ReserveName(name: Option<string>, nameMap: set<string>) returns (displayName: Option<string>, names: set<string>)
    ensures displayName == UniqueName(name, nameMap)
    ensures names == NamesAfter(name, nameMap)
  {
    displayName, names := name, nameMap;
    if Truthy(displayName) && displayName.value in names {
      var index := LeastFreeSuffix(displayName.value, names);
      displayName := Some(displayName.value + NatStr(index));
      names := names + {displayName.value};
    }
  }

  /** A key that is taken gets the least free suffix, which is then marked
      taken; `renamed` says whether that happened. */
  method ReserveId(key: string, idMap: set<string>) returns (id: string, ids: set<string>, renamed: bool)
    ensures id == UniqueId(key, idMap)
    ensures ids == IdsAfter(key, idMap)
    ensures renamed == (key in idMap)
  {
    id, ids, renamed := key, idMap, false;
    if id in ids {
      var index := LeastFreeSuffix(id, ids);
      id := id + NatStr(index);
      ids := ids + {id};
      renamed := true;
    }
  }

  /** One iteration of the loser loop, for a key other than `"*"`: read
      the entry, and drop it if its content is already present. */
  method CarryEntry(f: Fold, key: string, current: Entry, defaultMime: Option<string>) returns (g: Fold)
    requires f.out.Valid() && f.tilemaps.Valid()
    ensures g == FoldEntry(f, key, current, defaultMime)
  {
    var valueString: Option<string>;
    var displayName: Option<string> := None;
    var mimeType := defaultMime;
    var isTile := false;
    match current {
      case Plain(t) =>
        valueString := Some(t);
      case Asset(d, dn, m, tt, _, _, _) =>
        valueString := d;
        displayName := dn;
        mimeType := m;
        isTile := tt == Some(true);
    }
    var v := View(valueString, displayName, mimeType, isTile);
    assert v == ViewOf(current, defaultMime);

    // Skip duplicate images, tiles and animations.
    var valueKey := Fingerprint(mimeType, isTile, valueString);
    var valueMap := f.ix.values;
    if valueKey in valueMap && valueMap[valueKey] != "" {
      var tileMapping := f.tileMapping;
      if isTile {
        tileMapping := tileMapping[TileRef(key) := TileRef(valueMap[valueKey])];
      }
      g := f.(tileMapping := tileMapping);
      return;
    }
    g := KeepLoserEntry(f, key, current, defaultMime, v);
  }

  /** The rest of the iteration, for an entry that is kept: name it,
      make its name and id unique, register its fingerprint and write it. */
  method KeepLoserEntry(f: Fold, key: string, current: Entry, defaultMime: Option<string>, v: View) returns (g: Fold)
    requires f.out.Valid() && f.tilemaps.Valid()
    requires v == ViewOf(current, defaultMime)
    ensures g == KeepEntry(f, key, current, defaultMime)
  {
    var nextParsed, tileMapping, tilemapEntries := f.out, f.tileMapping, f.tilemaps;
    var valueMap, nameMap, idMap := f.ix.values, f.ix.names, f.ix.ids;
    var valueString, displayName, mimeType, isTile := v.data, v.displayName, v.mimeType, v.isTile;

    // Give unnamed assets a name, so that they stay visible.
    if !Truthy(displayName) {
      if mimeType == Some(IMAGE_MIME_TYPE) {
        displayName := Some(if isTile then TILE_NAMESPACE + "." + TILE_PREFIX else IMAGES_NAMESPACE + "." + IMAGE_PREFIX);
      } else if mimeType == Some(TILEMAP_MIME_TYPE) {
        displayName := Some("tilemap");
      } else if mimeType == Some(ANIMATION_MIME_TYPE) {
        displayName := Some(ANIMATION_NAMESPACE + "." + ANIMATION_PREFIX);
      }
    }
    assert displayName == NameToUse(v);

    // Display names need to be unique.
    displayName, nameMap := ReserveName(displayName, nameMap);

    // Ids need to be unique too.
    var id, renamed;
    id, idMap, renamed := ReserveId(key, idMap);
    if renamed && isTile {
      tileMapping := tileMapping[TileRef(key) := TileRef(id)];
    }

    if mimeType != Some(TILEMAP_MIME_TYPE) {
      valueMap := valueMap[Fingerprint(mimeType, isTile, valueString) := key];
    }
    assert Index(idMap, nameMap, valueMap) == KeptIndex(f.ix, key, v);
    assert tileMapping == KeptTileMapping(f, key, v);

    var entry := match current
      case Plain(_) => Asset(valueString, displayName, mimeType, None, None, None, map[])
      case Asset(_, _, _, _, _, _, _) => current.(data := valueString, displayName := displayName, mimeType := mimeType);
    // Only tilemap entries carry an id; other kinds are named by key.
    if Truthy(entry.id) {
      entry := entry.(id := Some(id));
    }
    assert entry == Carried(current, defaultMime, displayName, id);

    if mimeType == Some(TILEMAP_MIME_TYPE) {
      tilemapEntries := Put(tilemapEntries, id, entry);
    } else {
      nextParsed := Put(nextParsed, id, entry);
    }
    g := Fold(nextParsed, Index(idMap, nameMap, valueMap), tileMapping, tilemapEntries);
  }

  /** The loser pass: every loser entry is dropped as a duplicate or
      carried into `nextParsed` (tilemaps into `tilemapEntries`). */
  method FoldLoserEntries(previousParsed: Manifest, defaultMime: Option<string>, start: Fold) returns (f: Fold)
    requires previousParsed.Valid() && start.out.Valid() && start.tilemaps.Valid()
    ensures f == FoldLoser(previousParsed, defaultMime, start, |previousParsed.keys|)
  {
    f := start;
    for i := 0 to |previousParsed.keys|
      invariant f == FoldLoser(previousParsed, defaultMime, start, i)
    {
      var key := previousParsed.keys[i];
      if key == DEFAULTS_KEY {
        continue;
      }
      f := CarryEntry(f, key, previousParsed.entries[key], defaultMime);
    }
  }

  /** The first loop: record the ids, display names and fingerprints the
      winner already has in `idMap`, `nameMap` and `valueMap`. */
  method IndexWinnerEntries(nextParsed: Manifest, defaultMime: Option<string>)
    returns (valueMap: map<string, string>, nameMap: set<string>, idMap: set<string>)
    requires nextParsed.Valid()
    ensures Index(idMap, nameMap, valueMap) == IndexWinner(nextParsed, defaultMime, |nextParsed.keys|)
  {
    valueMap, nameMap, idMap := map[], {}, {};
    for i := 0 to |nextParsed.keys|
      invariant Index(idMap, nameMap, valueMap) == IndexWinner(nextParsed, defaultMime, i)
    {
      var key := nextParsed.keys[i];
      if key == DEFAULTS_KEY {
        continue;
      }
      var current := nextParsed.entries[key];
      idMap := idMap + {key};
      var valueString: Option<string>;
      var mimeType := defaultMime;
      var isTile := false;
      match current {
        case Plain(t) =>
          valueString := Some(t);
        case Asset(d, dn, m, tt, _, _, _) =>
          valueString := d;
          mimeType := m;
          isTile := tt == Some(true);
          if Truthy(dn) {
            nameMap := nameMap + {dn.value};
          }
      }
      if mimeType != Some(TILEMAP_MIME_TYPE) {
        var valueKey := Fingerprint(mimeType, isTile, valueString);
        valueMap := valueMap[valueKey := key];
      }
    }
  }

  /** The last loop: write every held-back tilemap into `nextParsed`, its
      tileset pointed through `tileMapping`. */
  method WriteTilemaps(out: Manifest, tilemapEntries: Manifest, tileMapping: map<string, string>)
    returns (nextParsed: Manifest)
    requires out.Valid() && tilemapEntries.Valid()
    ensures nextParsed == FixTilemaps(out, tilemapEntries, tileMapping, |tilemapEntries.keys|)
  {
    nextParsed := out;
    for j := 0 to |tilemapEntries.keys|
      invariant nextParsed.Valid()
      invariant nextParsed == FixTilemaps(out, tilemapEntries, tileMapping, j)
    {
      var key := tilemapEntries.keys[j];
      var entry := tilemapEntries.entries[key];
      if entry.Asset? && entry.tileset.Some? {
        entry := entry.(tileset := Some(RemapTileset(entry.tileset.value, tileMapping)));
      }
      nextParsed := Put(nextParsed, key, entry);
    }
  }

  /** The source's algorithm: three loops over the keys, with the
      dictionaries `valueMap`, `nameMap`, `idMap`, `tileMapping` and
      `tilemapEntries` updated in place and `nextParsed` extended as it
      goes. */
  method MergeJRES(previous: Option<Manifest>, next: Option<Manifest>) returns (r: Result<Option<Manifest>, MergeError>)
    requires previous.Some? ==> previous.value.Valid()
    requires next.Some? ==> next.value.Valid()
    ensures r == Merge(previous, next)
  {
    if previous.None? {
      return Success(next);
    }
    if next.None? {
      return Success(previous);
    }
    var previousParsed := previous.value;
    var nextParsed := next.value;
    if DEFAULTS_KEY !in nextParsed.entries {
      return Failure(MissingDefaults);
    }
    var defaultMime := match nextParsed.entries[DEFAULTS_KEY]
      case Plain(_) => None
      case Asset(_, _, m, _, _, _, _) => m;

    var valueMap, nameMap, idMap := IndexWinnerEntries(nextParsed, defaultMime);
    var tileMapping: map<string, string> := map[];
    var tilemapEntries := EmptyManifest;

    var folded := FoldLoserEntries(previousParsed, defaultMime,
                                   Fold(nextParsed, Index(idMap, nameMap, valueMap), tileMapping, tilemapEntries));
    tileMapping, tilemapEntries := folded.tileMapping, folded.tilemaps;

    nextParsed := WriteTilemaps(folded.out, tilemapEntries, tileMapping);
    return Success(Some(nextParsed));
  }
}
