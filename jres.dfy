/** The decoded JRES resource catalog ("manifest") of a project: an ordered
    map from key to entry, as `JSON.parse` returns it. The reserved key
    `"*"` holds the catalog's defaults (its `mimeType` is the default MIME
    type of plain entries). */
module Jres {
  import opened Wrappers

  // pxt's constants. They are defined outside the modelled files; the
  // values are pxt's, and the merge only relies on them being distinct.
  const IMAGE_MIME_TYPE: string := "image/x-mkcd-f4"
  const TILEMAP_MIME_TYPE: string := "application/mkcd-tilemap"
  const ANIMATION_MIME_TYPE: string := "application/mkcd-animation"
  const TILE_NAMESPACE: string := "myTiles"
  const TILE_PREFIX: string := "tile"
  const IMAGES_NAMESPACE: string := "myImages"
  const IMAGE_PREFIX: string := "image"
  const ANIMATION_NAMESPACE: string := "myAnimations"
  const ANIMATION_PREFIX: string := "anim"

  /** The key of the defaults entry. */
  const DEFAULTS_KEY: string := "*"

  /** One catalog value: either a bare data string, or an object with the
      fields the merge reads. Every further field of the object is kept in
      `others` (field name to its JSON text) and passed through untouched.
      An absent field is `None`: JSON has no `undefined`, so a field that
      is absent and a field that the merge sets to `undefined` read and
      serialize alike. */
  datatype Entry =
    | Plain(text: string)
    | Asset(data: Option<string>, displayName: Option<string>, mimeType: Option<string>,
            tilemapTile: Option<bool>, tileset: Option<seq<string>>,
            id: Option<string>, others: map<string, string>)

  /** A JSON object: its keys in insertion order, and their values. */
  datatype Manifest = Manifest(keys: seq<string>, entries: map<string, Entry>) {
    predicate Valid() {
      && (forall i, j {:trigger KeyAt(keys, i), KeyAt(keys, j)} :: 0 <= i < j < |keys| ==> KeyAt(keys, i) != KeyAt(keys, j))
      && (forall k {:trigger entries[k]} :: k in entries ==> k in keys)
      && (forall i :: 0 <= i < |keys| ==> keys[i] in entries)
    }
  }

  /** The key in place `i` of a key order. `Valid` compares keys through
      it, so that its no-duplicates clause is only used where a proof
      names two places (`KeyOnce`). */
  function KeyAt(keys: seq<string>, i: nat): string
    requires i < |keys|
  {
    keys[i]
  }

  /** In a valid catalog, a key in place `i` occurs in no later place. */
  lemma KeyOnce(m: Manifest, i: nat)
    requires m.Valid() && i < |m.keys|
    ensures forall j :: i < j < |m.keys| ==> m.keys[j] != m.keys[i]
  {
    forall j | i < j < |m.keys|
      ensures m.keys[j] != m.keys[i]
    {
      assert KeyAt(m.keys, i) != KeyAt(m.keys, j);
    }
  }

  /** Writing a new key appends it and keeps the catalog valid. */
  lemma PutNewValid(m: Manifest, k: string, e: Entry)
    requires m.Valid() && k !in m.entries
    ensures Manifest(m.keys + [k], m.entries[k := e]).Valid()
  {
    var keys := m.keys + [k];
    forall i, j | 0 <= i < j < |keys|
      ensures KeyAt(keys, i) != KeyAt(keys, j)
    {
      if j < |m.keys| {
        assert KeyAt(m.keys, i) != KeyAt(m.keys, j);
      } else {
        assert m.keys[i] in m.entries;
      }
    }
  }

  /** A value as JavaScript renders it when it is appended to a string: an
      absent field reads as `undefined`. (Appended to `undefined` itself,
      a value is added as a number instead; `JresMerge.Fingerprint` takes
      care of that case.) */
  function Rendered(o: Option<string>): string {
    match o
    case None => "undefined"
    case Some(s) => s
  }

  const EmptyManifest: Manifest := Manifest([], map[])

  /** `object[k] = e`: a new key goes to the end of the key order, an
      existing key keeps its place and gets the new value. */
  function Put(m: Manifest, k: string, e: Entry): (r: Manifest)
    requires m.Valid()
    ensures r.Valid()
    ensures r.entries == m.entries[k := e]
    ensures r.keys == if k in m.entries then m.keys else m.keys + [k]
  {
    if k in m.entries then Manifest(m.keys, m.entries[k := e])
    else
      PutNewValid(m, k, e);
      Manifest(m.keys + [k], m.entries[k := e])
  }
}
