/** What the asset merge guarantees about its result, and where the
    guarantees one might expect of it do not hold. */
module JresMergeProps {
  import opened Wrappers
  import opened Text
  import opened Suffix
  import opened Jres
  import opened JresMerge

  /** An entry the merge added: an object, and, when it is an image, a
      tile, a tilemap or an animation, one with a non-empty display name
      (the editor drops assets without one). */
  predicate Named(e: Entry) {
    e.Asset? && (KnownKind(e.mimeType) ==> Truthy(e.displayName))
  }

  /** The winner's keys lead the key order, with their entries untouched. */
  ghost predicate KeepsWinner(next: Manifest, f: Fold) {
    && next.keys <= f.out.keys
    && (forall k :: k in next.entries ==> k in f.out.entries && f.out.entries[k] == next.entries[k])
  }

  /** Every winner key but `"*"` is an occupied id. */
  ghost predicate WinnerIdsTaken(next: Manifest, f: Fold) {
    forall k :: k in next.entries && k != DEFAULTS_KEY ==> k in f.ix.ids
  }

  /** The held-back tilemaps use no winner key, and every added entry,
      held back or not, is `Named`. */
  ghost predicate AddsNamed(next: Manifest, f: Fold) {
    && (forall k :: k in f.tilemaps.entries ==> k !in next.entries && Named(f.tilemaps.entries[k]))
    && (forall k :: k in f.out.entries && k !in next.entries ==> Named(f.out.entries[k]))
  }

  /** What the loser pass keeps true of its state, for winner `next`. */
  ghost predicate Extends(next: Manifest, f: Fold) {
    KeepsWinner(next, f) && WinnerIdsTaken(next, f) && AddsNamed(next, f)
  }

  /** Pass 1 marks every winner key except `"*"` as an occupied id. */
  lemma {:induction false} IndexWinnerIds(next: Manifest, defaultMime: Option<string>, n: nat)
    requires next.Valid() && n <= |next.keys|
    ensures forall i :: 0 <= i < n && next.keys[i] != DEFAULTS_KEY ==> next.keys[i] in IndexWinner(next, defaultMime, n).ids
  {
    if n > 0 {
      IndexWinnerIds(next, defaultMime, n - 1);
    }
  }

  /** The resolved id of a kept loser entry is never a winner key. */
  lemma KeptIdIsFresh(next: Manifest, f: Fold, key: string)
    requires key != DEFAULTS_KEY
    requires forall k :: k in next.entries && k != DEFAULTS_KEY ==> k in f.ix.ids
    ensures UniqueId(key, f.ix.ids) !in next.entries
  {
    var id := UniqueId(key, f.ix.ids);
    if key in f.ix.ids {
      var i := FirstFree(key, f.ix.ids, 0);
      SuffixedEndsInDigit(key, i);
      assert !IsDigit(DEFAULTS_KEY[|DEFAULTS_KEY| - 1]);
    }
  }

  /** The name a kept image, tile, tilemap or animation ends up with is
      non-empty. */
  lemma CarriedIsNamed(f: Fold, key: string, e: Entry, defaultMime: Option<string>)
    ensures Named(Carried(e, defaultMime, UniqueName(NameToUse(ViewOf(e, defaultMime)), f.ix.names), UniqueId(key, f.ix.ids)))
  {
    var v := ViewOf(e, defaultMime);
    var r := Carried(e, defaultMime, UniqueName(NameToUse(v), f.ix.names), UniqueId(key, f.ix.ids));
    assert r.mimeType == ViewOf(r, defaultMime).mimeType == v.mimeType;
  }

  /** One step of the loser pass keeps `Extends`. */
  lemma FoldEntryExtends(next: Manifest, f: Fold, key: string, e: Entry, defaultMime: Option<string>)
    requires f.out.Valid() && f.tilemaps.Valid()
    requires key != DEFAULTS_KEY
    ensures Extends(next, f) ==> Extends(next, FoldEntry(f, key, e, defaultMime))
  {
    if !Registered(f.ix.values, ViewFingerprint(ViewOf(e, defaultMime))) && Extends(next, f) {
      KeepEntryExtends(next, f, key, e, defaultMime);
    }
  }

  /** Writing a kept entry keeps `Extends`. */
  lemma KeepEntryExtends(next: Manifest, f: Fold, key: string, e: Entry, defaultMime: Option<string>)
    requires f.out.Valid() && f.tilemaps.Valid()
    requires key != DEFAULTS_KEY
    requires Extends(next, f)
    ensures Extends(next, KeepEntry(f, key, e, defaultMime))
  {
    KeptIdIsFresh(next, f, key);
    CarriedIsNamed(f, key, e, defaultMime);
  }

  /** The loser pass keeps `Extends`. */
  lemma {:induction false} FoldLoserExtends(previous: Manifest, next: Manifest, defaultMime: Option<string>, start: Fold, n: nat)
    requires previous.Valid() && n <= |previous.keys|
    requires start.out.Valid() && start.tilemaps.Valid()
    requires Extends(next, start)
    ensures Extends(next, FoldLoser(previous, defaultMime, start, n))
  {
    if n > 0 {
      FoldLoserExtends(previous, next, defaultMime, start, n - 1);
      FoldLoserStepExtends(previous, next, defaultMime, start, n);
    }
  }

  /** The step for the loser's `i`-th key keeps `Extends`. (Stated as an
      implication so that the induction does not check `Extends` again.) */
  lemma FoldLoserStepExtends(previous: Manifest, next: Manifest, defaultMime: Option<string>, start: Fold, n: nat)
    requires previous.Valid() && 0 < n <= |previous.keys|
    requires start.out.Valid() && start.tilemaps.Valid()
    ensures Extends(next, FoldLoser(previous, defaultMime, start, n - 1)) ==> Extends(next, FoldLoser(previous, defaultMime, start, n))
  {
    var key := previous.keys[n - 1];
    if key != DEFAULTS_KEY {
      FoldEntryExtends(next, FoldLoser(previous, defaultMime, start, n - 1), key, previous.entries[key], defaultMime);
    }
  }

  /** The held-back tilemaps among the first `n`, with their tilesets
      remapped. */
  ghost function RemappedUpTo(tilemaps: Manifest, mapping: map<string, string>, n: nat): map<string, Entry>
    requires tilemaps.Valid() && n <= |tilemaps.keys|
  {
    if n == 0 then map[]
    else
      var key := tilemaps.keys[n - 1];
      RemappedUpTo(tilemaps, mapping, n - 1)[key := WithRemappedTileset(tilemaps.entries[key], mapping)]
  }

  /** All held-back tilemaps, remapped: exactly their keys, each remapped. */
  lemma {:induction false} RemappedAll(tilemaps: Manifest, mapping: map<string, string>, n: nat)
    requires tilemaps.Valid() && n <= |tilemaps.keys|
    ensures forall k :: k in RemappedUpTo(tilemaps, mapping, n) ==> k in tilemaps.entries
    ensures forall i :: 0 <= i < n ==> tilemaps.keys[i] in RemappedUpTo(tilemaps, mapping, n)
    ensures forall k :: k in RemappedUpTo(tilemaps, mapping, n) ==>
      RemappedUpTo(tilemaps, mapping, n)[k] == WithRemappedTileset(tilemaps.entries[k], mapping)
  {
    if n > 0 {
      RemappedAll(tilemaps, mapping, n - 1);
    }
  }

  /** Pass 3 writes every held-back tilemap, with its tileset remapped,
      under its own key, and changes nothing else. */
  lemma {:induction false} FixTilemapsResult(out: Manifest, tilemaps: Manifest, mapping: map<string, string>, n: nat)
    requires out.Valid() && tilemaps.Valid() && n <= |tilemaps.keys|
    ensures FixTilemaps(out, tilemaps, mapping, n).entries == out.entries + RemappedUpTo(tilemaps, mapping, n)
  {
    if n > 0 {
      FixTilemapsResult(out, tilemaps, mapping, n - 1);
      FixTilemapsResultStep(out, tilemaps, mapping, n);
    }
  }

  /** The write of the `n`-th held-back tilemap extends the union by it. */
  lemma FixTilemapsResultStep(out: Manifest, tilemaps: Manifest, mapping: map<string, string>, n: nat)
    requires out.Valid() && tilemaps.Valid() && 0 < n <= |tilemaps.keys|
    requires FixTilemaps(out, tilemaps, mapping, n - 1).entries == out.entries + RemappedUpTo(tilemaps, mapping, n - 1)
    ensures FixTilemaps(out, tilemaps, mapping, n).entries == out.entries + RemappedUpTo(tilemaps, mapping, n)
  {
    var key := tilemaps.keys[n - 1];
    FixTilemapsStep(out, tilemaps, mapping, n);
    MapUnionStep(FixTilemaps(out, tilemaps, mapping, n - 1).entries, out.entries, RemappedUpTo(tilemaps, mapping, n - 1),
                 RemappedUpTo(tilemaps, mapping, n), key, WithRemappedTileset(tilemaps.entries[key], mapping));
  }

  /** Pass 3 keeps the keys already present, in their order, in front. */
  lemma {:induction false} FixTilemapsKeepsKeys(out: Manifest, tilemaps: Manifest, mapping: map<string, string>, n: nat)
    requires out.Valid() && tilemaps.Valid() && n <= |tilemaps.keys|
    ensures out.keys <= FixTilemaps(out, tilemaps, mapping, n).keys
  {
    if n > 0 {
      FixTilemapsKeepsKeys(out, tilemaps, mapping, n - 1);
      FixTilemapsStepKeepsKeys(out, tilemaps, mapping, n);
    }
  }

  /** One write of pass 3 keeps the keys already present in front. */
  lemma FixTilemapsStepKeepsKeys(out: Manifest, tilemaps: Manifest, mapping: map<string, string>, n: nat)
    requires out.Valid() && tilemaps.Valid() && 0 < n <= |tilemaps.keys|
    ensures out.keys <= FixTilemaps(out, tilemaps, mapping, n - 1).keys ==> out.keys <= FixTilemaps(out, tilemaps, mapping, n).keys
  {
    var key := tilemaps.keys[n - 1];
    var before := FixTilemaps(out, tilemaps, mapping, n - 1);
    if out.keys <= before.keys {
      PrefixOfWrite(out.keys, before.keys, key, key !in before.entries);
    }
  }

  /** A prefix of the key order stays one after a write, which appends a
      new key or leaves the order as it is. */
  lemma PrefixOfWrite(prefix: seq<string>, keys: seq<string>, k: string, isNew: bool)
    requires prefix <= keys
    ensures prefix <= if isNew then keys + [k] else keys
  {
  }

  /** One write of pass 3. */
  lemma FixTilemapsStep(out: Manifest, tilemaps: Manifest, mapping: map<string, string>, n: nat)
    requires out.Valid() && tilemaps.Valid() && 0 < n <= |tilemaps.keys|
    ensures var key := tilemaps.keys[n - 1];
      FixTilemaps(out, tilemaps, mapping, n).entries ==
        FixTilemaps(out, tilemaps, mapping, n - 1).entries[key := WithRemappedTileset(tilemaps.entries[key], mapping)]
  {
  }

  /** Writing `k` into a union is writing it into its right side. */
  lemma MapUnionStep<K, V>(x: map<K, V>, a: map<K, V>, b: map<K, V>, c: map<K, V>, k: K, v: V)
    requires x == a + b && c == b[k := v]
    ensures x[k := v] == a + c
  {
  }

  lemma PrefixTransitive<T>(a: seq<T>, b: seq<T>, c: seq<T>)
    requires a <= b && b <= c
    ensures a <= c
  {
    assert forall i :: 0 <= i < |a| ==> a[i] == b[i] == c[i];
  }

  /** Remapping a tileset changes neither the kind nor the display name. */
  lemma RemapKeepsNamed(e: Entry, mapping: map<string, string>)
    requires Named(e)
    ensures Named(WithRemappedTileset(e, mapping))
  {
  }

  /** After the loser pass the state `Extends` the winner. */
  lemma FoldedExtends(previous: Manifest, next: Manifest)
    requires previous.Valid() && next.Valid() && HasDefaults(next)
    ensures Extends(next, Folded(previous, next))
  {
    var dm := DefaultMime(next);
    IndexWinnerIds(next, dm, |next.keys|);
    assert Extends(next, Start(next));
    FoldLoserExtends(previous, next, dm, Start(next), |previous.keys|);
  }

  /** The merged catalog holds every winner entry, unchanged, with the
      winner's keys first in their order; every entry the merge added is
      an object, and a named one when it is an image, tile, tilemap or
      animation. */
  lemma MergeKeepsWinner(previous: Manifest, next: Manifest)
    requires previous.Valid() && next.Valid() && HasDefaults(next)
    ensures var r := MergeBoth(previous, next);
      && next.keys <= r.keys
      && (forall k :: k in next.entries ==> k in r.entries && r.entries[k] == next.entries[k])
      && (forall k :: k in r.entries && k !in next.entries ==> Named(r.entries[k]))
  {
    FoldedExtends(previous, next);
    MergeKeepsWinnerOrder(previous, next);
    MergeKeepsWinnerEntries(previous, next);
    MergeAddsNamed(previous, next);
  }

  lemma MergeKeepsWinnerOrder(previous: Manifest, next: Manifest)
    requires previous.Valid() && next.Valid() && HasDefaults(next)
    requires Extends(next, Folded(previous, next))
    ensures next.keys <= MergeBoth(previous, next).keys
  {
    var f := Folded(previous, next);
    FixTilemapsKeepsKeys(f.out, f.tilemaps, f.tileMapping, |f.tilemaps.keys|);
    PrefixTransitive(next.keys, f.out.keys, MergeBoth(previous, next).keys);
  }

  lemma MergeKeepsWinnerEntries(previous: Manifest, next: Manifest)
    requires previous.Valid() && next.Valid() && HasDefaults(next)
    requires Extends(next, Folded(previous, next))
    ensures var r := MergeBoth(previous, next);
      forall k :: k in next.entries ==> k in r.entries && r.entries[k] == next.entries[k]
  {
    var f := Folded(previous, next);
    FixTilemapsResult(f.out, f.tilemaps, f.tileMapping, |f.tilemaps.keys|);
    RemappedAll(f.tilemaps, f.tileMapping, |f.tilemaps.keys|);
  }

  lemma MergeAddsNamed(previous: Manifest, next: Manifest)
    requires previous.Valid() && next.Valid() && HasDefaults(next)
    requires Extends(next, Folded(previous, next))
    ensures var r := MergeBoth(previous, next);
      forall k :: k in r.entries && k !in next.entries ==> Named(r.entries[k])
  {
    var f := Folded(previous, next);
    var r := MergeBoth(previous, next);
    var added := RemappedUpTo(f.tilemaps, f.tileMapping, |f.tilemaps.keys|);
    FixTilemapsResult(f.out, f.tilemaps, f.tileMapping, |f.tilemaps.keys|);
    RemappedAll(f.tilemaps, f.tileMapping, |f.tilemaps.keys|);
    forall k | k in r.entries && k !in next.entries
      ensures Named(r.entries[k])
    {
      if k in added {
        RemapKeepsNamed(f.tilemaps.entries[k], f.tileMapping);
      } else {
        assert r.entries[k] == f.out.entries[k];
      }
    }
  }

  /** Every tilemap the loser pass held back ends up in the merged catalog
      under its resolved id, its tileset pointed through the final tile
      renames. */
  lemma MergeRemapsCarriedTilemaps(previous: Manifest, next: Manifest)
    requires previous.Valid() && next.Valid() && HasDefaults(next)
    ensures var f := Folded(previous, next);
      forall k :: k in f.tilemaps.entries ==>
        k in MergeBoth(previous, next).entries &&
        MergeBoth(previous, next).entries[k] == WithRemappedTileset(f.tilemaps.entries[k], f.tileMapping)
  {
    var f := Folded(previous, next);
    FixTilemapsResult(f.out, f.tilemaps, f.tileMapping, |f.tilemaps.keys|);
    RemappedAll(f.tilemaps, f.tileMapping, |f.tilemaps.keys|);
  }

  // ------------------------------------------------------------ what is added

  /** A loser entry that is not a duplicate is written, as `Carried` gives
      it, under its resolved id: into the held-back tilemaps when it is a
      tilemap, into the catalog otherwise. The id was not occupied before. */
  lemma KeptEntryWritten(f: Fold, key: string, e: Entry, defaultMime: Option<string>)
    requires f.out.Valid() && f.tilemaps.Valid()
    requires !Registered(f.ix.values, ViewFingerprint(ViewOf(e, defaultMime)))
    ensures var g := FoldEntry(f, key, e, defaultMime);
      var v := ViewOf(e, defaultMime);
      var id := UniqueId(key, f.ix.ids);
      var entry := Carried(e, defaultMime, UniqueName(NameToUse(v), f.ix.names), id);
      && id !in f.ix.ids
      && f.ix.ids <= g.ix.ids && (id in g.ix.ids <==> key in f.ix.ids)
      && (v.mimeType != Some(TILEMAP_MIME_TYPE) ==> g.ix.values == f.ix.values[ViewFingerprint(v) := key])
      && (v.mimeType == Some(TILEMAP_MIME_TYPE) ==>
            id in g.tilemaps.entries && g.tilemaps.entries[id] == entry && g.out == f.out)
      && (v.mimeType != Some(TILEMAP_MIME_TYPE) ==>
            id in g.out.entries && g.out.entries[id] == entry && g.tilemaps == f.tilemaps)
  {
  }

  /** The entry the loser's `j`-th key is written as, with the occupied
      names `names` and under the id `id`. */
  ghost function LoserCarried(previous: Manifest, defaultMime: Option<string>, j: nat, names: set<string>, id: string): Entry
    requires previous.Valid() && j < |previous.keys|
  {
    var e := previous.entries[previous.keys[j]];
    Carried(e, defaultMime, UniqueName(NameToUse(ViewOf(e, defaultMime)), names), id)
  }

  /** `e` is some loser entry (not `"*"`), carried under the id `id`. */
  ghost predicate CarriedLoserEntry(previous: Manifest, defaultMime: Option<string>, id: string, e: Entry)
    requires previous.Valid()
  {
    exists j: nat, names: set<string> ::
      j < |previous.keys| && previous.keys[j] != DEFAULTS_KEY && e == LoserCarried(previous, defaultMime, j, names, id)
  }

  predicate IsTilemap(e: Entry) {
    e.Asset? && e.mimeType == Some(TILEMAP_MIME_TYPE)
  }

  /** Every catalog entry that is not the winner's is a carried loser
      entry, written under its own id, and not a tilemap. */
  ghost predicate OutFromLoser(previous: Manifest, defaultMime: Option<string>, next: Manifest, out: Manifest)
    requires previous.Valid()
  {
    forall k :: k in out.entries && k !in next.entries ==>
      CarriedLoserEntry(previous, defaultMime, k, out.entries[k]) && !IsTilemap(out.entries[k])
  }

  /** Every held-back tilemap is a carried loser entry, written under its
      own id, and a tilemap. */
  ghost predicate TilemapsFromLoser(previous: Manifest, defaultMime: Option<string>, tilemaps: Manifest)
    requires previous.Valid()
  {
    forall k :: k in tilemaps.entries ==>
      CarriedLoserEntry(previous, defaultMime, k, tilemaps.entries[k]) && IsTilemap(tilemaps.entries[k])
  }

  /** Everything the loser pass wrote is a carried loser entry. */
  ghost predicate FromLoser(previous: Manifest, defaultMime: Option<string>, next: Manifest, f: Fold)
    requires previous.Valid()
  {
    OutFromLoser(previous, defaultMime, next, f.out) && TilemapsFromLoser(previous, defaultMime, f.tilemaps)
  }

  /** The entry a kept loser key is written as is a carried loser entry,
      and a tilemap exactly when the loser entry is one. */
  lemma KeptIsCarriedLoserEntry(previous: Manifest, defaultMime: Option<string>, f: Fold, j: nat)
    requires previous.Valid() && j < |previous.keys| && previous.keys[j] != DEFAULTS_KEY
    ensures var key := previous.keys[j];
      var e := previous.entries[key];
      var id := UniqueId(key, f.ix.ids);
      var entry := Carried(e, defaultMime, UniqueName(NameToUse(ViewOf(e, defaultMime)), f.ix.names), id);
      CarriedLoserEntry(previous, defaultMime, id, entry)
      && (IsTilemap(entry) <==> ViewOf(e, defaultMime).mimeType == Some(TILEMAP_MIME_TYPE))
  {
    var key := previous.keys[j];
    var e := previous.entries[key];
    var id := UniqueId(key, f.ix.ids);
    var entry := LoserCarried(previous, defaultMime, j, f.ix.names, id);
    assert entry.mimeType == ViewOf(entry, defaultMime).mimeType == ViewOf(e, defaultMime).mimeType;
  }

  /** Keeping the loser's `j`-th key keeps `FromLoser`. */
  lemma KeepEntryFromLoser(previous: Manifest, defaultMime: Option<string>, next: Manifest, f: Fold, j: nat)
    requires previous.Valid() && j < |previous.keys| && previous.keys[j] != DEFAULTS_KEY
    requires f.out.Valid() && f.tilemaps.Valid()
    requires !Registered(f.ix.values, ViewFingerprint(ViewOf(previous.entries[previous.keys[j]], defaultMime)))
    requires FromLoser(previous, defaultMime, next, f)
    ensures FromLoser(previous, defaultMime, next, KeepEntry(f, previous.keys[j], previous.entries[previous.keys[j]], defaultMime))
  {
    var key := previous.keys[j];
    var e := previous.entries[key];
    var g := KeepEntry(f, key, e, defaultMime);
    var id := UniqueId(key, f.ix.ids);
    var entry := Carried(e, defaultMime, UniqueName(NameToUse(ViewOf(e, defaultMime)), f.ix.names), id);
    KeptIsCarriedLoserEntry(previous, defaultMime, f, j);
    KeptEntryWritten(f, key, e, defaultMime);
    if IsTilemap(entry) {
      assert g.out == f.out;
      forall k | k in g.tilemaps.entries
        ensures CarriedLoserEntry(previous, defaultMime, k, g.tilemaps.entries[k]) && IsTilemap(g.tilemaps.entries[k])
      {
        if k != id {
          assert g.tilemaps.entries[k] == f.tilemaps.entries[k];
        }
      }
    } else {
      assert g.tilemaps == f.tilemaps;
      forall k | k in g.out.entries && k !in next.entries
        ensures CarriedLoserEntry(previous, defaultMime, k, g.out.entries[k]) && !IsTilemap(g.out.entries[k])
      {
        if k != id {
          assert g.out.entries[k] == f.out.entries[k];
        }
      }
    }
  }

  /** The step for the loser's `j`-th key keeps `FromLoser`. */
  lemma FoldEntryFromLoser(previous: Manifest, defaultMime: Option<string>, next: Manifest, f: Fold, j: nat)
    requires previous.Valid() && j < |previous.keys| && previous.keys[j] != DEFAULTS_KEY
    requires f.out.Valid() && f.tilemaps.Valid()
    ensures FromLoser(previous, defaultMime, next, f) ==>
            FromLoser(previous, defaultMime, next, FoldEntry(f, previous.keys[j], previous.entries[previous.keys[j]], defaultMime))
  {
    var key := previous.keys[j];
    var e := previous.entries[key];
    if !Registered(f.ix.values, ViewFingerprint(ViewOf(e, defaultMime))) && FromLoser(previous, defaultMime, next, f) {
      KeepEntryFromLoser(previous, defaultMime, next, f, j);
    }
  }

  /** The loser pass keeps `FromLoser`. */
  lemma {:induction false} FoldLoserFromLoser(previous: Manifest, defaultMime: Option<string>, next: Manifest, start: Fold, n: nat)
    requires previous.Valid() && n <= |previous.keys|
    requires start.out.Valid() && start.tilemaps.Valid()
    requires FromLoser(previous, defaultMime, next, start)
    ensures FromLoser(previous, defaultMime, next, FoldLoser(previous, defaultMime, start, n))
  {
    if n > 0 {
      FoldLoserFromLoser(previous, defaultMime, next, start, n - 1);
      FoldLoserStepFromLoser(previous, defaultMime, next, start, n);
    }
  }

  /** The step for the loser's `i`-th key, as a step of the loser pass,
      keeps `FromLoser`. (Stated as an implication so that the induction
      does not check `FromLoser` again.) */
  lemma FoldLoserStepFromLoser(previous: Manifest, defaultMime: Option<string>, next: Manifest, start: Fold, n: nat)
    requires previous.Valid() && 0 < n <= |previous.keys|
    requires start.out.Valid() && start.tilemaps.Valid()
    ensures FromLoser(previous, defaultMime, next, FoldLoser(previous, defaultMime, start, n - 1)) ==>
            FromLoser(previous, defaultMime, next, FoldLoser(previous, defaultMime, start, n))
  {
    var f := FoldLoser(previous, defaultMime, start, n - 1);
    var key := previous.keys[n - 1];
    if key != DEFAULTS_KEY {
      FoldEntryFromLoser(previous, defaultMime, next, f, n - 1);
    }
  }

  /** Every entry of the merged catalog that is not the winner's is a loser
      entry carried over under that key: as `Carried` writes it, and with
      its tileset pointed through the tile renames when it is a tilemap. */
  lemma MergeAddsCarried(previous: Manifest, next: Manifest)
    requires previous.Valid() && next.Valid() && HasDefaults(next)
    ensures var dm := DefaultMime(next);
      var f := Folded(previous, next);
      var r := MergeBoth(previous, next);
      forall k :: k in r.entries && k !in next.entries ==>
        exists c :: CarriedLoserEntry(previous, dm, k, c) &&
          r.entries[k] == if IsTilemap(c) then WithRemappedTileset(c, f.tileMapping) else c
  {
    forall k | k in MergeBoth(previous, next).entries && k !in next.entries {
      CarriedAt(previous, next, k);
    }
  }

  /** The entry `MergeAddsCarried` states, for one key `k`. */
  lemma CarriedAt(previous: Manifest, next: Manifest, k: string)
    requires previous.Valid() && next.Valid() && HasDefaults(next)
    requires k in MergeBoth(previous, next).entries && k !in next.entries
    ensures var f := Folded(previous, next);
      exists c :: CarriedLoserEntry(previous, DefaultMime(next), k, c) &&
        MergeBoth(previous, next).entries[k] == if IsTilemap(c) then WithRemappedTileset(c, f.tileMapping) else c
  {
    var dm := DefaultMime(next);
    var f := Folded(previous, next);
    var r := MergeBoth(previous, next);
    FoldLoserFromLoser(previous, dm, next, Start(next), |previous.keys|);
    var added := RemappedUpTo(f.tilemaps, f.tileMapping, |f.tilemaps.keys|);
    FixTilemapsResult(f.out, f.tilemaps, f.tileMapping, |f.tilemaps.keys|);
    RemappedAll(f.tilemaps, f.tileMapping, |f.tilemaps.keys|);
    if k in added {
      var c := f.tilemaps.entries[k];
      assert r.entries[k] == WithRemappedTileset(c, f.tileMapping);
      assert CarriedLoserEntry(previous, dm, k, c) && IsTilemap(c);
    } else {
      var c := f.out.entries[k];
      assert r.entries[k] == c;
      assert CarriedLoserEntry(previous, dm, k, c) && !IsTilemap(c);
    }
  }

  /** `id` is a key the loser pass has written, into the catalog or among
      the held-back tilemaps. */
  ghost predicate Written(id: string, f: Fold) {
    id in f.out.entries || id in f.tilemaps.entries
  }

  /** A key the loser pass wrote, into the catalog or among the held-back
      tilemaps, is a key of the merged catalog. */
  lemma MergeKeepsFoldedKeys(previous: Manifest, next: Manifest, id: string)
    requires previous.Valid() && next.Valid() && HasDefaults(next)
    requires Written(id, Folded(previous, next))
    ensures id in MergeBoth(previous, next).entries
  {
    var h := Folded(previous, next);
    FixTilemapsResult(h.out, h.tilemaps, h.tileMapping, |h.tilemaps.keys|);
    if id in h.tilemaps.entries {
      RemappedAll(h.tilemaps, h.tileMapping, |h.tilemaps.keys|);
    }
  }

  /** A loser entry that is not a duplicate when its turn comes is written
      by its step under its resolved id. */
  lemma KeptEntryStep(previous: Manifest, defaultMime: Option<string>, start: Fold, i: nat)
    requires previous.Valid() && i < |previous.keys| && previous.keys[i] != DEFAULTS_KEY
    requires start.out.Valid() && start.tilemaps.Valid()
    requires var f := FoldLoser(previous, defaultMime, start, i);
      !Registered(f.ix.values, ViewFingerprint(ViewOf(previous.entries[previous.keys[i]], defaultMime)))
    ensures Written(UniqueId(previous.keys[i], FoldLoser(previous, defaultMime, start, i).ix.ids),
                    FoldLoser(previous, defaultMime, start, i + 1))
  {
    var f := FoldLoser(previous, defaultMime, start, i);
    var key := previous.keys[i];
    KeptEntryWritten(f, key, previous.entries[key], defaultMime);
  }

  // ------------------------------------------------------------ no-op merges

  /** Every loser entry other than `"*"` duplicates content the winner
      registered in pass 1. */
  ghost predicate AllDuplicates(previous: Manifest, next: Manifest)
    requires previous.Valid() && next.Valid() && HasDefaults(next)
  {
    var ix := IndexWinner(next, DefaultMime(next), |next.keys|);
    forall k :: k in previous.entries && k != DEFAULTS_KEY ==>
      Registered(ix.values, ViewFingerprint(ViewOf(previous.entries[k], DefaultMime(next))))
  }

  /** While every loser entry is a duplicate, the loser pass only records
      tile renames: catalog, bookkeeping and held-back tilemaps stay as
      they started. */
  lemma {:induction false} FoldLoserDropsAll(previous: Manifest, defaultMime: Option<string>, start: Fold, n: nat)
    requires previous.Valid() && n <= |previous.keys|
    requires start.out.Valid() && start.tilemaps.Valid()
    requires forall k :: k in previous.entries && k != DEFAULTS_KEY ==>
      Registered(start.ix.values, ViewFingerprint(ViewOf(previous.entries[k], defaultMime)))
    ensures var f := FoldLoser(previous, defaultMime, start, n);
      f.out == start.out && f.ix == start.ix && f.tilemaps == start.tilemaps
  {
    if n > 0 {
      FoldLoserDropsAll(previous, defaultMime, start, n - 1);
      var key := previous.keys[n - 1];
      if key != DEFAULTS_KEY {
        DroppedEntryKeepsState(FoldLoser(previous, defaultMime, start, n - 1), key, previous.entries[key], defaultMime);
      }
    }
  }

  /** A duplicate leaves catalog, bookkeeping and held-back tilemaps alone. */
  lemma DroppedEntryKeepsState(f: Fold, key: string, e: Entry, defaultMime: Option<string>)
    requires f.out.Valid() && f.tilemaps.Valid()
    requires Registered(f.ix.values, ViewFingerprint(ViewOf(e, defaultMime)))
    ensures var g := FoldEntry(f, key, e, defaultMime);
      g.out == f.out && g.ix == f.ix && g.tilemaps == f.tilemaps
  {
  }

  /** A loser whose every entry the winner already has changes nothing:
      the merge returns the winner. */
  lemma MergeOfDuplicatesIsWinner(previous: Manifest, next: Manifest)
    requires previous.Valid() && next.Valid() && HasDefaults(next)
    requires AllDuplicates(previous, next)
    ensures Merge(Some(previous), Some(next)) == Success(Some(next))
  {
    FoldLoserDropsAll(previous, DefaultMime(next), Start(next), |previous.keys|);
  }

  /** In particular a loser holding nothing but its `"*"` defaults. */
  lemma MergeOfEmptyLoserIsWinner(previous: Manifest, next: Manifest)
    requires previous.Valid() && next.Valid() && HasDefaults(next)
    requires forall k :: k in previous.entries ==> k == DEFAULTS_KEY
    ensures Merge(Some(previous), Some(next)) == Success(Some(next))
  {
    MergeOfDuplicatesIsWinner(previous, next);
  }

  // ------------------------------------------------------------ tile renames

  /** Different keys have different tile references. */
  lemma TileRefInjective(a: string, b: string)
    ensures TileRef(a) == TileRef(b) ==> a == b
  {
    if TileRef(a) == TileRef(b) {
      var p := TILE_NAMESPACE + ".";
      assert TileRef(a) == p + a && TileRef(b) == p + b;
      assert a == (p + a)[|p|..];
    }
  }

  /** `a` and `b` agree on whether and to what `ref` is renamed. */
  predicate SameRename(a: map<string, string>, b: map<string, string>, ref: string) {
    (ref in a <==> ref in b) && (ref in a ==> a[ref] == b[ref])
  }

  /** A step for another key leaves the rename of `TileRef(key)` alone. */
  lemma FoldEntryKeepsRename(f: Fold, other: string, e: Entry, defaultMime: Option<string>, key: string)
    requires f.out.Valid() && f.tilemaps.Valid()
    requires other != key
    ensures SameRename(FoldEntry(f, other, e, defaultMime).tileMapping, f.tileMapping, TileRef(key))
  {
    TileRefInjective(key, other);
  }

  /** The rename of `TileRef(key)` recorded by the first `lo` loser steps
      is the one the tile mapping holds after `n` steps when no step in
      between is for `key`. */
  lemma {:induction false} RenameSurvives(previous: Manifest, defaultMime: Option<string>, start: Fold, key: string, lo: nat, n: nat)
    requires previous.Valid() && lo <= n <= |previous.keys|
    requires start.out.Valid() && start.tilemaps.Valid()
    requires forall j :: lo <= j < n ==> previous.keys[j] != key
    ensures SameRename(FoldLoser(previous, defaultMime, start, n).tileMapping,
                       FoldLoser(previous, defaultMime, start, lo).tileMapping, TileRef(key))
  {
    if n != lo {
      RenameSurvives(previous, defaultMime, start, key, lo, n - 1);
      RenameSurvivesStep(previous, defaultMime, start, key, lo, n);
    }
  }

  lemma RenameSurvivesStep(previous: Manifest, defaultMime: Option<string>, start: Fold, key: string, lo: nat, n: nat)
    requires previous.Valid() && lo < n <= |previous.keys|
    requires start.out.Valid() && start.tilemaps.Valid()
    requires previous.keys[n - 1] != key
    ensures SameRename(FoldLoser(previous, defaultMime, start, n - 1).tileMapping,
                       FoldLoser(previous, defaultMime, start, lo).tileMapping, TileRef(key)) ==>
            SameRename(FoldLoser(previous, defaultMime, start, n).tileMapping,
                       FoldLoser(previous, defaultMime, start, lo).tileMapping, TileRef(key))
  {
    StepKeepsRename(previous, defaultMime, start, n, key);
  }

  /** The loser step at position `n - 1` leaves the renames of every
      other key alone. */
  lemma StepKeepsRename(previous: Manifest, defaultMime: Option<string>, start: Fold, n: nat, key: string)
    requires previous.Valid() && 0 < n <= |previous.keys|
    requires start.out.Valid() && start.tilemaps.Valid()
    requires previous.keys[n - 1] != key
    ensures SameRename(FoldLoser(previous, defaultMime, start, n).tileMapping,
                       FoldLoser(previous, defaultMime, start, n - 1).tileMapping, TileRef(key))
  {
    var other := previous.keys[n - 1];
    if other != DEFAULTS_KEY {
      FoldEntryKeepsRename(FoldLoser(previous, defaultMime, start, n - 1), other, previous.entries[other], defaultMime, key);
    }
  }

  /** A loser tile that duplicates a registered fingerprint: every
      tilemap reference to it is redirected to the tile stored under the
      key the fingerprint is registered to. */
  lemma DuplicateTileRedirected(previous: Manifest, next: Manifest, i: nat)
    requires previous.Valid() && next.Valid() && HasDefaults(next) && i < |previous.keys|
    requires previous.keys[i] != DEFAULTS_KEY
    ensures var dm := DefaultMime(next);
      var f := FoldLoser(previous, dm, Start(next), i);
      var v := ViewOf(previous.entries[previous.keys[i]], dm);
      v.isTile && Registered(f.ix.values, ViewFingerprint(v)) ==>
        Lookup(Folded(previous, next).tileMapping, TileRef(previous.keys[i])) == TileRef(f.ix.values[ViewFingerprint(v)])
  {
    KeyOnce(previous, i);
    RenameSurvives(previous, DefaultMime(next), Start(next), previous.keys[i], i + 1, |previous.keys|);
  }

  /** A loser tile that is kept under a renamed id: every tilemap
      reference to it is redirected to the new id. */
  lemma RenamedTileRedirected(previous: Manifest, next: Manifest, i: nat)
    requires previous.Valid() && next.Valid() && HasDefaults(next) && i < |previous.keys|
    requires previous.keys[i] != DEFAULTS_KEY
    ensures var dm := DefaultMime(next);
      var f := FoldLoser(previous, dm, Start(next), i);
      var key := previous.keys[i];
      var v := ViewOf(previous.entries[key], dm);
      v.isTile && !Registered(f.ix.values, ViewFingerprint(v)) && key in f.ix.ids ==>
        Lookup(Folded(previous, next).tileMapping, TileRef(key)) == TileRef(UniqueId(key, f.ix.ids))
  {
    KeyOnce(previous, i);
    RenameSurvives(previous, DefaultMime(next), Start(next), previous.keys[i], i + 1, |previous.keys|);
  }
}
