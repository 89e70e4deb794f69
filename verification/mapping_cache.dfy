/** The on-disk cache of column mappings: one directory per source under the
    mappings root, one `<key>_mapping.json` file per column set, where the key
    is the md5 of the sorted column names joined by commas. md5 is modelled by
    its preimage, which makes it injective. */
module MappingCache {
  import opened Wrappers
  import opened Text
  import opened StringOrder

  /** `hashlib.md5(text.encode()).hexdigest()`, kept as the hashed text. */
  datatype Digest = Digest(preimage: string)

  /** The cache key of a column set: `md5(",".join(sorted(columns)))`. */
  function ColumnKey(columns: seq<string>): (r: Digest)
    ensures |columns| == 0 ==> r == Digest("")
    ensures |columns| == 1 ==> r == Digest(columns[0])
  {
    assert |columns| == 1 ==> Sort(columns) == Insert(columns[0], Sort([]));
    Digest(Join(Sort(columns), ','))
  }

  /** The key is the hash of the comma-joined columns in any sorted
      arrangement: `sorted` is the only ordering it depends on. */
  lemma ColumnKeySorted(columns: seq<string>, s: seq<string>)
    requires Sorted(s) && multiset(s) == multiset(columns)
    ensures ColumnKey(columns) == Digest(Join(s, ','))
  {
    SortSpec(columns);
    SortedUnique(s, Sort(columns));
  }

  /** A mapping file: readable with its `mapping` field, or unusable (invalid
      JSON, no `mapping` key, or a `null` mapping). */
  datatype CacheEntry = Readable(mapping: map<string, string>) | Unusable

  /** The mappings root: the source directories that exist, and their files. */
  type Store = map<string, map<Digest, CacheEntry>>

  /** `check_if_mapping_exists`: the source directory and the key's file exist. */
  function MappingExists(store: Store, source: string, columns: seq<string>): (r: bool)
    ensures forall other {:trigger ColumnKey(other)} :: multiset(other) == multiset(columns) ==>
              (r <==> source in store && ColumnKey(other) in store[source])
  {
    ColumnKeyOrderFree(columns);
    source in store && ColumnKey(columns) in store[source]
  }

  lemma ColumnKeyOrderFree(columns: seq<string>)
    ensures forall other :: multiset(other) == multiset(columns) ==> ColumnKey(other) == ColumnKey(columns)
  {
    forall other | multiset(other) == multiset(columns)
      ensures ColumnKey(other) == ColumnKey(columns)
    {
      ColumnKeyPermutation(other, columns);
    }
  }

  /** `_get_cached_mapping`: the stored mapping when the file exists and reads. */
  function CachedMapping(store: Store, source: string, columns: seq<string>): (r: Option<map<string, string>>)
    ensures r.Some? ==> MappingExists(store, source, columns)
    ensures r.Some? <==> MappingExists(store, source, columns) && store[source][ColumnKey(columns)].Readable?
  {
    if MappingExists(store, source, columns) && store[source][ColumnKey(columns)].Readable? then
      Some(store[source][ColumnKey(columns)].mapping)
    else None
  }

  /** `save_mapping` as written: create the source directory if needed and
      open the key's file for writing. The record handed to `json.dump` holds
      `df.columns`, a pandas `Index`, which the encoder cannot serialise: with
      `indent` set it has already written `{`, the "source" entry and
      `"columns": ` when it raises `TypeError`. The file is left truncated and
      never reads back, whatever was in it before. */
  function Save(store: Store, source: string, columns: seq<string>, mapping: map<string, string>): (r: Store)
    ensures r.Keys == store.Keys + {source}
    ensures source in store ==> r[source].Keys == store[source].Keys + {ColumnKey(columns)}
  {
    var dir := if source in store then store[source] else map[];
    store[source := dir[ColumnKey(columns) := Unusable]]
  }

  /** `save_mapping` as intended, with the column names stored as a list: the
      file is complete and holds the mapping. */
  function SaveIntended(store: Store, source: string, columns: seq<string>, mapping: map<string, string>): (r: Store)
    ensures r.Keys == store.Keys + {source}
    ensures source in store ==> r[source].Keys == store[source].Keys + {ColumnKey(columns)}
  {
    var dir := if source in store then store[source] else map[];
    store[source := dir[ColumnKey(columns) := Readable(mapping)]]
  }

  /** The key ignores column order. */
  lemma ColumnKeyPermutation(a: seq<string>, b: seq<string>)
    requires multiset(a) == multiset(b)
    ensures ColumnKey(a) == ColumnKey(b)
  {
    SortPermutationInvariant(a, b);
  }

  lemma SortedHasNoComma(columns: seq<string>)
    requires forall i :: 0 <= i < |columns| ==> ',' !in columns[i]
    ensures |Sort(columns)| == |columns|
    ensures forall i :: 0 <= i < |Sort(columns)| ==> ',' !in Sort(columns)[i]
  {
    SortSpec(columns);
    var s := Sort(columns);
    assert |s| == |multiset(s)| == |multiset(columns)| == |columns|;
    forall i | 0 <= i < |s| ensures ',' !in s[i] {
      assert s[i] in multiset(columns);
      var j :| 0 <= j < |columns| && columns[j] == s[i];
    }
  }

  /** For non-empty column sets whose names hold no comma, equal keys mean
      the same columns (up to order). */
  lemma ColumnKeyInjective(a: seq<string>, b: seq<string>)
    requires |a| >= 1 && |b| >= 1
    requires forall i :: 0 <= i < |a| ==> ',' !in a[i]
    requires forall i :: 0 <= i < |b| ==> ',' !in b[i]
    requires ColumnKey(a) == ColumnKey(b)
    ensures multiset(a) == multiset(b)
  {
    SortedHasNoComma(a);
    SortedHasNoComma(b);
    SplitJoin(Sort(a), ',');
    SplitJoin(Sort(b), ',');
    SortSpec(a);
    SortSpec(b);
  }

  /** Without those conditions the key collides: a name holding a comma reads
      as two names, and the empty column set as one empty name. */
  lemma ColumnKeyCollisions()
    ensures ColumnKey(["a,b"]) == ColumnKey(["a", "b"])
    ensures ColumnKey([]) == ColumnKey([""])
  {
    assert LexLe("a", "b");
    assert Sort(["b"]) == ["b"];
    assert Sort(["a", "b"]) == ["a", "b"];
    assert Sort(["a,b"]) == ["a,b"];
    assert Join(["a", "b"], ',') == "a" + [','] + "b";
  }

  /** As written, a save leaves a file that `check_if_mapping_exists` sees
      under any ordering of the same columns, but that `_get_cached_mapping`
      cannot read: the mapping is never found again. */
  lemma SaveLeavesUnreadable(store: Store, source: string, columns: seq<string>, mapping: map<string, string>,
                             reordered: seq<string>)
    requires multiset(reordered) == multiset(columns)
    ensures MappingExists(Save(store, source, columns, mapping), source, reordered)
    ensures CachedMapping(Save(store, source, columns, mapping), source, reordered) == None
  {
    ColumnKeyPermutation(reordered, columns);
  }

  /** The intended save: the mapping is found again under any ordering of
      the same columns. */
  lemma SaveThenCached(store: Store, source: string, columns: seq<string>, mapping: map<string, string>,
                       reordered: seq<string>)
    requires multiset(reordered) == multiset(columns)
    ensures MappingExists(SaveIntended(store, source, columns, mapping), source, reordered)
    ensures CachedMapping(SaveIntended(store, source, columns, mapping), source, reordered) == Some(mapping)
  {
    ColumnKeyPermutation(reordered, columns);
  }

  /** Saving touches only the one file: every other lookup is as before. */
  lemma SaveKeepsOthers(store: Store, source: string, columns: seq<string>, mapping: map<string, string>,
                        source2: string, columns2: seq<string>)
    requires source2 != source || ColumnKey(columns2) != ColumnKey(columns)
    ensures MappingExists(store, source2, columns2) ==> MappingExists(Save(store, source, columns, mapping), source2, columns2)
    ensures source2 != source ==>
      (MappingExists(Save(store, source, columns, mapping), source2, columns2) <==> MappingExists(store, source2, columns2))
    ensures CachedMapping(Save(store, source, columns, mapping), source2, columns2) == CachedMapping(store, source2, columns2)
  {
  }
}
