/**
  The JSON files of the bot (`loadData` and `saveData` in inventory.js), as a map
  from file to record: a record is itself a map, and a file that does not exist
  is simply a key that is not in the map.
 */
module FileStore {

  /** `loadData`: a missing file reads as the empty record. */
  function Load<K, X, V>(files: map<K, map<X, V>>, k: K): (r: map<X, V>)
    ensures k in files ==> r == files[k]
    ensures k !in files ==> r == map[]
  {
    if k in files then files[k] else map[]
  }

  /**
    `saveData`: a non-empty record is written, an empty one is not written and
    any earlier file for it is removed; no other file changes. Whatever was
    saved is what a later load reads, the empty record included.
   */
  function Save<K, X, V>(files: map<K, map<X, V>>, k: K, data: map<X, V>): (r: map<K, map<X, V>>)
    ensures k in r <==> data != map[]
    ensures Load(r, k) == data
    ensures r - {k} == files - {k}
    ensures NoEmptyRecords(files) ==> NoEmptyRecords(r)
  {
    if data == map[] then files - {k} else files[k := data]
  }

  /** The convention both functions keep: a file on disk never holds an empty record. */
  predicate NoEmptyRecords<K, X, V>(files: map<K, map<X, V>>)
  {
    forall k | k in files :: files[k] != map[]
  }

  /** Under that convention, saving back what was just loaded changes nothing. */
  lemma SaveLoaded<K, X, V>(files: map<K, map<X, V>>, k: K)
    requires NoEmptyRecords(files)
    ensures Save(files, k, Load(files, k)) == files
  {
  }

  /** A change confined to one file leaves every other file reading as before. */
  lemma LoadElsewhere<K, X, V>(files: map<K, map<X, V>>, r: map<K, map<X, V>>, k: K, d: K)
    requires r - {k} == files - {k} && d != k
    ensures Load(r, d) == Load(files, d)
  {
    assert d in r <==> d in r - {k};
    assert d in files <==> d in files - {k};
    if d in r {
      assert r[d] == (r - {k})[d];
    }
  }
}
