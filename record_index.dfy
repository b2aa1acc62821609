/**
 * The record index: a dictionary from composite key to statistics record,
 * built by one pass over the loaded records (last write wins), and the
 * lookup that answers "absent" for a key nobody inserted.
 */
module RecordIndex {
  import opened Wrappers
  import opened FipsKey

  /** One row of the statistics file: a county, a year and its ratio metrics
      (fractions, not percentages). */
  datatype StatRecord = StatRecord(
    stcoFips10: Scalar,
    year: Scalar,
    voterTurnoutPct: real,
    regVoterTurnoutPct: real,
    regVotersPct: real,
    partisanIndexDem: real,
    partisanIndexRep: real)

  type Index = map<string, StatRecord>

  /** The key the builder inserts a record under: a record stored under it is
      found again by a lookup of its own identifier and year. */
  function RecordKey(r: StatRecord): (k: string)
    ensures GetNationalRecord(map[k := r], r.stcoFips10, r.year) == Some(r)
  {
    CompositeKey(r.stcoFips10, r.year)
  }

  /** The dictionary obtained by assigning `m[key(v)] := v` for each `v` of `vs`
      in order, starting from an empty one: a later value overwrites an earlier
      one with the same key. The key function is a parameter so that the facts
      below are proved once, independently of how keys are spelled. */
  function InsertAll<V>(vs: seq<V>, key: V -> string): (m: map<string, V>)
    ensures vs != [] ==> key(vs[|vs| - 1]) in m && m[key(vs[|vs| - 1])] == vs[|vs| - 1]
    ensures vs == [] ==> m == map[]
  {
    if vs == [] then map[]
    else InsertAll(vs[..|vs| - 1], key)[key(vs[|vs| - 1]) := vs[|vs| - 1]]
  }

  /** The index `buildDataIndex` fills: every record under its own key, in load order. */
  function IndexOf(rs: seq<StatRecord>): (m: Index)
    ensures rs != [] ==> RecordKey(rs[|rs| - 1]) in m && m[RecordKey(rs[|rs| - 1])] == rs[|rs| - 1]
    ensures rs == [] ==> m == map[]
  {
    InsertAll(rs, RecordKey)
  }

  /** Loading one more record inserts it under its key into the index built so far. */
  lemma IndexOfAppend(rs: seq<StatRecord>, r: StatRecord)
    ensures IndexOf(rs + [r]) == IndexOf(rs)[RecordKey(r) := r]
  {
    assert (rs + [r])[..|rs|] == rs;
  }

  /** `vs[i]` is the last value of `vs` whose key is `k`. */
  predicate IsLastWithKey<V>(vs: seq<V>, key: V -> string, k: string, i: int)
  {
    && 0 <= i < |vs|
    && key(vs[i]) == k
    && forall j :: i < j < |vs| ==> key(vs[j]) != k
  }

  /** A lookup of the index; a missing key is an ordinary absent result. */
  function GetNationalRecord(index: Index, fips: Scalar, year: Scalar): (r: Option<StatRecord>)
    ensures r.Some? <==> CompositeKey(fips, year) in index
    ensures r.Some? ==> r.value == index[CompositeKey(fips, year)]
  {
    var key := CompositeKey(fips, year);
    if key in index then Some(index[key]) else None
  }

  /** The filled dictionary holds key `k` exactly when some value has that key. */
  lemma {:induction false} InsertAllHasKey<V>(vs: seq<V>, key: V -> string, k: string)
    ensures k in InsertAll(vs, key) <==> exists i :: 0 <= i < |vs| && key(vs[i]) == k
  {
    if vs != [] {
      var n := |vs| - 1;
      var prefix := vs[..n];
      InsertAllHasKey(prefix, key, k);
      assert forall i :: 0 <= i < n ==> prefix[i] == vs[i];
      if key(vs[n]) != k && exists i :: 0 <= i < |vs| && key(vs[i]) == k {
        var i :| 0 <= i < |vs| && key(vs[i]) == k;
        assert key(prefix[i]) == k;
      }
    }
  }

  /** Under key `k` the filled dictionary holds the last value with that key. */
  lemma {:induction false} InsertAllLastWins<V>(vs: seq<V>, key: V -> string, k: string)
    requires k in InsertAll(vs, key)
    ensures exists i :: IsLastWithKey(vs, key, k, i) && InsertAll(vs, key)[k] == vs[i]
  {
    var n := |vs| - 1;
    var prefix := vs[..n];
    if key(vs[n]) == k {
      assert IsLastWithKey(vs, key, k, n);
    } else {
      InsertAllLastWins(prefix, key, k);
      var i :| IsLastWithKey(prefix, key, k, i) && InsertAll(prefix, key)[k] == prefix[i];
      assert IsLastWithKey(vs, key, k, i);
    }
  }

  /** The built index holds key `k` exactly when some record has that key. */
  lemma IndexOfHasKey(rs: seq<StatRecord>, k: string)
    ensures k in IndexOf(rs) <==> exists i :: 0 <= i < |rs| && RecordKey(rs[i]) == k
  {
    InsertAllHasKey(rs, RecordKey, k);
  }

  /** Under key `k` the built index holds the last record with that key. */
  lemma IndexOfLastWins(rs: seq<StatRecord>, k: string)
    requires k in IndexOf(rs)
    ensures exists i :: IsLastWithKey(rs, RecordKey, k, i) && IndexOf(rs)[k] == rs[i]
  {
    InsertAllLastWins(rs, RecordKey, k);
  }

  /** The set of keys in the built index is exactly the set of the records'
      keys: nothing else is left in it. */
  lemma IndexOfKeys(rs: seq<StatRecord>)
    ensures IndexOf(rs).Keys == set i | 0 <= i < |rs| :: RecordKey(rs[i])
  {
    forall k | k in IndexOf(rs) || k in (set i | 0 <= i < |rs| :: RecordKey(rs[i]))
      ensures k in IndexOf(rs) <==> k in (set i | 0 <= i < |rs| :: RecordKey(rs[i]))
    {
      IndexOfHasKey(rs, k);
    }
  }

  /** Lookup after build: absent exactly when no record has the key, otherwise
      the last record in load order that has it. */
  lemma LookupAfterBuild(rs: seq<StatRecord>, fips: Scalar, year: Scalar)
    ensures GetNationalRecord(IndexOf(rs), fips, year).None?
        <==> forall i :: 0 <= i < |rs| ==> RecordKey(rs[i]) != CompositeKey(fips, year)
    ensures GetNationalRecord(IndexOf(rs), fips, year).Some? ==>
        exists i :: IsLastWithKey(rs, RecordKey, CompositeKey(fips, year), i)
                 && GetNationalRecord(IndexOf(rs), fips, year).value == rs[i]
  {
    IndexOfHasKey(rs, CompositeKey(fips, year));
    if CompositeKey(fips, year) in IndexOf(rs) {
      IndexOfLastWins(rs, CompositeKey(fips, year));
    }
  }

  /** An index built from no records answers every lookup with absent. */
  lemma LookupInEmptyIndex(fips: Scalar, year: Scalar)
    ensures GetNationalRecord(IndexOf([]), fips, year) == None
  {
  }

  /** Builder and lookup agree: every loaded record is found again by its own
      identifier and year, as that record or a later one with the same key. */
  lemma {:induction false} EveryRecordRetrievable(rs: seq<StatRecord>, i: int)
    requires 0 <= i < |rs|
    ensures GetNationalRecord(IndexOf(rs), rs[i].stcoFips10, rs[i].year).Some?
    ensures exists j :: i <= j < |rs|
                     && GetNationalRecord(IndexOf(rs), rs[i].stcoFips10, rs[i].year) == Some(rs[j])
                     && RecordKey(rs[j]) == RecordKey(rs[i])
  {
    IndexOfHasKey(rs, RecordKey(rs[i]));
    IndexOfLastWins(rs, RecordKey(rs[i]));
    var j :| IsLastWithKey(rs, RecordKey, RecordKey(rs[i]), j) && IndexOf(rs)[RecordKey(rs[i])] == rs[j];
    assert i <= j;
  }

  /** With no duplicate keys among the records, each record is found as itself. */
  lemma LookupUniqueKeys(rs: seq<StatRecord>, i: int)
    requires forall p, q :: 0 <= p < q < |rs| ==> RecordKey(rs[p]) != RecordKey(rs[q])
    requires 0 <= i < |rs|
    ensures GetNationalRecord(IndexOf(rs), rs[i].stcoFips10, rs[i].year) == Some(rs[i])
  {
    EveryRecordRetrievable(rs, i);
  }
}
