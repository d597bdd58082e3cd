/** `Measurement.count_dict`: a Python dict from bucket key to the number of successful device
    reads seen in that bucket. Python dicts iterate in insertion order and `do_tests` relies on
    it to find the first and last bucket, so the order is kept explicitly beside the map. */
module Buckets {

  /** A dict `{key: count}` whose keys were inserted in the order `keys`. */
  datatype CountDict = CountDict(keys: seq<int>, counts: map<int, nat>) {

    /** The dict is consistent: every key listed once, the order lists exactly the map's keys,
        and every stored count is at least the 1 a key enters with. */
    ghost predicate Valid() {
      && Distinct(keys)
      && (forall k :: k in counts <==> k in keys)
      && (forall k :: k in counts ==> counts[k] >= 1)
    }

    /** `count_dict.get(k, 0)`. */
    function Count(k: int): nat {
      if k in counts then counts[k] else 0
    }

    /** The sum of all counts, `sum(count_dict.values())`. */
    function Total(): nat {
      SumCounts(keys, counts)
    }

    /** `if k in d: d[k] += 1 else: d[k] = 1`: the count of `k` grows by one, an unseen key is
        appended to the insertion order, every other entry stays as it was. */
    function Increment(k: int): (r: CountDict)
      requires Valid()
      ensures r.Valid()
      ensures r.Count(k) == Count(k) + 1
      ensures forall j :: j != k ==> r.Count(j) == Count(j)
      ensures k in counts ==> r.keys == keys
      ensures k !in counts ==> r.keys == keys + [k]
    {
      if k in counts then CountDict(keys, counts[k := counts[k] + 1])
      else CountDict(keys + [k], counts[k := 1])
    }

    /** `del d[k]` for a key that is present: the key leaves the map and the order, the rest
        keep their counts and their relative order. */
    function Delete(k: int): (r: CountDict)
      requires Valid() && k in counts
      ensures r.Valid()
    {
      RemoveKeyShape(keys, k);
      CountDict(RemoveKey(keys, k), counts - {k})
    }

    /** Increments the counts of `ks`, one after another. */
    function IncrementAll(ks: seq<int>): (r: CountDict)
      requires Valid()
      ensures r.Valid()
      decreases |ks|
    {
      if ks == [] then this
      else
        IncrementAll(ks[..|ks| - 1]).Increment(ks[|ks| - 1])
    }

    /** The trimming of `do_tests`: delete the first-inserted and then the last-inserted key. */
    function Trimmed(): CountDict
      requires Valid() && |keys| >= 3
    {
      var first, last := keys[0], keys[|keys| - 1];
      Delete(first).Delete(last)
    }
  }

  /** `{}`. */
  const Empty: CountDict := CountDict([], map[])

  predicate Distinct(s: seq<int>) {
    forall i, j :: 0 <= i < j < |s| ==> s[i] != s[j]
  }

  function SumCounts(ks: seq<int>, counts: map<int, nat>): nat {
    if ks == [] then 0
    else (if ks[0] in counts then counts[ks[0]] else 0) + SumCounts(ks[1..], counts)
  }

  /** `ks` with `k` taken out. */
  function RemoveKey(ks: seq<int>, k: int): (r: seq<int>)
    ensures forall j :: j in r <==> j in ks && j != k
  {
    if ks == [] then []
    else if ks[0] == k then RemoveKey(ks[1..], k)
    else [ks[0]] + RemoveKey(ks[1..], k)
  }

  // ---------------------------------------------------------------- lemmas

  lemma Empty_Valid()
    ensures Empty.Valid() && Empty.Total() == 0
  {
  }

  /** Each successful read adds exactly one completion to the dict. */
  lemma IncrementTotal(d: CountDict, k: int)
    requires d.Valid()
    ensures d.Increment(k).Total() == d.Total() + 1
  {
    if k in d.counts {
      SumBump(d.keys, d.counts, k);
    } else {
      SumFrame(d.keys, d.counts, d.counts[k := 1]);
      SumAppend(d.keys, k, d.counts[k := 1]);
    }
  }

  /** What `Delete` keeps: the order without the key, one entry fewer, the other keys with
      their counts. */
  lemma DeleteRemovesKey(d: CountDict, k: int)
    requires d.Valid() && k in d.counts
    ensures d.Delete(k).keys == RemoveKey(d.keys, k) && |d.Delete(k).keys| == |d.keys| - 1
    ensures forall j :: j in d.Delete(k).counts <==> j in d.counts && j != k
    ensures forall j :: j in d.Delete(k).counts ==> d.Delete(k).counts[j] == d.counts[j]
  {
    RemoveKeyShape(d.keys, k);
  }

  /** Deleting a bucket removes exactly its completions from the total. */
  lemma DeleteTotal(d: CountDict, k: int)
    requires d.Valid() && k in d.counts
    ensures d.Delete(k).Total() == d.Total() - d.counts[k]
  {
    SumRemove(d.keys, d.counts, k);
    SumFrame(RemoveKey(d.keys, k), d.counts, d.counts - {k});
  }

  /** Conservation: `n` increments add exactly `n` completions. */
  lemma {:induction false} IncrementAllTotal(d: CountDict, ks: seq<int>)
    requires d.Valid()
    ensures d.IncrementAll(ks).Total() == d.Total() + |ks|
    decreases |ks|
  {
    if ks != [] {
      IncrementAllTotal(d, ks[..|ks| - 1]);
      IncrementTotal(d.IncrementAll(ks[..|ks| - 1]), ks[|ks| - 1]);
    }
  }

  /** Each key's count after a run of increments is its old count plus the number of times the
      run names it; the keys are the old ones and the run's. */
  lemma {:induction false} IncrementAllCounts(d: CountDict, ks: seq<int>)
    requires d.Valid()
    ensures forall k :: d.IncrementAll(ks).Count(k) == d.Count(k) + multiset(ks)[k]
    ensures forall k :: k in d.IncrementAll(ks).counts <==> k in d.counts || k in ks
    decreases |ks|
  {
    if ks != [] {
      var init, x := ks[..|ks| - 1], ks[|ks| - 1];
      assert ks == init + [x];
      IncrementAllCounts(d, init);
    }
  }

  /** The keys of `ks` not in `seen`, each once, in the order of their first occurrence. */
  function FirstSeen(seen: seq<int>, ks: seq<int>): (r: seq<int>)
    ensures forall k :: k in r <==> k in ks && k !in seen
  {
    if ks == [] then []
    else
      var earlier, x := FirstSeen(seen, ks[..|ks| - 1]), ks[|ks| - 1];
      if x in seen || x in earlier then earlier else earlier + [x]
  }

  /** Increments never reorder: the old keys stay first, in their old order, and the new keys
      follow in the order they were first seen. */
  lemma {:induction false} IncrementAllKeepsOrder(d: CountDict, ks: seq<int>)
    requires d.Valid()
    ensures d.IncrementAll(ks).keys == d.keys + FirstSeen(d.keys, ks)
    decreases |ks|
  {
    if ks != [] {
      var init, x := ks[..|ks| - 1], ks[|ks| - 1];
      IncrementAllKeepsOrder(d, init);
      var e := d.IncrementAll(init);
      assert x in e.counts <==> x in d.keys || x in FirstSeen(d.keys, init);
    }
  }

  lemma {:induction false} SumAppend(ks: seq<int>, k: int, counts: map<int, nat>)
    ensures SumCounts(ks + [k], counts) == SumCounts(ks, counts) + (if k in counts then counts[k] else 0)
  {
    if ks != [] {
      assert (ks + [k])[1..] == ks[1..] + [k];
      SumAppend(ks[1..], k, counts);
    } else {
      assert ks + [k] == [k];
    }
  }

  /** Entries of keys outside `ks` do not contribute to the sum over `ks`. */
  lemma {:induction false} SumFrame(ks: seq<int>, m: map<int, nat>, m': map<int, nat>)
    requires forall i :: 0 <= i < |ks| ==> (ks[i] in m <==> ks[i] in m') && (ks[i] in m ==> m[ks[i]] == m'[ks[i]])
    ensures SumCounts(ks, m) == SumCounts(ks, m')
  {
    if ks != [] {
      assert forall i :: 0 <= i < |ks| - 1 ==> ks[1..][i] == ks[i + 1];
      SumFrame(ks[1..], m, m');
    }
  }

  lemma {:induction false} SumBump(ks: seq<int>, m: map<int, nat>, k: int)
    requires Distinct(ks) && k in ks && k in m
    ensures SumCounts(ks, m[k := m[k] + 1]) == SumCounts(ks, m) + 1
  {
    if ks[0] == k {
      assert k !in ks[1..];
      SumFrame(ks[1..], m, m[k := m[k] + 1]);
    } else {
      SumBump(ks[1..], m, k);
    }
  }

  lemma {:induction false} SumRemove(ks: seq<int>, m: map<int, nat>, k: int)
    requires Distinct(ks) && k in ks && k in m
    ensures SumCounts(RemoveKey(ks, k), m) == SumCounts(ks, m) - m[k]
  {
    if ks[0] == k {
      assert k !in ks[1..];
      RemoveKeyAbsent(ks[1..], k);
    } else {
      SumRemove(ks[1..], m, k);
    }
  }

  lemma {:induction false} RemoveKeyAbsent(ks: seq<int>, k: int)
    requires k !in ks
    ensures RemoveKey(ks, k) == ks
  {
    if ks != [] {
      RemoveKeyAbsent(ks[1..], k);
      assert ks == [ks[0]] + ks[1..];
    }
  }

  lemma {:induction false} RemoveKeyShape(ks: seq<int>, k: int)
    requires Distinct(ks) && k in ks
    ensures Distinct(RemoveKey(ks, k)) && |RemoveKey(ks, k)| == |ks| - 1
  {
    assert Distinct(ks[1..]) && ks[0] !in ks[1..];
    if ks[0] == k {
      RemoveKeyAbsent(ks[1..], k);
    } else {
      RemoveKeyShape(ks[1..], k);
      DistinctCons(ks[0], RemoveKey(ks[1..], k));
    }
  }

  lemma DistinctCons(x: int, s: seq<int>)
    requires Distinct(s) && x !in s
    ensures Distinct([x] + s)
  {
    forall i, j | 0 <= i < j < |[x] + s| ensures ([x] + s)[i] != ([x] + s)[j] {
      if i > 0 {
        assert ([x] + s)[i] == s[i - 1];
      }
      assert ([x] + s)[j] == s[j - 1];
    }
  }

  /** Deleting the last-listed key drops the last element of the order. */
  lemma {:induction false} RemoveKeyLast(ks: seq<int>)
    requires Distinct(ks) && |ks| >= 1
    ensures RemoveKey(ks, ks[|ks| - 1]) == ks[..|ks| - 1]
  {
    var k := ks[|ks| - 1];
    if |ks| == 1 {
    } else {
      assert ks[1..][|ks[1..]| - 1] == k;
      RemoveKeyLast(ks[1..]);
      assert ks[0] != k;
      assert ks[..|ks| - 1] == [ks[0]] + ks[1..][..|ks[1..]| - 1];
    }
  }

  /** The trimming removes exactly the first- and last-inserted keys: the order loses its two
      ends and the remaining buckets keep their counts. */
  lemma TrimmedDropsEnds(d: CountDict)
    requires d.Valid() && |d.keys| >= 3
    ensures d.Trimmed().Valid()
    ensures d.Trimmed().keys == d.keys[1..|d.keys| - 1]
    ensures forall k :: k in d.Trimmed().counts <==> k in d.counts && k != d.keys[0] && k != d.keys[|d.keys| - 1]
    ensures forall k :: k in d.Trimmed().counts ==> d.Trimmed().counts[k] == d.counts[k]
  {
    var first, last, rest := d.keys[0], d.keys[|d.keys| - 1], d.keys[1..];
    var d1 := d.Delete(first);
    assert d1.keys == rest by {
      assert Distinct(rest) && first !in rest;
      RemoveKeyAbsent(rest, first);
    }
    assert d.Trimmed().keys == d.keys[1..|d.keys| - 1] by {
      assert rest[|rest| - 1] == last;
      RemoveKeyLast(rest);
      assert rest[..|rest| - 1] == d.keys[1..|d.keys| - 1];
    }
  }

  /** Trimming takes away exactly the completions of the two end buckets. */
  lemma TrimmedTotal(d: CountDict)
    requires d.Valid() && |d.keys| >= 3
    ensures d.Trimmed().Total() == d.Total() - d.counts[d.keys[0]] - d.counts[d.keys[|d.keys| - 1]]
  {
    var first, last := d.keys[0], d.keys[|d.keys| - 1];
    DeleteTotal(d, first);
    assert d.keys[|d.keys| - 1] != first;
    DeleteTotal(d.Delete(first), last);
  }

  /** Every bucket holds at least one completion, so a valid dict totals at least its size. */
  lemma {:induction false} TotalAtLeastSize(ks: seq<int>, m: map<int, nat>)
    requires forall i :: 0 <= i < |ks| ==> ks[i] in m && m[ks[i]] >= 1
    ensures SumCounts(ks, m) >= |ks|
  {
    if ks != [] {
      assert forall i :: 0 <= i < |ks| - 1 ==> ks[1..][i] == ks[i + 1];
      TotalAtLeastSize(ks[1..], m);
    }
  }

  /** Incrementing by a run of one key is one increment. */
  lemma IncrementAllOne(d: CountDict, k: int)
    requires d.Valid()
    ensures d.IncrementAll([k]) == d.Increment(k)
  {
    assert [k][..0] == [];
  }

  /** Incrementing a concatenation is incrementing its two parts in turn. */
  lemma {:induction false} IncrementAllConcat(d: CountDict, a: seq<int>, b: seq<int>)
    requires d.Valid()
    ensures d.IncrementAll(a + b) == d.IncrementAll(a).IncrementAll(b)
    decreases |b|
  {
    if b == [] {
      assert a + b == a;
    } else {
      var b' := b[..|b| - 1];
      assert (a + b)[..|a + b| - 1] == a + b';
      assert (a + b)[|a + b| - 1] == b[|b| - 1];
      IncrementAllConcat(d, a, b');
    }
  }
}
