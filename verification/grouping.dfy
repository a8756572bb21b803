/** Java's `Collectors.groupingBy(classifier, downstream)` on a sequential
    stream: each element, in encounter order, is added to the bucket of its
    key; a null key throws; once the stream is exhausted every bucket is
    finished by the downstream collector. The downstream collector is the
    parameter `finish`, applied to the whole bucket, which is what a
    sequential collector computes from the bucket's elements in order. */
module Grouping {
  import opened Wrappers

  /** The classifier mapped an element to a null key
      (`NullPointerException: element cannot be mapped to a null key`). */
  datatype GroupError = NullKey

  /** Every element has a non-null key. */
  predicate AllKeyed<T, K(==)>(xs: seq<T>, key: T -> Option<K>)
  {
    forall i :: 0 <= i < |xs| ==> key(xs[i]).Some?
  }

  /** The keys that occur in `xs`. */
  function Keys<T, K(==)>(xs: seq<T>, key: T -> Option<K>): (r: set<K>)
    ensures forall i :: 0 <= i < |xs| && key(xs[i]).Some? ==> key(xs[i]).value in r
    ensures forall k :: k in r ==> exists i :: 0 <= i < |xs| && key(xs[i]) == Some(k)
  {
    if |xs| == 0 then {}
    else
      var rest := Keys(xs[1..], key);
      assert forall k :: k in rest ==> exists i :: 0 <= i < |xs| && key(xs[i]) == Some(k) by {
        forall k | k in rest
          ensures exists i :: 0 <= i < |xs| && key(xs[i]) == Some(k)
        {
          var j :| 0 <= j < |xs[1..]| && key(xs[1..][j]) == Some(k);
          assert xs[1..][j] == xs[j + 1];
        }
      }
      match key(xs[0])
      case None => rest
      case Some(k) => {k} + rest
  }

  /** The elements of `xs` whose key is `k`, in encounter order. */
  function Members<T, K(==)>(xs: seq<T>, key: T -> Option<K>, k: K): (r: seq<T>)
    ensures forall j :: 0 <= j < |r| ==> key(r[j]) == Some(k)
    ensures |r| <= |xs|
  {
    if |xs| == 0 then []
    else (if key(xs[0]) == Some(k) then [xs[0]] else []) + Members(xs[1..], key, k)
  }

  /** The bucket of `k` in `acc`, empty when `k` has none yet. */
  function Bucket<T, K(==)>(acc: map<K, seq<T>>, k: K): seq<T>
  {
    if k in acc then acc[k] else []
  }

  /** The accumulation pass: buckets grown element by element. */
  function Accumulate<T, K(==)>(xs: seq<T>, key: T -> Option<K>, acc: map<K, seq<T>>)
    : Result<map<K, seq<T>>, GroupError>
  {
    if |xs| == 0 then Success(acc)
    else match key(xs[0])
      case None => Failure(NullKey)
      case Some(k) => Accumulate(xs[1..], key, acc[k := Bucket(acc, k) + [xs[0]]])
  }

  /** Keying the first element and then the rest keys everything. */
  lemma AllKeyedCons<T, K>(xs: seq<T>, key: T -> Option<K>)
    requires |xs| > 0
    ensures AllKeyed(xs, key) <==> key(xs[0]).Some? && AllKeyed(xs[1..], key)
  {
    if key(xs[0]).Some? && AllKeyed(xs[1..], key) {
      forall i | 0 <= i < |xs|
        ensures key(xs[i]).Some?
      {
        if i > 0 {
          assert xs[i] == xs[1..][i - 1];
        }
      }
    }
  }

  /** Unfolding `Members` once. */
  lemma MembersCons<T, K>(xs: seq<T>, key: T -> Option<K>, k: K)
    requires |xs| > 0
    ensures Members(xs, key, k) ==
      (if key(xs[0]) == Some(k) then [xs[0]] + Members(xs[1..], key, k) else Members(xs[1..], key, k))
  {
    if key(xs[0]) != Some(k) {
      assert [] + Members(xs[1..], key, k) == Members(xs[1..], key, k);
    }
  }

  /** Unfolding `Keys` once at a keyed element. */
  lemma KeysCons<T, K>(xs: seq<T>, key: T -> Option<K>, k0: K)
    requires |xs| > 0 && key(xs[0]) == Some(k0)
    ensures Keys(xs, key) == {k0} + Keys(xs[1..], key)
  {
  }

  /** The buckets `acc` would reach after taking in all of `xs`. */
  ghost function Expected<T, K>(xs: seq<T>, key: T -> Option<K>, acc: map<K, seq<T>>): map<K, seq<T>>
  {
    map k | k in acc.Keys + Keys(xs, key) :: Bucket(acc, k) + Members(xs, key, k)
  }

  /** Adding the first element to its bucket first and then expecting the
      rest is the same as expecting everything from the start. */
  lemma ExpectedCons<T, K>(xs: seq<T>, key: T -> Option<K>, acc: map<K, seq<T>>, k0: K)
    requires |xs| > 0 && key(xs[0]) == Some(k0)
    ensures Expected(xs[1..], key, acc[k0 := Bucket(acc, k0) + [xs[0]]]) == Expected(xs, key, acc)
  {
    var acc' := acc[k0 := Bucket(acc, k0) + [xs[0]]];
    var lhs := Expected(xs[1..], key, acc');
    var rhs := Expected(xs, key, acc);
    ExpectedKeysCons(xs, key, acc, k0);
    assert lhs.Keys == rhs.Keys;
    forall k | k in lhs
      ensures lhs[k] == rhs[k]
    {
      BucketCons(xs, key, acc, k0, k);
    }
  }

  /** The keys of `ExpectedCons`: the first element's key moves from the
      elements to the buckets. */
  lemma ExpectedKeysCons<T, K>(xs: seq<T>, key: T -> Option<K>, acc: map<K, seq<T>>, k0: K)
    requires |xs| > 0 && key(xs[0]) == Some(k0)
    ensures acc[k0 := Bucket(acc, k0) + [xs[0]]].Keys + Keys(xs[1..], key) == acc.Keys + Keys(xs, key)
  {
    KeysCons(xs, key, k0);
  }

  /** One key's share of `ExpectedCons`. */
  lemma BucketCons<T, K>(xs: seq<T>, key: T -> Option<K>, acc: map<K, seq<T>>, k0: K, k: K)
    requires |xs| > 0 && key(xs[0]) == Some(k0)
    ensures Bucket(acc[k0 := Bucket(acc, k0) + [xs[0]]], k) + Members(xs[1..], key, k)
         == Bucket(acc, k) + Members(xs, key, k)
  {
    MembersCons(xs, key, k);
  }

  /** Accumulating from `acc` fails exactly on a null key; otherwise each key
      seen so far or in `xs` ends with its old bucket followed by its members
      in `xs`. */
  lemma {:induction false} AccumulateSpec<T, K>(xs: seq<T>, key: T -> Option<K>, acc: map<K, seq<T>>)
    ensures Accumulate(xs, key, acc).Failure? <==> !AllKeyed(xs, key)
    ensures AllKeyed(xs, key) ==> Accumulate(xs, key, acc).value == Expected(xs, key, acc)
  {
    if |xs| == 0 {
      var m := Expected(xs, key, acc);
      assert m.Keys == acc.Keys;
      assert forall k :: k in m ==> m[k] == acc[k];
    } else {
      AllKeyedCons(xs, key);
      match key(xs[0])
      case None =>
      case Some(k0) =>
        AccumulateSpec(xs[1..], key, acc[k0 := Bucket(acc, k0) + [xs[0]]]);
        ExpectedCons(xs, key, acc, k0);
    }
  }

  /** Starting with no buckets, each key's bucket is just its members. */
  lemma ExpectedFromNothing<T, K>(xs: seq<T>, key: T -> Option<K>)
    ensures Expected(xs, key, map[]).Keys == Keys(xs, key)
    ensures forall k :: k in Keys(xs, key) ==> Expected(xs, key, map[])[k] == Members(xs, key, k)
  {
    forall k | k in Keys(xs, key)
      ensures Expected(xs, key, map[])[k] == Members(xs, key, k)
    {
      assert [] + Members(xs, key, k) == Members(xs, key, k);
    }
  }

  /** `Collectors.groupingBy(key, downstream)`: fails exactly when some
      element has a null key; otherwise the result has one entry per key
      that occurs, holding the downstream result for exactly the elements
      with that key, in encounter order. */
  function GroupingBy<T, K(==), M>(xs: seq<T>, key: T -> Option<K>, finish: seq<T> -> M)
    : (r: Result<map<K, M>, GroupError>)
    ensures r.Failure? <==> !AllKeyed(xs, key)
    ensures r.Success? ==>
      && r.value.Keys == Keys(xs, key)
      && forall k :: k in r.value ==> r.value[k] == finish(Members(xs, key, k))
  {
    AccumulateSpec(xs, key, map[]);
    ExpectedFromNothing(xs, key);
    match Accumulate(xs, key, map[])
    case Failure(e) => Failure(e)
    case Success(buckets) => Success(map k | k in buckets :: finish(buckets[k]))
  }

  /** Three elements under two keys, as in rows `(t1, A, 3)`, `(t1, B, 5)`,
      `(t2, A, 1)`: the first bucket gets the first two elements in order,
      the second bucket the third. */
  lemma {:induction false} TwoKeysExample<T, K, M>(x1: T, x2: T, x3: T, k1: K, k2: K,
                                                  key: T -> Option<K>, finish: seq<T> -> M)
    requires k1 != k2
    requires key(x1) == Some(k1) && key(x2) == Some(k1) && key(x3) == Some(k2)
    ensures GroupingBy([x1, x2, x3], key, finish) == Success(map[k1 := finish([x1, x2]), k2 := finish([x3])])
  {
    var xs := [x1, x2, x3];
    TwoKeysBuckets(x1, x2, x3, k1, k2, key);
    var r := GroupingBy(xs, key, finish);
    assert r.value[k1] == finish([x1, x2]) && r.value[k2] == finish([x3]);
    assert r.value == map[k1 := finish([x1, x2]), k2 := finish([x3])];
  }

  /** The keys and buckets of `TwoKeysExample`. */
  lemma {:induction false} TwoKeysBuckets<T, K>(x1: T, x2: T, x3: T, k1: K, k2: K, key: T -> Option<K>)
    requires k1 != k2
    requires key(x1) == Some(k1) && key(x2) == Some(k1) && key(x3) == Some(k2)
    ensures AllKeyed([x1, x2, x3], key) && Keys([x1, x2, x3], key) == {k1, k2}
    ensures Members([x1, x2, x3], key, k1) == [x1, x2] && Members([x1, x2, x3], key, k2) == [x3]
  {
    var xs := [x1, x2, x3];
    assert xs[1..] == [x2, x3] && xs[1..][1..] == [x3] && xs[1..][1..][1..] == [];
    MembersCons(xs, key, k1);
    MembersCons(xs[1..], key, k1);
    MembersCons(xs[1..][1..], key, k1);
    MembersCons(xs, key, k2);
    MembersCons(xs[1..], key, k2);
    MembersCons(xs[1..][1..], key, k2);
    KeysCons(xs, key, k1);
    KeysCons(xs[1..], key, k1);
    KeysCons(xs[1..][1..], key, k2);
    assert Members(xs[1..][1..][1..], key, k1) == [] && Members(xs[1..][1..][1..], key, k2) == [];
  }

  /** Two elements under the same key both reach that key's bucket, in
      order: the grouping itself neither overwrites nor adds. */
  lemma {:induction false} SameKeyKeepsBoth<T, K, M>(x1: T, x2: T, k: K,
                                                    key: T -> Option<K>, finish: seq<T> -> M)
    requires key(x1) == Some(k) && key(x2) == Some(k)
    ensures GroupingBy([x1, x2], key, finish) == Success(map[k := finish([x1, x2])])
  {
    var xs := [x1, x2];
    assert xs[1..] == [x2] && xs[1..][1..] == [];
    MembersCons(xs, key, k);
    MembersCons(xs[1..], key, k);
    KeysCons(xs, key, k);
    KeysCons(xs[1..], key, k);
    assert Keys(xs, key) == {k};
    assert AllKeyed(xs, key);
    var r := GroupingBy(xs, key, finish);
    assert Members(xs[1..][1..], key, k) == [];
    assert Members(xs[1..], key, k) == [x2];
    assert Members(xs, key, k) == [x1, x2];
    assert r.value[k] == finish([x1, x2]);
    assert r.value == map[k := finish([x1, x2])];
  }
}
