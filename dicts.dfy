/** Python dictionaries with string keys. A Python dict remembers the order
    in which its keys were first inserted, so a dictionary is modelled as a
    sequence of (key, value) entries whose keys are distinct. */
module Dicts {
  import opened Wrappers

  type Dict<V> = seq<(string, V)>

  /** `[*d]`: the keys in insertion order. */
  function Keys<V>(d: Dict<V>): (ks: seq<string>)
    ensures |ks| == |d|
    ensures forall i :: 0 <= i < |d| ==> ks[i] == d[i].0
  {
    seq(|d|, i requires 0 <= i < |d| => d[i].0)
  }

  /** What makes a sequence of entries a dictionary. */
  predicate DistinctKeys<V>(d: Dict<V>) {
    forall i, j :: 0 <= i < j < |d| ==> d[i].0 != d[j].0
  }

  /** Position of key `k`. */
  function IndexOf<V>(d: Dict<V>, k: string): (i: nat)
    requires k in Keys(d)
    ensures i < |d| && d[i].0 == k
    ensures forall j :: 0 <= j < i ==> d[j].0 != k
  {
    if d[0].0 == k then 0
    else
      assert Keys(d[1..]) == Keys(d)[1..];
      IndexOf(d[1..], k) + 1
  }

  /** `d[k]` for a key known to be present. */
  function Get<V>(d: Dict<V>, k: string): V
    requires k in Keys(d)
  {
    d[IndexOf(d, k)].1
  }

  /** `d[k]`, raising KeyError when `k` is absent. */
  function Lookup<V>(d: Dict<V>, k: string): (r: Result<V>)
    ensures r.Fail? <==> k !in Keys(d)
    ensures r.Fail? ==> r.error == KeyError
    ensures r.Ok? ==> exists i :: 0 <= i < |d| && d[i] == (k, r.value)
  {
    if k in Keys(d) then Ok(Get(d, k)) else Fail(KeyError)
  }

  /** `d[k] = v`: an existing key keeps its position, a new key goes last. */
  function Put<V>(d: Dict<V>, k: string, v: V): (r: Dict<V>)
    ensures k in Keys(d) ==> |r| == |d| && Keys(r) == Keys(d)
    ensures k !in Keys(d) ==> Keys(r) == Keys(d) + [k]
    ensures k in Keys(r) && Get(r, k) == v
    ensures forall i :: 0 <= i < |d| && d[i].0 != k ==> r[i] == d[i]
    ensures DistinctKeys(d) ==> DistinctKeys(r)
  {
    if k in Keys(d) then d[IndexOf(d, k) := (k, v)] else d + [(k, v)]
  }

  /** `del d[k]`, raising KeyError when `k` is absent. */
  function Delete<V>(d: Dict<V>, k: string): (r: Result<Dict<V>>)
    ensures r.Fail? <==> k !in Keys(d)
    ensures r.Fail? ==> r.error == KeyError
    ensures r.Ok? ==> |r.value| == |d| - 1
    ensures r.Ok? ==> r.value == d[..IndexOf(d, k)] + d[IndexOf(d, k) + 1..]
    ensures r.Ok? && DistinctKeys(d) ==> DistinctKeys(r.value) && k !in Keys(r.value)
  {
    if k !in Keys(d) then Fail(KeyError)
    else
      var i := IndexOf(d, k);
      Ok(d[..i] + d[i + 1..])
  }

  /** Under distinct keys, the entry with key `k` is the one `Get` returns. */
  lemma GetEntry<V>(d: Dict<V>, i: nat)
    requires DistinctKeys(d) && i < |d|
    ensures d[i].0 in Keys(d) && IndexOf(d, d[i].0) == i && Get(d, d[i].0) == d[i].1
  {
  }

  /** The first entry is found at once and deleting it leaves the rest. */
  lemma LookupDeleteFirst<V>(d: Dict<V>, k: string)
    requires |d| > 0 && d[0].0 == k
    ensures Lookup(d, k) == Ok(d[0].1) && Delete(d, k) == Ok(d[1..])
  {
    assert Keys(d)[0] == k;
    assert IndexOf(d, k) == 0;
    assert d[..0] + d[1..] == d[1..];
  }

  /** Lookups of other keys are not affected by an assignment. */
  lemma PutOther<V>(d: Dict<V>, k: string, v: V, k': string)
    requires k' != k && k' in Keys(d)
    ensures k' in Keys(Put(d, k, v)) && Get(Put(d, k, v), k') == Get(d, k')
  {
    var r := Put(d, k, v);
    var i := IndexOf(d, k');
    assert r[i] == d[i];
    assert Keys(r)[i] == k';
    if IndexOf(r, k') < i {
      assert r[IndexOf(r, k')] == d[IndexOf(r, k')];
    }
  }

  /** The dictionary that `d[k] = v` for each pair of `pairs` in turn builds
      from an empty one. */
  function PutAll<V>(pairs: seq<(string, V)>): (d: Dict<V>)
    ensures DistinctKeys(d)
  {
    if |pairs| == 0 then []
    else Put(PutAll(pairs[..|pairs| - 1]), pairs[|pairs| - 1].0, pairs[|pairs| - 1].1)
  }

  /** One more pair is one more assignment. */
  lemma PutAllSnoc<V>(pairs: seq<(string, V)>, k: string, v: V)
    ensures PutAll(pairs + [(k, v)]) == Put(PutAll(pairs), k, v)
    ensures Keys(pairs + [(k, v)]) == Keys(pairs) + [k]
  {
    var p := pairs + [(k, v)];
    assert p[..|p| - 1] == pairs && p[|p| - 1] == (k, v);
    assert PutAll(p) == Put(PutAll(p[..|p| - 1]), p[|p| - 1].0, p[|p| - 1].1);
    forall i | 0 <= i < |p|
      ensures Keys(p)[i] == (Keys(pairs) + [k])[i]
    {
      if i < |pairs| {
        assert p[i] == pairs[i];
      }
    }
  }

  /** The keys are exactly the keys of the pairs. */
  lemma {:induction false} PutAllKeys<V>(pairs: seq<(string, V)>)
    ensures forall k :: k in Keys(PutAll(pairs)) <==> exists i :: 0 <= i < |pairs| && pairs[i].0 == k
  {
    if |pairs| > 0 {
      var pre := pairs[..|pairs| - 1];
      PutAllKeys(pre);
      assert forall i :: 0 <= i < |pre| ==> pre[i] == pairs[i];
      forall k | k in Keys(PutAll(pairs))
        ensures exists i :: 0 <= i < |pairs| && pairs[i].0 == k
      {
        if k != pairs[|pairs| - 1].0 {
          var i :| 0 <= i < |pre| && pre[i].0 == k;
          assert pairs[i].0 == k;
        }
      }
    }
  }

  /** The keys, when the pairs' keys are known position by position. */
  lemma PutAllKeysAre<V>(pairs: seq<(string, V)>, ks: seq<string>)
    requires |pairs| == |ks| && forall i :: 0 <= i < |pairs| ==> pairs[i].0 == ks[i]
    ensures forall k :: k in Keys(PutAll(pairs)) <==> k in ks
  {
    PutAllKeys(pairs);
    forall k | k in ks
      ensures exists i :: 0 <= i < |pairs| && pairs[i].0 == k
    {
      var i :| 0 <= i < |ks| && ks[i] == k;
      assert pairs[i].0 == k;
    }
  }

  /** A key holds the value of its last pair: later assignments overwrite
      earlier ones. */
  lemma {:induction false} PutAllLastWins<V>(pairs: seq<(string, V)>, i: nat)
    requires i < |pairs| && forall j :: i < j < |pairs| ==> pairs[j].0 != pairs[i].0
    ensures pairs[i].0 in Keys(PutAll(pairs)) && Get(PutAll(pairs), pairs[i].0) == pairs[i].1
  {
    if i < |pairs| - 1 {
      var pre := pairs[..|pairs| - 1];
      PutAllLastWins(pre, i);
      PutOther(PutAll(pre), pairs[|pairs| - 1].0, pairs[|pairs| - 1].1, pairs[i].0);
    }
  }

  /** The entries whose keys are not in `ks`, in their order. */
  function Without<V>(d: Dict<V>, ks: set<string>): (r: Dict<V>)
    ensures |r| <= |d|
    ensures forall i :: 0 <= i < |r| ==> r[i] in d && r[i].0 !in ks
  {
    if |d| == 0 then []
    else
      var prev := Without(d[..|d| - 1], ks);
      assert forall e :: e in d[..|d| - 1] ==> e in d;
      if d[|d| - 1].0 in ks then prev else prev + [d[|d| - 1]]
  }

  /** A key survives exactly when it was there and is not removed. */
  lemma {:induction false} WithoutKeys<V>(d: Dict<V>, ks: set<string>)
    ensures forall k :: k in Keys(Without(d, ks)) <==> k in Keys(d) && k !in ks
  {
    if |d| > 0 {
      WithoutKeys(d[..|d| - 1], ks);
      assert Keys(d[..|d| - 1]) == Keys(d)[..|d| - 1];
      assert Keys(d) == Keys(d[..|d| - 1]) + [d[|d| - 1].0];
      var prev := Without(d[..|d| - 1], ks);
      if d[|d| - 1].0 !in ks {
        assert Keys(prev + [d[|d| - 1]]) == Keys(prev) + [d[|d| - 1].0];
      }
    }
  }

  lemma {:induction false} WithoutDistinct<V>(d: Dict<V>, ks: set<string>)
    requires DistinctKeys(d)
    ensures DistinctKeys(Without(d, ks))
  {
    if |d| > 0 {
      var pre := d[..|d| - 1];
      assert DistinctKeys(pre);
      WithoutDistinct(pre, ks);
      WithoutKeys(pre, ks);
      assert d[|d| - 1].0 !in Keys(pre);
    }
  }

  /** Removing nothing that is present changes nothing. */
  lemma {:induction false} WithoutNone<V>(d: Dict<V>, ks: set<string>)
    requires forall i :: 0 <= i < |d| ==> d[i].0 !in ks
    ensures Without(d, ks) == d
  {
    if |d| > 0 {
      WithoutNone(d[..|d| - 1], ks);
    }
  }

  lemma {:induction false} WithoutAppend<V>(d: Dict<V>, e: Dict<V>, ks: set<string>)
    ensures Without(d + e, ks) == Without(d, ks) + Without(e, ks)
    decreases |e|
  {
    if |e| == 0 {
      assert d + e == d;
    } else {
      assert (d + e)[..|d + e| - 1] == d + e[..|e| - 1];
      WithoutAppend(d, e[..|e| - 1], ks);
    }
  }

  /** Removing the keys of exactly one entry drops that entry alone. */
  lemma WithoutSplit<V>(pre: Dict<V>, e: (string, V), post: Dict<V>, ks: set<string>)
    requires e.0 in ks
    requires forall j :: 0 <= j < |pre| ==> pre[j].0 !in ks
    requires forall j :: 0 <= j < |post| ==> post[j].0 !in ks
    ensures Without(pre + [e] + post, ks) == pre + post
  {
    WithoutNone(pre, ks);
    WithoutNone(post, ks);
    WithoutAppend(pre, [e], ks);
    WithoutAppend(pre + [e], post, ks);
    assert Without([e], ks) == Without([], ks);
  }

  /** `del d[k]` under distinct keys removes exactly the entry of `k`. */
  lemma DeleteIsWithout<V>(d: Dict<V>, k: string)
    requires DistinctKeys(d) && k in Keys(d)
    ensures Delete(d, k).value == Without(d, {k})
  {
    var i := IndexOf(d, k);
    var pre, post := d[..i], d[i + 1..];
    assert d == pre + [d[i]] + post;
    forall j | 0 <= j < |post|
      ensures post[j].0 !in {k}
    {
      assert post[j] == d[i + 1 + j];
    }
    WithoutSplit(pre, d[i], post, {k});
  }

  /** Removing in two rounds is removing the union. */
  lemma {:induction false} WithoutWithout<V>(d: Dict<V>, a: set<string>, b: set<string>)
    ensures Without(Without(d, a), b) == Without(d, a + b)
  {
    if |d| > 0 {
      var pre := d[..|d| - 1];
      WithoutWithout(pre, a, b);
      var last := d[|d| - 1];
      if last.0 !in a {
        WithoutAppend(Without(pre, a), [last], b);
      }
    }
  }
}
