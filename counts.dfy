/**
 * Python's counting dictionaries (`if k not in d: d[k] = 0; d[k] += 1`):
 * the tally of a sequence by a key, the order in which keys were first
 * seen (a dict's insertion order), and the sum of a tally's values.
 */
module Counts {

  /** One more occurrence of `k`. */
  function Bump<K(==)>(m: map<K, nat>, k: K): (r: map<K, nat>)
    ensures r.Keys == m.Keys + {k}
    ensures r[k] == (if k in m then m[k] else 0) + 1
    ensures forall j :: j in m && j != k ==> r[j] == m[j]
  {
    m[k := (if k in m then m[k] else 0) + 1]
  }

  /** The occurrences of each key among the elements of `s`. */
  function TallyBy<T, K(==)>(s: seq<T>, key: T -> K): (r: map<K, nat>)
    ensures forall k :: k in r ==> r[k] >= 1
  {
    if s == [] then map[] else Bump(TallyBy(s[..|s| - 1], key), key(s[|s| - 1]))
  }

  /** The keys of `s`'s elements, each once, in the order they first occur. */
  function FirstSeen<T, K(==)>(s: seq<T>, key: T -> K): (r: seq<K>)
    ensures forall i, j :: 0 <= i < j < |r| ==> r[i] != r[j]
  {
    if s == [] then []
    else
      var front := FirstSeen(s[..|s| - 1], key);
      var k := key(s[|s| - 1]);
      if k in front then front else front + [k]
  }

  /** The sum of the values of a tally. */
  ghost function Sum<K>(m: map<K, nat>): nat
    decreases |m|
  {
    if m == map[] then 0
    else
      var k :| k in m;
      m[k] + Sum(m - {k})
  }

  /** The sum does not depend on the key taken out first. */
  lemma {:induction false} SumRemove<K>(m: map<K, nat>, k: K)
    requires k in m
    ensures Sum(m) == m[k] + Sum(m - {k})
    decreases |m|
  {
    var j :| j in m && Sum(m) == m[j] + Sum(m - {j});
    if j != k {
      SumRemove(m - {j}, k);
      SumRemove(m - {k}, j);
      assert m - {j} - {k} == m - {k} - {j};
    }
  }

  /** One more occurrence adds one to the sum. */
  lemma BumpSum<K>(m: map<K, nat>, k: K)
    ensures Sum(Bump(m, k)) == Sum(m) + 1
  {
    var r := Bump(m, k);
    SumRemove(r, k);
    assert r - {k} == m - {k};
    if k in m {
      SumRemove(m, k);
    } else {
      assert m - {k} == m;
    }
  }

  /** A tally counts every element exactly once. */
  lemma {:induction false} TallySum<T, K>(s: seq<T>, key: T -> K)
    ensures Sum(TallyBy(s, key)) == |s|
  {
    if s != [] {
      TallySum(s[..|s| - 1], key);
      BumpSum(TallyBy(s[..|s| - 1], key), key(s[|s| - 1]));
    }
  }

  /** A key has been seen exactly when it has been tallied. */
  lemma {:induction false} FirstSeenHas<T, K>(s: seq<T>, key: T -> K, k: K)
    ensures k in FirstSeen(s, key) <==> k in TallyBy(s, key)
  {
    if s != [] {
      FirstSeenHas(s[..|s| - 1], key, k);
    }
  }

  /** There are as many first-seen keys as tallied keys. */
  lemma {:induction false} FirstSeenSize<T, K>(s: seq<T>, key: T -> K)
    ensures |FirstSeen(s, key)| == |TallyBy(s, key).Keys|
  {
    if s != [] {
      var front := s[..|s| - 1];
      var k := key(s[|s| - 1]);
      FirstSeenSize(front, key);
      FirstSeenHas(front, key, k);
      if k in FirstSeen(front, key) {
        assert TallyBy(s, key).Keys == TallyBy(front, key).Keys;
      } else {
        assert TallyBy(s, key).Keys == TallyBy(front, key).Keys + {k};
      }
    }
  }

  /** A key is tallied exactly when some element has it. */
  lemma {:induction false} TallyHas<T, K>(s: seq<T>, key: T -> K, k: K)
    ensures k in TallyBy(s, key) <==> exists i :: 0 <= i < |s| && key(s[i]) == k
  {
    if s != [] {
      var front := s[..|s| - 1];
      TallyHas(front, key, k);
      if k in TallyBy(front, key) {
        var i :| 0 <= i < |front| && key(front[i]) == k;
        assert key(s[i]) == k;
      } else if exists i :: 0 <= i < |s| && key(s[i]) == k {
        var i :| 0 <= i < |s| && key(s[i]) == k;
        if i < |front| {
          assert key(front[i]) == k;
        }
      }
    }
  }

  /** There are never more distinct keys than elements. */
  lemma {:induction false} TallySize<T, K>(s: seq<T>, key: T -> K)
    ensures |TallyBy(s, key).Keys| <= |s|
  {
    if s != [] {
      TallySize(s[..|s| - 1], key);
    }
  }
}
