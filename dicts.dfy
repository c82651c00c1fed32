/**
 * Python dictionaries (dict and OrderedDict) as the sequence of their pairs in insertion
 * order. Keys are distinct by construction, as in Python.
 */
module Dicts {

  predicate UniqueKeys<K(==), V>(s: seq<(K, V)>)
  {
    forall i, j :: 0 <= i < j < |s| ==> s[i].0 != s[j].0
  }

  type Dict<K(==), V> = d: seq<(K, V)> | UniqueKeys(d) witness []

  /** `list(d.keys())` */
  function Keys<K, V>(d: seq<(K, V)>): (ks: seq<K>)
    ensures |ks| == |d| && forall i :: 0 <= i < |d| ==> ks[i] == d[i].0
  {
    seq(|d|, i requires 0 <= i < |d| => d[i].0)
  }

  /** The position of key `k` in `d`, or -1 when `k not in d`. */
  function IndexOf<K(==), V>(d: seq<(K, V)>, k: K): (i: int)
    ensures -1 <= i < |d|
    ensures i == -1 <==> k !in Keys(d)
    ensures 0 <= i ==> d[i].0 == k && forall j :: 0 <= j < i ==> d[j].0 != k
  {
    if |d| == 0 then -1
    else if d[0].0 == k then 0
    else
      var j := IndexOf(d[1..], k);
      assert Keys(d) == [d[0].0] + Keys(d[1..]);
      if j == -1 then -1 else j + 1
  }

  /** `d[k]` for a key that is present. */
  function Get<K(==), V>(d: seq<(K, V)>, k: K): V
    requires k in Keys(d)
  {
    d[IndexOf(d, k)].1
  }

  /** Two pairs of a dictionary with the same key are the same pair. */
  lemma SameKeySamePair<K, V>(d: Dict<K, V>, p: (K, V), q: (K, V))
    requires p in d && q in d && p.0 == q.0
    ensures p == q
  {
    var i :| 0 <= i < |d| && d[i] == p;
    var j :| 0 <= j < |d| && d[j] == q;
    assert i == j;
  }

  /** A key is present exactly when some pair carries it. */
  lemma KeyPresent<K, V>(d: seq<(K, V)>, k: K)
    ensures k in Keys(d) <==> exists p :: p in d && p.0 == k
  {
    if k in Keys(d) {
      var i :| 0 <= i < |d| && Keys(d)[i] == k;
      assert d[i] in d;
    }
    if exists p :: p in d && p.0 == k {
      var p :| p in d && p.0 == k;
      var i :| 0 <= i < |d| && d[i] == p;
      assert Keys(d)[i] == k;
    }
  }

  /** The pair a dictionary holds for a present key. */
  lemma GetPair<K, V>(d: Dict<K, V>, p: (K, V))
    requires p in d
    ensures p.0 in Keys(d) && Get(d, p.0) == p.1
  {
    var i :| 0 <= i < |d| && d[i] == p;
    assert Keys(d)[i] == p.0;
    SameKeySamePair(d, p, d[IndexOf(d, p.0)]);
  }

  /**
   * `d[k] = v`: a present key keeps its position and takes the new value; a new key is
   * added at the end.
   */
  function Put<K(==), V>(d: Dict<K, V>, k: K, v: V): (r: Dict<K, V>)
    ensures k in Keys(d) ==>
              && |r| == |d| && r[IndexOf(d, k)] == (k, v)
              && forall i :: 0 <= i < |d| && i != IndexOf(d, k) ==> r[i] == d[i]
    ensures k !in Keys(d) ==> r == d + [(k, v)]
    ensures (k, v) in r
    ensures forall p :: p in r ==> p == (k, v) || p in d
    ensures forall p :: p in d && p.0 != k ==> p in r
    ensures k in Keys(r) && forall j :: j in Keys(d) ==> j in Keys(r)
    ensures forall j :: j in Keys(r) ==> j == k || j in Keys(d)
  {
    var i := IndexOf(d, k);
    if i >= 0 then
      ReplaceAtKeys(d, i, v);
      ReplaceAtMembers(d, i, v);
      d[i := (k, v)]
    else
      assert Keys(d + [(k, v)]) == Keys(d) + [k];
      d + [(k, v)]
  }

  /** Replacing the value at `i` keeps every key where it is. */
  lemma ReplaceAtKeys<K, V>(d: Dict<K, V>, i: nat, v: V)
    requires i < |d|
    ensures Keys(d[i := (d[i].0, v)]) == Keys(d)
    ensures UniqueKeys(d[i := (d[i].0, v)])
  {
    var r := d[i := (d[i].0, v)];
    assert forall j :: 0 <= j < |d| ==> r[j].0 == d[j].0;
  }

  /** Replacing the value at `i` keeps every pair with another key. */
  lemma ReplaceAtMembers<K, V>(d: Dict<K, V>, i: nat, v: V)
    requires i < |d|
    ensures forall p :: p in d[i := (d[i].0, v)] ==> p == (d[i].0, v) || p in d
    ensures forall p :: p in d && p.0 != d[i].0 ==> p in d[i := (d[i].0, v)]
  {
    var r := d[i := (d[i].0, v)];
    forall p | p in d && p.0 != d[i].0 ensures p in r {
      var j :| 0 <= j < |d| && d[j] == p;
      assert r[j] == p;
    }
  }

  /** `del d[k]`: the pair with key `k` is removed and the others keep their order. */
  function Delete<K(==), V>(d: Dict<K, V>, k: K): (r: Dict<K, V>)
    ensures k in Keys(d) ==> r == d[..IndexOf(d, k)] + d[IndexOf(d, k) + 1..]
    ensures k !in Keys(d) ==> r == d
    ensures forall p :: p in r ==> p in d && p.0 != k
    ensures forall p :: p in d && p.0 != k ==> p in r
    ensures forall j :: j in Keys(r) ==> j in Keys(d) && j != k
    ensures forall j :: j in Keys(d) && j != k ==> j in Keys(r)
  {
    var i := IndexOf(d, k);
    if i >= 0 then
      RemoveAtKeys(d, i);
      RemoveAtMembers(d, i);
      d[..i] + d[i + 1..]
    else
      d
  }

  /** Removing the pair at `i` removes its key and keeps the others in order. */
  lemma RemoveAtKeys<K, V>(d: Dict<K, V>, i: nat)
    requires i < |d|
    ensures UniqueKeys(d[..i] + d[i + 1..])
    ensures forall j :: j in Keys(d[..i] + d[i + 1..]) <==> j in Keys(d) && j != d[i].0
  {
    var r := d[..i] + d[i + 1..];
    assert forall j :: 0 <= j < |r| ==> r[j] == d[if j < i then j else j + 1];
    forall j | j in Keys(d) && j != d[i].0 ensures j in Keys(r) {
      var m :| 0 <= m < |d| && Keys(d)[m] == j;
      assert m != i;
      assert Keys(r)[if m < i then m else m - 1] == j;
    }
    forall j | j in Keys(r) ensures j in Keys(d) && j != d[i].0 {
      var m :| 0 <= m < |r| && Keys(r)[m] == j;
      var n := if m < i then m else m + 1;
      assert Keys(d)[n] == j && n != i;
    }
  }

  /** Removing the pair at `i` keeps exactly the pairs with another key. */
  lemma RemoveAtMembers<K, V>(d: Dict<K, V>, i: nat)
    requires i < |d|
    ensures forall p :: p in d[..i] + d[i + 1..] ==> p in d && p.0 != d[i].0
    ensures forall p :: p in d && p.0 != d[i].0 ==> p in d[..i] + d[i + 1..]
  {
    var r := d[..i] + d[i + 1..];
    forall p | p in d && p.0 != d[i].0 ensures p in r {
      var j :| 0 <= j < |d| && d[j] == p;
      if j < i { assert r[j] == p; } else { assert j > i && r[j - 1] == p; }
    }
    forall p | p in r ensures p in d && p.0 != d[i].0 {
      var j :| 0 <= j < |r| && r[j] == p;
      var m := if j < i then j else j + 1;
      assert r[j] == d[m] && m != i;
    }
  }

  /** The pairs after the first of a dictionary form a dictionary without the first key. */
  lemma TailUnique<K, V>(d: seq<(K, V)>)
    requires |d| > 0
    ensures UniqueKeys(d) ==> UniqueKeys(d[1..]) && forall p :: p in d[1..] ==> p.0 != d[0].0
  {
    if UniqueKeys(d) {
      forall p | p in d[1..] ensures p.0 != d[0].0 {
        var j :| 0 <= j < |d[1..]| && d[1..][j] == p;
        assert d[j + 1] == p;
      }
    }
  }

  /** A pair put in front of a dictionary that lacks its key gives a dictionary. */
  lemma ConsUnique<K, V>(h: (K, V), d: seq<(K, V)>)
    requires UniqueKeys(d) && forall p :: p in d ==> p.0 != h.0
    ensures UniqueKeys([h] + d)
  {
    var r := [h] + d;
    forall i, j | 0 <= i < j < |r| ensures r[i].0 != r[j].0 {
      assert r[j] == d[j - 1] && r[j] in d;
      if i > 0 { assert r[i] == d[i - 1]; }
    }
  }

  /** The members of a non-empty sequence are those of all but its last element, and the last. */
  lemma InInitOrLast<T>(s: seq<T>)
    requires |s| > 0
    ensures forall x :: x in s <==> x in s[..|s| - 1] || x == s[|s| - 1]
  {
    assert s == s[..|s| - 1] + [s[|s| - 1]];
  }

  /** A sequence without members is empty. */
  lemma NoMemberEmpty<T>(s: seq<T>)
    ensures (forall x :: x !in s) ==> s == []
  {
    if |s| > 0 {
      assert s[0] in s;
    }
  }

  /** The mapping a dictionary denotes: what Python's `==` on plain dicts compares. */
  function ToMap<K(==), V>(d: seq<(K, V)>): map<K, V>
  {
    map k | k in Keys(d) :: Get(d, k)
  }
}
