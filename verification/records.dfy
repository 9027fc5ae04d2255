/** A JavaScript object with string keys, as the generators use it: an
    association list whose keys are distinct and kept in insertion order
    (the order in which `Object.keys` and `for … in` visit them). */
module Records {
  import opened Wrappers

  type Record<V> = seq<(string, V)>

  predicate Distinct<T(==)>(s: seq<T>) {
    forall i, j :: 0 <= i < j < |s| ==> s[i] != s[j]
  }

  /** A prefix of a list without repetitions has none either, and shares no
      element with the rest. */
  lemma DistinctSplit<T>(a: seq<T>, b: seq<T>)
    requires Distinct(a + b)
    ensures Distinct(a) && Distinct(b)
    ensures forall x :: x in a ==> x !in b
  {
    var s := a + b;
    forall i, j | 0 <= i < j < |a| ensures a[i] != a[j] {
      assert s[i] == a[i] && s[j] == a[j];
    }
    forall i, j | 0 <= i < j < |b| ensures b[i] != b[j] {
      assert s[|a| + i] == b[i] && s[|a| + j] == b[j];
    }
    forall x | x in a ensures x !in b {
      var i :| 0 <= i < |a| && a[i] == x;
      forall j | 0 <= j < |b| ensures b[j] != x {
        assert s[i] == x && s[|a| + j] == b[j];
      }
    }
  }

  /** `Object.keys`. */
  function Keys<V>(m: Record<V>): (ks: seq<string>)
    ensures |ks| == |m|
    ensures forall i :: 0 <= i < |m| ==> ks[i] == m[i].0
  {
    seq(|m|, i requires 0 <= i < |m| => m[i].0)
  }

  predicate WellFormed<V>(m: Record<V>) {
    forall i, j :: 0 <= i < j < |m| ==> m[i].0 != m[j].0
  }

  /** `m[k]`, with `None` standing for `undefined`. */
  function Get<V>(m: Record<V>, k: string): (r: Option<V>)
    ensures r.None? <==> k !in Keys(m)
    ensures r.Some? ==> (k, r.value) in m
  {
    if |m| == 0 then None
    else if m[0].0 == k then Some(m[0].1)
    else
      assert forall i :: 1 <= i < |m| ==> m[i] == m[1..][i - 1];
      assert Keys(m) == [m[0].0] + Keys(m[1..]);
      Get(m[1..], k)
  }

  /** In a well-formed record every entry is what its key reads. */
  lemma {:induction false} GetAt<V>(m: Record<V>, i: nat)
    requires WellFormed(m) && i < |m|
    ensures Get(m, m[i].0) == Some(m[i].1)
  {
    if i > 0 {
      assert m[0].0 != m[i].0;
      assert m[1..][i - 1] == m[i];
      GetAt(m[1..], i - 1);
    }
  }

  /** The position of a key in a record. */
  function IndexOf<V>(m: Record<V>, k: string): (p: nat)
    requires k in Keys(m)
    ensures p < |m| && m[p].0 == k
  {
    if m[0].0 == k then 0
    else
      assert k in Keys(m[1..]) by {
        var i :| 0 <= i < |m| && Keys(m)[i] == k;
        assert Keys(m[1..])[i - 1] == k;
      }
      1 + IndexOf(m[1..], k)
  }

  /** `m[k] = v`: an existing key keeps its position and takes the new
      value; a new key goes to the end. */
  function Put<V>(m: Record<V>, k: string, v: V): (r: Record<V>)
    requires WellFormed(m)
    ensures k !in Keys(m) ==> r == m + [(k, v)]
    ensures k in Keys(m) ==> |r| == |m|
    ensures forall i :: 0 <= i < |m| ==> r[i] == (if m[i].0 == k then (k, v) else m[i])
  {
    if k in Keys(m) then m[IndexOf(m, k) := (k, v)]
    else
      assert forall i :: 0 <= i < |m| ==> Keys(m)[i] != k;
      m + [(k, v)]
  }

  /** Assignment keeps the keys distinct and keeps their order; a new key
      is appended. */
  lemma PutKeys<V>(m: Record<V>, k: string, v: V)
    requires WellFormed(m)
    ensures WellFormed(Put(m, k, v))
    ensures k in Keys(m) ==> Keys(Put(m, k, v)) == Keys(m)
    ensures k !in Keys(m) ==> Keys(Put(m, k, v)) == Keys(m) + [k]
  {
    var r := Put(m, k, v);
    if k in Keys(m) {
      assert |r| == |m|;
      assert forall i :: 0 <= i < |m| ==> r[i].0 == m[i].0;
      assert Keys(r) == Keys(m);
    } else {
      assert forall i :: 0 <= i < |m| ==> Keys(m)[i] != k;
      assert forall i :: 0 <= i < |m| ==> m[i].0 != k;
      assert r == m + [(k, v)];
      assert Keys(r) == Keys(m) + [k];
    }
  }

  /** After `m[k] = v`, reading `k` gives `v`. */
  lemma PutGetSame<V>(m: Record<V>, k: string, v: V)
    requires WellFormed(m)
    ensures Get(Put(m, k, v), k) == Some(v)
  {
    var r := Put(m, k, v);
    PutKeys(m, k, v);
    if k in Keys(m) {
      var p :| 0 <= p < |m| && Keys(m)[p] == k;
      GetAt(r, p);
    } else {
      GetAt(r, |m|);
    }
  }

  /** After `m[k] = v`, every other key reads as before. */
  lemma PutGetOther<V>(m: Record<V>, k: string, v: V, k': string)
    requires WellFormed(m) && k' != k
    ensures Get(Put(m, k, v), k') == Get(m, k')
  {
    var r := Put(m, k, v);
    PutKeys(m, k, v);
    if k' in Keys(m) {
      var p :| 0 <= p < |m| && Keys(m)[p] == k';
      GetAt(r, p);
      GetAt(m, p);
    } else {
      assert k' !in Keys(r);
    }
  }

  /** The number of positions of `s` whose element satisfies `p`. */
  function CountWhere<T>(s: seq<T>, p: T -> bool): nat
  {
    |set i | 0 <= i < |s| && p(s[i])|
  }

  /** Appending one element adds one to the count exactly when it satisfies `p`. */
  lemma CountSnoc<T>(s: seq<T>, x: T, p: T -> bool)
    ensures CountWhere(s + [x], p) == CountWhere(s, p) + (if p(x) then 1 else 0)
  {
    var t := s + [x];
    var a := set i | 0 <= i < |s| && p(s[i]);
    var b := set i | 0 <= i < |t| && p(t[i]);
    if p(x) {
      assert b == a + {|s|};
    } else {
      assert b == a;
    }
  }

  /** `s.map(f)`. */
  function Map<T, U>(s: seq<T>, f: T -> U): (r: seq<U>)
    ensures |r| == |s| && forall i :: 0 <= i < |s| ==> r[i] == f(s[i])
  {
    seq(|s|, i requires 0 <= i < |s| => f(s[i]))
  }

  /** The same two facts, read off a non-empty list's last element. */
  lemma CountLast<T>(s: seq<T>, p: T -> bool)
    requires |s| > 0
    ensures CountWhere(s, p) == CountWhere(s[..|s| - 1], p) + (if p(s[|s| - 1]) then 1 else 0)
  {
    assert s == s[..|s| - 1] + [s[|s| - 1]];
    CountSnoc(s[..|s| - 1], s[|s| - 1], p);
  }

  lemma MapLast<T, U>(s: seq<T>, f: T -> U)
    requires |s| > 0
    ensures Map(s, f)[..|s| - 1] == Map(s[..|s| - 1], f)
    ensures Map(s, f)[|s| - 1] == f(s[|s| - 1])
  {
  }

  lemma MapSnoc<T, U>(s: seq<T>, x: T, f: T -> U)
    ensures Map(s + [x], f) == Map(s, f) + [f(x)]
  {
  }

  /** String concatenation of a sequence of pieces. */
  function Concat(parts: seq<string>): string
  {
    if |parts| == 0 then "" else Concat(parts[..|parts| - 1]) + parts[|parts| - 1]
  }

  function Sum(xs: seq<nat>): nat
  {
    if |xs| == 0 then 0 else Sum(xs[..|xs| - 1]) + xs[|xs| - 1]
  }

  /** The keys of a well-formed record are distinct. */
  lemma KeysDistinct<V>(m: Record<V>)
    requires WellFormed(m)
    ensures Distinct(Keys(m))
  {
  }

  lemma ConcatSnoc(parts: seq<string>, x: string)
    ensures Concat(parts + [x]) == Concat(parts) + x
  {
    assert (parts + [x])[..|parts|] == parts;
  }

  lemma SumSnoc(xs: seq<nat>, x: nat)
    ensures Sum(xs + [x]) == Sum(xs) + x
  {
    assert (xs + [x])[..|xs|] == xs;
  }

  /** `.flat()`: the lists one after another. */
  function Flatten<T>(xss: seq<seq<T>>): seq<T>
  {
    if |xss| == 0 then [] else Flatten(xss[..|xss| - 1]) + xss[|xss| - 1]
  }

  lemma FlattenSnoc<T>(xss: seq<seq<T>>, xs: seq<T>)
    ensures Flatten(xss + [xs]) == Flatten(xss) + xs
  {
    assert (xss + [xs])[..|xss|] == xss;
  }

  /** Every element of each list is in the flattened list. */
  lemma {:induction false} FlattenHas<T>(xss: seq<seq<T>>, i: nat, x: T)
    requires i < |xss| && x in xss[i]
    ensures x in Flatten(xss)
  {
    var n := |xss| - 1;
    if i < n {
      FlattenHas(xss[..n], i, x);
    }
  }

  /** Every element of the flattened list comes from one of the lists. */
  lemma {:induction false} FlattenFrom<T>(xss: seq<seq<T>>, x: T) returns (i: nat)
    requires x in Flatten(xss)
    ensures i < |xss| && x in xss[i]
  {
    var n := |xss| - 1;
    if x in xss[n] {
      i := n;
    } else {
      i := FlattenFrom(xss[..n], x);
    }
  }
}
