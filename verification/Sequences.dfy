/** Notions about sequences shared by several parts of the model. */
module Sequences {

  ghost predicate Distinct<T(!new)>(s: seq<T>) {
    forall i, j :: 0 <= i < j < |s| ==> s[i] != s[j]
  }

  ghost predicate Ascending(s: seq<int>) {
    forall i, j :: 0 <= i < j < |s| ==> s[i] < s[j]
  }

  lemma ExtendAscending(s: seq<int>, v: int)
    requires Ascending(s) && (s == [] || s[|s| - 1] < v)
    ensures Ascending(s + [v])
  {
    forall i, j | 0 <= i < j < |s + [v]| ensures (s + [v])[i] < (s + [v])[j] {
      assert s[i] <= s[|s| - 1];
    }
  }

  ghost function Elements<T>(s: seq<T>): set<T> {
    set v | v in s
  }

  lemma {:induction false} DistinctSize<T(!new)>(s: seq<T>)
    requires Distinct(s)
    ensures |Elements(s)| == |s|
  {
    if s == [] {
    } else {
      var k := |s| - 1;
      DistinctSize(s[..k]);
      assert s == s[..k] + [s[k]];
      assert s[k] !in Elements(s[..k]);
      assert Elements(s) == Elements(s[..k]) + {s[k]};
    }
  }

  function Below(n: nat): (s: set<nat>)
    ensures forall i :: i in s <==> 0 <= i < n
    ensures |s| == n
  {
    if n == 0 then {} else Below(n - 1) + {n - 1}
  }

  lemma {:induction false} SubsetSize<T>(a: set<T>, b: set<T>)
    requires a <= b
    ensures |a| <= |b|
    ensures |a| == |b| ==> a == b
  {
    assert |b - a| == |b| - |a|;
  }

  /** Different positions below `n`: fewer than `n` leave one out, `n` of them are all. */
  lemma Pigeonhole(s: seq<nat>, n: nat)
    requires Distinct(s) && forall k :: 0 <= k < |s| ==> s[k] < n
    ensures |s| <= n
    ensures |s| < n ==> exists i: nat :: i < n && i !in s
    ensures |s| == n ==> forall i: nat :: i < n ==> i in s
  {
    DistinctSize<nat>(s);
    var e := Elements<nat>(s);
    SubsetSize(e, Below(n));
    if |s| < n {
      assert Below(n) - e != {} by {
        assert |Below(n) - e| == n - |e|;
      }
      var i :| i in Below(n) - e;
      assert i !in s;
    } else {
      forall i: nat | i < n ensures i in s {
        assert i in e;
      }
    }
  }

  /** An order in which a set may be traversed. */
  ghost predicate Traverses<T(!new)>(order: seq<T>, keys: set<T>) {
    Distinct(order) && forall k :: k in order <==> k in keys
  }

  lemma {:induction false} SomeOrder<T(!new)>(keys: set<T>) returns (order: seq<T>)
    ensures Traverses(order, keys)
    decreases |keys|
  {
    if keys == {} {
      order := [];
    } else {
      var k :| k in keys;
      order := SomeOrder(keys - {k});
      order := order + [k];
    }
  }
}
