/**
 * The algebra the protocols compute in, stated as laws over records of functions.
 * The concrete curves are not part of this model; the laws below are everything
 * that is used about them. The laws are quantified with triggers that mention
 * nothing else, so that they are applied only where a proof names them.
 */
module Algebra {

  ghost predicate Use<T>(a: T) { true }

  ghost predicate Use2<S, T>(a: S, b: T) { true }

  ghost predicate Use3<S, T, U>(a: S, b: T, c: U) { true }

  /** A commutative group, written additively. */
  datatype Group<!G(!new)> = Group(zero: G, add: (G, G) -> G, neg: G -> G)
  {
    ghost predicate Laws() {
      && (forall a, b {:trigger Use2(a, b)} :: add(a, b) == add(b, a))
      && (forall a, b, c {:trigger Use3(a, b, c)} :: add(add(a, b), c) == add(a, add(b, c)))
      && (forall a {:trigger Use(a)} :: add(a, zero) == a && add(a, neg(a)) == zero)
    }

    /** `k` copies of `x` added up. */
    function Times(k: nat, x: G): G {
      if k == 0 then zero else add(Times(k - 1, x), x)
    }

    function Sub(a: G, b: G): G {
      add(a, neg(b))
    }

    lemma Comm(a: G, b: G)
      requires Laws()
      ensures add(a, b) == add(b, a)
    {
      assert Use2(a, b);
    }

    lemma Assoc(a: G, b: G, c: G)
      requires Laws()
      ensures add(add(a, b), c) == add(a, add(b, c))
    {
      assert Use3(a, b, c);
    }

    lemma Unit(a: G)
      requires Laws()
      ensures add(a, zero) == a && add(zero, a) == a
    {
      assert Use(a);
      Comm(a, zero);
    }

    /** (a + b) + (c + d) regrouped. */
    lemma Swap(a: G, b: G, c: G, d: G)
      requires Laws()
      ensures add(add(a, b), add(c, d)) == add(add(a, c), add(b, d))
    {
      Assoc(a, b, add(c, d));
      Assoc(b, c, d);
      Comm(b, c);
      Assoc(c, b, d);
      Assoc(a, c, add(b, d));
    }

    lemma Cancel(a: G, b: G)
      requires Laws() && add(a, b) == b
      ensures a == zero
    {
      Assoc(a, b, neg(b));
      assert Use(b);
      Unit(a);
    }

    /** What is added and taken away again leaves nothing. */
    lemma AddSub(a: G, b: G)
      requires Laws()
      ensures Sub(add(a, b), b) == a
    {
      Assoc(a, b, neg(b));
      assert Use(b);
      Unit(a);
    }

    lemma {:induction false} TimesAdd(j: nat, k: nat, x: G)
      requires Laws()
      ensures Times(j + k, x) == add(Times(j, x), Times(k, x))
    {
      if k == 0 {
        Unit(Times(j, x));
      } else {
        TimesAdd(j, k - 1, x);
        Assoc(Times(j, x), Times(k - 1, x), x);
      }
    }

    lemma {:induction false} TimesMul(j: nat, k: nat, x: G)
      requires Laws()
      ensures Times(j * k, x) == Times(j, Times(k, x))
    {
      if j == 0 {
        assert j * k == 0;
      } else {
        TimesMul(j - 1, k, x);
        assert j * k == (j - 1) * k + k;
        TimesAdd((j - 1) * k, k, x);
      }
    }

    lemma {:induction false} TimesSum(k: nat, x: G, y: G)
      requires Laws()
      ensures Times(k, add(x, y)) == add(Times(k, x), Times(k, y))
    {
      if k == 0 {
        Unit(zero);
      } else {
        TimesSum(k - 1, x, y);
        Swap(Times(k - 1, x), Times(k - 1, y), x, y);
      }
    }

    lemma {:induction false} TimesZero(k: nat)
      requires Laws()
      ensures Times(k, zero) == zero
    {
      if k == 0 {
      } else {
        TimesZero(k - 1);
        Unit(zero);
      }
    }
  
    /** f(0) + ... + f(k - 1). */
    function Sum(f: nat -> G, k: nat): G {
      if k == 0 then zero else add(Sum(f, k - 1), f(k - 1))
    }

    lemma {:induction false} SumAgree(f: nat -> G, h: nat -> G, k: nat)
      requires forall i: nat :: i < k ==> f(i) == h(i)
      ensures Sum(f, k) == Sum(h, k)
    {
      if k == 0 {
      } else {
        SumAgree(f, h, k - 1);
      }
    }

    lemma {:induction false} SumOfSums(f: nat -> G, h: nat -> G, k: nat)
      requires Laws()
      ensures Sum((i: nat) => add(f(i), h(i)), k) == add(Sum(f, k), Sum(h, k))
    {
      if k == 0 {
        Unit(zero);
      } else {
        SumOfSums(f, h, k - 1);
        Swap(Sum(f, k - 1), Sum(h, k - 1), f(k - 1), h(k - 1));
      }
    }

    lemma {:induction false} TimesOfSum(c: nat, f: nat -> G, k: nat)
      requires Laws()
      ensures Times(c, Sum(f, k)) == Sum((i: nat) => Times(c, f(i)), k)
    {
      if k == 0 {
        TimesZero(c);
      } else {
        TimesOfSum(c, f, k - 1);
        TimesSum(c, Sum(f, k - 1), f(k - 1));
      }
    }

    lemma {:induction false} SumOfZeros(k: nat)
      requires Laws()
      ensures Sum((i: nat) => zero, k) == zero
    {
      if k == 0 {
      } else {
        SumOfZeros(k - 1);
        Unit(zero);
      }
    }

    /** A double sum may be taken by rows or by columns. */
    lemma {:induction false} SumExchange(f: (nat, nat) -> G, a: nat, b: nat)
      requires Laws()
      ensures Sum((i: nat) => Sum((j: nat) => f(i, j), b), a) == Sum((j: nat) => Sum((i: nat) => f(i, j), a), b)
    {
      if a == 0 {
        SumOfZeros(b);
        SumAgree((j: nat) => Sum((i: nat) => f(i, j), 0), (j: nat) => zero, b);
      } else {
        SumExchange(f, a - 1, b);
        var row := (j: nat) => f(a - 1, j);
        var above := (j: nat) => Sum((i: nat) => f(i, j), a - 1);
        SumOfSums(above, row, b);
        SumAgree((j: nat) => Sum((i: nat) => f(i, j), a), (j: nat) => add(above(j), row(j)), b);
        SumAgree((j: nat) => f(a - 1, j), row, b);
      }
    }
  }

  /** A pairing of two groups into a third: additive in both arguments. */
  datatype Pairing<!A(!new), !B(!new), !T(!new)> =
    Pairing(g1: Group<A>, g2: Group<B>, gt: Group<T>, e: (A, B) -> T)
  {
    ghost predicate Laws() {
      && g1.Laws() && g2.Laws() && gt.Laws()
      && (forall a, b, q {:trigger Use3(a, b, q)} :: e(g1.add(a, b), q) == gt.add(e(a, q), e(b, q)))
      && (forall p, a, b {:trigger Use3(p, a, b)} :: e(p, g2.add(a, b)) == gt.add(e(p, a), e(p, b)))
    }

    lemma AddLeft(a: A, b: A, q: B)
      requires Laws()
      ensures e(g1.add(a, b), q) == gt.add(e(a, q), e(b, q))
    {
      assert Use3(a, b, q);
    }

    lemma AddRight(p: A, a: B, b: B)
      requires Laws()
      ensures e(p, g2.add(a, b)) == gt.add(e(p, a), e(p, b))
    {
      assert Use3(p, a, b);
    }

    lemma ZeroLeft(q: B)
      requires Laws()
      ensures e(g1.zero, q) == gt.zero
    {
      AddLeft(g1.zero, g1.zero, q);
      g1.Unit(g1.zero);
      gt.Cancel(e(g1.zero, q), e(g1.zero, q));
    }

    lemma ZeroRight(p: A)
      requires Laws()
      ensures e(p, g2.zero) == gt.zero
    {
      AddRight(p, g2.zero, g2.zero);
      g2.Unit(g2.zero);
      gt.Cancel(e(p, g2.zero), e(p, g2.zero));
    }

    lemma {:induction false} TimesLeft(k: nat, p: A, q: B)
      requires Laws()
      ensures e(g1.Times(k, p), q) == gt.Times(k, e(p, q))
    {
      if k == 0 {
        ZeroLeft(q);
      } else {
        TimesLeft(k - 1, p, q);
        AddLeft(g1.Times(k - 1, p), p, q);
      }
    }

    lemma {:induction false} TimesRight(k: nat, p: A, q: B)
      requires Laws()
      ensures e(p, g2.Times(k, q)) == gt.Times(k, e(p, q))
    {
      if k == 0 {
        ZeroRight(p);
      } else {
        TimesRight(k - 1, p, q);
        AddRight(p, g2.Times(k - 1, q), q);
      }
    }
  }

  /** The laws are those of real structures: the integers with multiplication as pairing satisfy them. */
  lemma IntegersSatisfyTheLaws()
    ensures exists g: Group<int> :: g.Laws() && g.Times(2, 3) == 6
    ensures exists p: Pairing<int, int, int> :: p.Laws() && p.e(2, 3) == 6
  {
    var g := Group(0, (a: int, b: int) => a + b, (a: int) => -a);
    assert g.Times(2, 3) == 6;
    var p := Pairing(g, g, g, (a: int, b: int) => a * b);
    assert p.e(2, 3) == 6;
    assert p.Laws();
  }
}
