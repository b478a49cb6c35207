/** Abelian groups and repeated addition, shared by the BabyJubjub and the ristretto255 code. */
module Groups {

  /** A carrier inside `T`, its zero and its addition. */
  datatype Group<!T> = Group(has: T -> bool, zero: T, add: (T, T) -> T)

  ghost predicate Abelian<T(!new)>(g: Group<T>) {
    && g.has(g.zero)
    && (forall p {:trigger g.add(g.zero, p)} :: g.has(p) ==> g.add(g.zero, p) == p)
    && (forall p, q {:trigger g.add(p, q)} :: g.has(p) && g.has(q) ==> g.has(g.add(p, q)) && g.add(p, q) == g.add(q, p))
    && (forall p, q, r {:trigger g.add(g.add(p, q), r)} :: g.has(p) && g.has(q) && g.has(r) ==> g.add(g.add(p, q), r) == g.add(p, g.add(q, r)))
  }

  lemma AddLaws<T(!new)>(g: Group<T>, p: T, q: T)
    requires Abelian(g) && g.has(p) && g.has(q)
    ensures g.has(g.add(p, q)) && g.add(p, q) == g.add(q, p)
    ensures g.add(g.zero, p) == p && g.add(p, g.zero) == p && g.has(g.zero)
  {
  }

  lemma AddAssociates<T(!new)>(g: Group<T>, p: T, q: T, r: T)
    requires Abelian(g) && g.has(p) && g.has(q) && g.has(r)
    ensures g.add(g.add(p, q), r) == g.add(p, g.add(q, r))
  {
  }

  /** n·p by repeated addition. */
  function Mul<T>(g: Group<T>, p: T, n: nat): T {
    if n == 0 then g.zero else g.add(Mul(g, p, n - 1), p)
  }

  lemma MulOfNext<T(!new)>(g: Group<T>, p: T, n: nat)
    ensures Mul(g, p, n + 1) == g.add(Mul(g, p, n), p)
  {
  }

  lemma {:induction false} MulInGroup<T(!new)>(g: Group<T>, p: T, n: nat)
    requires Abelian(g) && g.has(p)
    ensures g.has(Mul(g, p, n))
  {
    if n > 0 {
      MulInGroup(g, p, n - 1);
    }
  }

  lemma {:induction false} MulOfSum<T(!new)>(g: Group<T>, p: T, a: nat, b: nat)
    requires Abelian(g) && g.has(p)
    ensures Mul(g, p, a + b) == g.add(Mul(g, p, a), Mul(g, p, b))
  {
    hide Abelian;
    MulInGroup(g, p, a);
    if b == 0 {
      AddLaws(g, Mul(g, p, a), p);
    } else {
      MulOfSum(g, p, a, b - 1);
      MulInGroup(g, p, b - 1);
      AddAssociates(g, Mul(g, p, a), Mul(g, p, b - 1), p);
      assert a + (b - 1) == a + b - 1;
    }
  }

  /** (p + q) + (r + s) == (p + r) + (q + s). */
  lemma Regroup<T(!new)>(g: Group<T>, p: T, q: T, r: T, s: T)
    requires Abelian(g) && g.has(p) && g.has(q) && g.has(r) && g.has(s)
    ensures g.add(g.add(p, q), g.add(r, s)) == g.add(g.add(p, r), g.add(q, s))
  {
    hide Abelian;
    AddLaws(g, r, s);
    AddLaws(g, q, r);
    AddLaws(g, q, s);
    AddAssociates(g, p, q, g.add(r, s));
    AddAssociates(g, q, r, s);
    AddAssociates(g, r, q, s);
    AddAssociates(g, p, r, g.add(q, s));
  }

  lemma {:induction false} MulOfAdd<T(!new)>(g: Group<T>, p: T, q: T, n: nat)
    requires Abelian(g) && g.has(p) && g.has(q)
    ensures Mul(g, g.add(p, q), n) == g.add(Mul(g, p, n), Mul(g, q, n))
  {
    hide Abelian;
    AddLaws(g, p, q);
    if n == 0 {
      AddLaws(g, g.zero, g.zero);
    } else {
      MulOfAdd(g, p, q, n - 1);
      MulInGroup(g, p, n - 1);
      MulInGroup(g, q, n - 1);
      Regroup(g, Mul(g, p, n - 1), Mul(g, q, n - 1), p, q);
    }
  }

  lemma {:induction false} MulOfProduct<T(!new)>(g: Group<T>, p: T, a: nat, b: nat)
    requires Abelian(g) && g.has(p)
    ensures Mul(g, p, a * b) == Mul(g, Mul(g, p, a), b)
  {
    hide Abelian;
    if b == 0 {
      assert a * b == 0;
    } else {
      MulOfProduct(g, p, a, b - 1);
      assert a * b == a * (b - 1) + a;
      MulOfSum(g, p, a * (b - 1), a);
    }
  }

  lemma {:induction false} MulOfZero<T(!new)>(g: Group<T>, n: nat)
    requires Abelian(g)
    ensures Mul(g, g.zero, n) == g.zero
  {
    if n > 0 {
      MulOfZero(g, n - 1);
      AddLaws(g, g.zero, g.zero);
    }
  }
}
