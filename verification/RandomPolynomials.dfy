/**
 * One step of `XorShift32` is linear over the field with two elements, so a number of steps acts as a
 * polynomial in one step, and squaring such a polynomial only spreads its coefficients.
 */
module RandomPolynomials {
  import opened RandomSpec

  // ---------------------------------------------------------------------------------------------
  // Steps are linear

  function Plus(a: bv32, b: bv32): bv32 {
    a ^ b
  }

  lemma PlusZero(a: bv32)
    ensures Plus(a, 0) == a && Plus(0, a) == a
  {
  }

  lemma PlusIs(a: bv32, b: bv32)
    ensures Plus(a, b) == a ^ b
  {
  }

  lemma PlusCommutes(a: bv32, b: bv32)
    ensures Plus(a, b) == Plus(b, a)
  {
  }

  lemma PlusAssociates(a: bv32, b: bv32, c: bv32)
    ensures Plus(Plus(a, b), c) == Plus(a, Plus(b, c))
  {
    assert (a ^ b) ^ c == a ^ (b ^ c);
  }

  lemma PlusSwaps(a: bv32, b: bv32, c: bv32, d: bv32)
    ensures Plus(Plus(a, b), Plus(c, d)) == Plus(Plus(a, c), Plus(b, d))
  {
    hide *;
    PlusAssociates(a, b, Plus(c, d));
    PlusAssociates(b, c, d);
    PlusCommutes(b, c);
    PlusAssociates(c, b, d);
    PlusAssociates(a, c, Plus(b, d));
  }

  function Up13(v: bv32): bv32 {
    v << 13
  }

  lemma Up13Adds(a: bv32, b: bv32)
    ensures Up13(Plus(a, b)) == Plus(Up13(a), Up13(b))
  {
    assert Up13(a ^ b) == (a << 13) ^ (b << 13);
  }

  lemma Left13Splits(v: bv32)
    ensures Left13(v) == Plus(v, Up13(v))
  {
    assert Up13(v) == v << 13;
    hide *;
    Left13Is(v);
    PlusIs(v, v << 13);
  }

  lemma Left13Adds(a: bv32, b: bv32)
    ensures Left13(Plus(a, b)) == Plus(Left13(a), Left13(b))
  {
    hide *;
    Left13Splits(a);
    Left13Splits(b);
    Left13Splits(Plus(a, b));
    Up13Adds(a, b);
    PlusSwaps(a, b, Up13(a), Up13(b));
  }

  function Down17(v: bv32): bv32 {
    v >> 17
  }

  lemma Down17Adds(a: bv32, b: bv32)
    ensures Down17(Plus(a, b)) == Plus(Down17(a), Down17(b))
  {
    assert Down17(a ^ b) == (a >> 17) ^ (b >> 17);
  }

  lemma Right17Splits(v: bv32)
    ensures Right17(v) == Plus(v, Down17(v))
  {
    assert Down17(v) == v >> 17;
    hide *;
    Right17Is(v);
    PlusIs(v, v >> 17);
  }

  lemma Right17Adds(a: bv32, b: bv32)
    ensures Right17(Plus(a, b)) == Plus(Right17(a), Right17(b))
  {
    hide *;
    Right17Splits(a);
    Right17Splits(b);
    Right17Splits(Plus(a, b));
    Down17Adds(a, b);
    PlusSwaps(a, b, Down17(a), Down17(b));
  }

  function Up5(v: bv32): bv32 {
    v << 5
  }

  lemma Up5Adds(a: bv32, b: bv32)
    ensures Up5(Plus(a, b)) == Plus(Up5(a), Up5(b))
  {
    assert Up5(a ^ b) == (a << 5) ^ (b << 5);
  }

  lemma Left5Splits(v: bv32)
    ensures Left5(v) == Plus(v, Up5(v))
  {
    assert Up5(v) == v << 5;
    hide *;
    Left5Is(v);
    PlusIs(v, v << 5);
  }

  lemma Left5Adds(a: bv32, b: bv32)
    ensures Left5(Plus(a, b)) == Plus(Left5(a), Left5(b))
  {
    hide *;
    Left5Splits(a);
    Left5Splits(b);
    Left5Splits(Plus(a, b));
    Up5Adds(a, b);
    PlusSwaps(a, b, Up5(a), Up5(b));
  }

  /** A step of a sum is the sum of the steps. */
  lemma StepAdds(a: bv32, b: bv32)
    ensures Shift32(Plus(a, b)) == Plus(Shift32(a), Shift32(b))
  {
    hide Left13, Right17, Left5, Plus;
    Left13Adds(a, b);
    Right17Adds(Left13(a), Left13(b));
    Left5Adds(Right17(Left13(a)), Right17(Left13(b)));
  }

  /** The state after `n` steps. */
  function Iter(v: bv32, n: nat): bv32 {
    if n == 0 then v else Shift32(Iter(v, n - 1))
  }

  lemma {:induction false} IterIsRun(v: bv32, n: nat)
    ensures Run(XorShift32(v), n) == XorShift32(Iter(v, n))
  {
    hide Shift32;
    if n > 0 {
      IterIsRun(v, n - 1);
      StepAfterRun(XorShift32(v), n - 1);
    }
  }

  lemma {:induction false} IterAdds(v: bv32, m: nat, n: nat)
    ensures Iter(v, m + n) == Iter(Iter(v, n), m)
    decreases m
  {
    hide Shift32;
    if m > 0 {
      IterAdds(v, m - 1, n);
    }
  }

  lemma {:induction false} IterPlus(a: bv32, b: bv32, n: nat)
    ensures Iter(Plus(a, b), n) == Plus(Iter(a, n), Iter(b, n))
    decreases n
  {
    hide Shift32, Plus;
    if n > 0 {
      IterPlus(a, b, n - 1);
      StepAdds(Iter(a, n - 1), Iter(b, n - 1));
    }
  }

  lemma {:induction false} IterOfZero(n: nat)
    ensures Iter(0, n) == 0
    decreases n
  {
    ZeroStays();
    hide Shift32;
    if n > 0 {
      IterOfZero(n - 1);
    }
  }

  // ---------------------------------------------------------------------------------------------
  // Polynomials, bit `i` being the coefficient of `x^i`, and what they do to a state

  function Half(q: bv32): bv32 {
    q >> 1
  }

  predicate IsOdd(q: bv32) {
    q & 1 == 1
  }

  function Pick(q: bv32, v: bv32): bv32 {
    if IsOdd(q) then v else 0
  }

  /** The sum of the states that `q` picks, where `x^i` stands for `i * d` steps. */
  function Act(q: bv32, v: bv32, d: nat): bv32
    decreases q
  {
    if q == 0 then 0 else Plus(Pick(q, v), Iter(Act(Half(q), v, d), d))
  }

  lemma ActUnfolds(q: bv32, v: bv32, d: nat)
    ensures Act(q, v, d) == Plus(Pick(q, v), Iter(Act(Half(q), v, d), d))
  {
    hide Iter;
    if q == 0 {
      IterOfZero(d);
      assert Half(0) == 0;
    }
  }

  lemma HalfIsLess(q: bv32)
    requires q != 0
    ensures Half(q) < q
  {
  }

  lemma PlusSelf(v: bv32)
    ensures Plus(v, v) == 0
  {
  }

  lemma PickIters(q: bv32, v: bv32, n: nat)
    ensures Pick(q, Iter(v, n)) == Iter(Pick(q, v), n)
  {
    hide Iter;
    IterOfZero(n);
  }

  lemma PicksAdd(q: bv32, a: bv32, b: bv32)
    ensures Pick(q, Plus(a, b)) == Plus(Pick(q, a), Pick(q, b))
  {
    hide Plus, IsOdd;
    PlusZero(0);
  }

  lemma PickTwice(q: bv32, v: bv32)
    ensures Pick(q, Pick(q, v)) == Pick(q, v)
  {
  }

  lemma IterSwaps(v: bv32, m: nat, n: nat)
    ensures Iter(Iter(v, m), n) == Iter(Iter(v, n), m)
  {
    hide Iter;
    IterAdds(v, m, n);
    IterAdds(v, n, m);
  }

  /** Acting commutes with steps. */
  lemma {:induction false} ActIters(q: bv32, v: bv32, d: nat, n: nat)
    ensures Act(q, Iter(v, n), d) == Iter(Act(q, v, d), n)
    decreases q
  {
    if q == 0 {
      hide Iter;
      IterOfZero(n);
    } else {
      HalfIsLess(q);
      hide *;
      ActIters(Half(q), v, d, n);
      ActUnfolds(q, v, d);
      ActUnfolds(q, Iter(v, n), d);
      PickIters(q, v, n);
      IterSwaps(Act(Half(q), v, d), n, d);
      IterPlus(Pick(q, v), Iter(Act(Half(q), v, d), d), n);
    }
  }

  /** Acting on a sum. */
  lemma {:induction false} ActAdds(q: bv32, a: bv32, b: bv32, d: nat)
    ensures Act(q, Plus(a, b), d) == Plus(Act(q, a, d), Act(q, b, d))
    decreases q
  {
    if q == 0 {
      PlusZero(0);
    } else {
      HalfIsLess(q);
      hide *;
      ActAdds(Half(q), a, b, d);
      ActUnfolds(q, a, d);
      ActUnfolds(q, b, d);
      ActUnfolds(q, Plus(a, b), d);
      PicksAdd(q, a, b);
      IterPlus(Act(Half(q), a, d), Act(Half(q), b, d), d);
      PlusSwaps(Pick(q, a), Pick(q, b), Iter(Act(Half(q), a, d), d), Iter(Act(Half(q), b, d), d));
    }
  }

  lemma {:induction false} ActOfZero(q: bv32, d: nat)
    ensures Act(q, 0, d) == 0
    decreases q
  {
    if q != 0 {
      HalfIsLess(q);
      PlusZero(0);
      hide Iter, Plus, Half;
      IterOfZero(d);
      ActOfZero(Half(q), d);
    }
  }

  lemma ActOfPick(q: bv32, r: bv32, v: bv32, d: nat)
    ensures Act(q, Pick(r, v), d) == Pick(r, Act(q, v, d))
  {
    hide IsOdd, Act;
    ActOfZero(q, d);
  }

  /** The middle terms of a square cancel. */
  lemma Cancels(p: bv32, m: bv32, s: bv32)
    ensures Plus(Plus(p, m), Plus(m, s)) == Plus(p, s)
  {
    hide *;
    PlusAssociates(p, m, Plus(m, s));
    PlusAssociates(m, m, s);
    PlusSelf(m);
    PlusZero(s);
  }

  /** Squaring only spreads the coefficients: acting twice is acting once with steps twice as long. */
  lemma {:induction false} ActTwice(q: bv32, v: bv32, d: nat)
    ensures Act(q, Act(q, v, d), d) == Act(q, v, 2 * d)
    decreases q
  {
    if q != 0 {
      HalfIsLess(q);
      hide *;
      var h, p := Half(q), Pick(q, v);
      var w := Act(h, v, d);
      ActTwice(h, v, d);
      ActUnfolds(q, v, d);
      ActUnfolds(q, Plus(p, Iter(w, d)), d);
      PicksAdd(q, p, Iter(w, d));
      PickTwice(q, v);
      ActAdds(h, p, Iter(w, d), d);
      ActOfPick(h, q, v, d);
      ActIters(h, w, d, d);
      IterPlus(Pick(q, w), Iter(Act(h, w, d), d), d);
      PickIters(q, w, d);
      IterAdds(Act(h, w, d), d, d);
      Cancels(p, Iter(Pick(q, w), d), Iter(Iter(Act(h, w, d), d), d));
      ActUnfolds(q, v, 2 * d);
    }
  }

  /** `q` acts as `m` steps. */
  ghost predicate IsPower(q: bv32, m: nat) {
    Act(q, 1, 1) == Iter(1, m)
  }

  lemma PowerDoubles(q: bv32, m: nat, d: nat)
    requires Act(q, 1, d) == Iter(1, d * m)
    ensures Act(q, 1, 2 * d) == Iter(1, 2 * (d * m))
  {
    hide *;
    ActTwice(q, 1, d);
    ActIters(q, 1, d, d * m);
    IterAdds(1, d * m, d * m);
  }

  /** With steps sixteen times as long, sixteen times as many. */
  lemma PowerSpreads(q: bv32, m: nat)
    requires IsPower(q, m)
    ensures Act(q, 1, 16) == Iter(1, 16 * m)
  {
    hide Act, Iter;
    PowerDoubles(q, m, 1);
    PowerDoubles(q, m, 2);
    PowerDoubles(q, m, 4);
    PowerDoubles(q, m, 8);
  }
}
