/**
 * The period of `XorShift32`: every seed runs through all 2^32 - 1 nonzero states. The state 1 is back
 * after that many steps, but not after that number divided by any of its five primes.
 */
module RandomPeriod {
  import opened Bytes
  import opened RandomSpec
  import opened RandomCycles
  import opened RandomPolynomials
  import opened RandomJumps

  // ---------------------------------------------------------------------------------------------
  // When the state 1 comes back

  const PERIOD: nat := 0xffff_ffff

  ghost predicate Returns(n: nat) {
    Iter(1, n) == 1
  }

  /** Equal states are equally far from coming back. */
  lemma {:induction false} IterInjective(a: bv32, b: bv32, n: nat)
    requires Iter(a, n) == Iter(b, n)
    ensures a == b
    decreases n
  {
    if n > 0 {
      ShiftInverts(Iter(a, n - 1));
      ShiftInverts(Iter(b, n - 1));
      hide Shift32, Unshift32;
      IterInjective(a, b, n - 1);
    }
  }

  lemma ReturnsIs(n: nat)
    ensures Returns(n) <==> Iter(1, n) == 1
  {
  }

  /** Two times that lead to the same state differ by a return. */
  lemma SameStates(m: nat, n: nat)
    requires m <= n
    ensures Iter(1, m) == Iter(1, n) <==> Returns(n - m)
  {
    hide *;
    ReturnsIs(n - m);
    IterAdds(1, n - m, m);
    IterAdds(1, m, n - m);
    if Iter(1, m) == Iter(1, n) {
      IterInjective(Iter(1, n - m), 1, m);
    }
  }

  lemma ReturnsAfterPeriod()
    ensures Returns(PERIOD)
  {
    hide Iter, Returns, IsPower, Act;
    Power32();
    One();
    SameStates(1, 0x1_0000_0000);
  }

  // Not after the period divided by one of its primes.

  lemma NoReturn65537()
    ensures !Returns(65535)
  {
    hide *;
    Power16();
    One();
    SameStates(1, 65536);
  }

  lemma NoReturn257()
    ensures !Returns(255 * 65537)
  {
    hide *;
    Power65537();
    PowerShifted8();
    SameStates(65537, 256 * 65537);
  }

  lemma NoReturn17()
    ensures !Returns(15 * 257 * 65537)
  {
    hide *;
    Power257();
    Power257Shifted4();
    SameStates(257 * 65537, 16 * 257 * 65537);
  }

  lemma NoReturn5()
    ensures !Returns(3 * 17 * 257 * 65537)
  {
    hide *;
    Thrice17();
    ReturnsIs(3 * 17 * 257 * 65537);
  }

  lemma NoReturn3()
    ensures !Returns(5 * 17 * 257 * 65537)
  {
    hide *;
    Five17();
    ReturnsIs(5 * 17 * 257 * 65537);
  }

  lemma {:induction false} ReturnsTimes(d: nat, k: nat)
    requires Returns(d)
    ensures Returns(k * d)
    decreases k
  {
    hide *;
    ReturnsIs(k * d);
    ReturnsIs(d);
    if k == 0 {
      StartState();
    } else {
      ReturnsTimes(d, k - 1);
      ReturnsIs((k - 1) * d);
      TimesAdds(k - 1, 1, d);
      IterAdds(1, d, (k - 1) * d);
    }
  }

  lemma {:induction false} ReturnsMod(n: nat, d: nat)
    requires d > 0 && Returns(d) && Returns(n)
    ensures Returns(n % d)
    decreases n
  {
    hide *;
    if n >= d {
      ReturnsIs(d);
      ReturnsIs(n);
      SameStates(d, n);
      ReturnsMod(n - d, d);
      ModDrops(n, d);
    } else {
      QuotientIs(n, d, 0, n);
    }
  }

  lemma ModDrops(n: nat, d: nat)
    requires 0 < d <= n
    ensures (n - d) % d == n % d
  {
    var q, r := (n - d) / d, (n - d) % d;
    assert n - d == q * d + r;
    TimesAdds(q, 1, d);
    QuotientIs(n, d, q + 1, r);
  }

  lemma {:induction false} LeastReturn(n: nat) returns (d: nat)
    requires n > 0 && Returns(n)
    ensures 0 < d <= n && Returns(d) && forall k :: 0 < k < d ==> !Returns(k)
    decreases n
  {
    hide Returns;
    if k: nat :| 0 < k < n && Returns(k) {
      d := LeastReturn(k);
    } else {
      d := n;
    }
  }

  // ---------------------------------------------------------------------------------------------
  // The primes of the period

  ghost predicate IsPrime(p: nat) {
    p > 1 && forall g :: 1 < g < p ==> p % g != 0
  }

  predicate NoDivisor(p: nat, r: nat) {
    r < 2 || (p % r != 0 && NoDivisor(p, r - 1))
  }

  lemma {:induction false} NoDivisorAt(p: nat, r: nat, g: nat)
    requires NoDivisor(p, r) && 2 <= g <= r
    ensures p % g != 0
    decreases r
  {
    if g < r {
      NoDivisorAt(p, r - 1, g);
    }
  }

  /** Trial division up to the square root. */
  lemma PrimeBy(p: nat, r: nat)
    requires p > 1 && NoDivisor(p, r) && (r + 1) * (r + 1) > p
    ensures IsPrime(p)
  {
    hide NoDivisor;
    forall g | 1 < g < p
      ensures p % g != 0
    {
      NotDivided(p, r, g);
    }
  }

  lemma NotDivided(p: nat, r: nat, g: nat)
    requires NoDivisor(p, r) && (r + 1) * (r + 1) > p && 1 < g < p
    ensures p % g != 0
  {
    hide NoDivisor;
    if g <= r {
      NoDivisorAt(p, r, g);
    } else if p % g == 0 {
      var h := p / g;
      assert p == h * g;
      CofactorIsSmall(p, g, h, r);
      NoDivisorAt(p, r, h);
      QuotientIs(p, h, g, 0);
    }
  }

  lemma CofactorIsSmall(p: nat, g: nat, h: nat, r: nat)
    requires p == h * g && 1 < g < p && g > r && (r + 1) * (r + 1) > p
    ensures 2 <= h <= r
  {
    assert 0 * g == 0 && 1 * g == g;
    if h > r {
      TimesGrowsBoth(r + 1, r + 1, h, g);
    }
  }

  lemma TimesGrowsBoth(a: nat, b: nat, c: nat, d: nat)
    requires a <= c && b <= d
    ensures a * b <= c * d
  {
    TimesAdds(a, c - a, d);
    assert c * d == a * d + (c - a) * d;
    assert a * d == a * b + a * (d - b);
  }

  lemma Primes()
    ensures IsPrime(3) && IsPrime(5) && IsPrime(17) && IsPrime(257)
  {
    PrimeBy(3, 1);
    PrimeBy(5, 2);
    PrimeBy(17, 4);
    assert NoDivisor(257, 8);
    NoDivisorNext(257, 8);
    PrimeBy(257, 16);
  }

  lemma NoDivisorNext(p: nat, r: nat)
    requires NoDivisor(p, r)
    requires p % (r + 1) != 0 && p % (r + 2) != 0 && p % (r + 3) != 0 && p % (r + 4) != 0
    requires p % (r + 5) != 0 && p % (r + 6) != 0 && p % (r + 7) != 0 && p % (r + 8) != 0
    ensures NoDivisor(p, r + 8)
  {
    assert NoDivisor(p, r + 2);
    assert NoDivisor(p, r + 4);
    assert NoDivisor(p, r + 6);
  }

  lemma NoDivisor64()
    ensures NoDivisor(65537, 64)
  {
    assert NoDivisor(65537, 8);
    hide NoDivisor;
    NoDivisorNext(65537, 8);
    NoDivisorNext(65537, 16);
    NoDivisorNext(65537, 24);
    NoDivisorNext(65537, 32);
    NoDivisorNext(65537, 40);
    NoDivisorNext(65537, 48);
    NoDivisorNext(65537, 56);
  }

  lemma NoDivisor128()
    ensures NoDivisor(65537, 128)
  {
    hide NoDivisor;
    NoDivisor64();
    NoDivisorNext(65537, 64);
    NoDivisorNext(65537, 72);
    NoDivisorNext(65537, 80);
    NoDivisorNext(65537, 88);
    NoDivisorNext(65537, 96);
    NoDivisorNext(65537, 104);
    NoDivisorNext(65537, 112);
    NoDivisorNext(65537, 120);
  }

  lemma NoDivisor192()
    ensures NoDivisor(65537, 192)
  {
    hide NoDivisor;
    NoDivisor128();
    NoDivisorNext(65537, 128);
    NoDivisorNext(65537, 136);
    NoDivisorNext(65537, 144);
    NoDivisorNext(65537, 152);
    NoDivisorNext(65537, 160);
    NoDivisorNext(65537, 168);
    NoDivisorNext(65537, 176);
    NoDivisorNext(65537, 184);
  }

  lemma NoDivisor256()
    ensures NoDivisor(65537, 256)
  {
    hide NoDivisor;
    NoDivisor192();
    NoDivisorNext(65537, 192);
    NoDivisorNext(65537, 200);
    NoDivisorNext(65537, 208);
    NoDivisorNext(65537, 216);
    NoDivisorNext(65537, 224);
    NoDivisorNext(65537, 232);
    NoDivisorNext(65537, 240);
    NoDivisorNext(65537, 248);
  }

  lemma Prime65537()
    ensures IsPrime(65537)
  {
    hide NoDivisor;
    NoDivisor256();
    PrimeBy(65537, 256);
  }

  /** A common divisor `g` of `a` and `b` that is a combination of them. */
  lemma {:induction false} Bezout(a: nat, b: nat) returns (g: nat, x: nat, y: nat, s: int, t: int)
    requires a > 0
    ensures g > 0 && a == x * g && b == y * g && g == s * a + t * b
    decreases b
  {
    if b == 0 {
      g, x, y, s, t := a, 1, 0, 1, 0;
    } else {
      var q, r := a / b, a % b;
      var x', y', s', t';
      g, x', y', s', t' := Bezout(b, r);
      x, y, s, t := q * x' + y', x', t', s' - t' * q;
      Combines(a, b, q, r, g, x', y', s', t');
    }
  }

  lemma Combines(a: nat, b: nat, q: nat, r: nat, g: nat, x: nat, y: nat, s: int, t: int)
    requires a == q * b + r && b == x * g && r == y * g && g == s * b + t * r
    ensures a == (q * x + y) * g && g == t * a + (s - t * q) * b
  {
    assert q * (x * g) == q * x * g;
    assert t * (q * b) == t * q * b;
  }

  /** A prime that divides a product divides one of the factors. */
  lemma Euclid(p: nat, d: nat, m: nat, c: nat)
    requires IsPrime(p) && d * m == c * p && m % p != 0
    ensures exists z: nat :: d == z * p
  {
    var g, x, y, s, t := Bezout(p, m);
    hide IsPrime;
    DivisorsOfPrime(p, g, x);
    if g == p {
      QuotientIs(m, p, y, 0);
    } else {
      Resolves(p, d, m, c, s, t);
      var z := s * d + t * c;
      NotNegative(z, p);
      assert d == z * p;
    }
  }

  lemma DivisorsOfPrime(p: nat, g: nat, x: nat)
    requires IsPrime(p) && g > 0 && p == x * g
    ensures g == 1 || g == p
  {
    QuotientIs(p, g, x, 0);
    assert 0 * g == 0;
    TimesGrowsBoth(1, g, x, g);
  }

  lemma Resolves(p: nat, d: nat, m: nat, c: nat, s: int, t: int)
    requires 1 == s * p + t * m && d * m == c * p
    ensures d == (s * d + t * c) * p
  {
    assert d == d * (s * p + t * m);
    assert d * (t * m) == t * (d * m);
    assert t * (c * p) == t * c * p && d * (s * p) == s * d * p;
  }

  lemma NotNegative(z: int, p: nat)
    requires p > 0 && z * p >= 0
    ensures z >= 0
  {
  }

  /** A return that no prime of the period can be divided out of is no shorter than the period. */
  lemma AllDivide(d: nat, a: nat, b: nat, c: nat, e: nat, f: nat)
    requires d > 0 && d == a * 3 == b * 5 == c * 17 == e * 257 == f * 65537
    ensures d >= PERIOD
  {
    var z1 := 2 * b - a;
    assert d == 15 * z1;
    var z2 := 8 * c - 7 * z1;
    assert d == 255 * z2;
    var z3 := 128 * e - 127 * z2;
    assert d == 65535 * z3;
    var z4 := 32768 * f - 32767 * z3;
    assert d == PERIOD * z4;
  }

  lemma NoPrimeLeft(d: nat, m: nat, p: nat, c: nat)
    requires p > 0 && Returns(d) && d * m == PERIOD == c * p && !Returns(c)
    ensures m % p != 0
  {
    hide Returns;
    if m % p == 0 {
      var k := m / p;
      assert m == k * p;
      assert d * (k * p) == (k * d) * p;
      SameFactor(k * d, c, p);
      ReturnsTimes(d, k);
    }
  }

  lemma SameFactor(x: nat, y: nat, p: nat)
    requires p > 0 && x * p == y * p
    ensures x == y
  {
    if x < y {
      TimesGrows(x, y, p);
    } else if y < x {
      TimesGrows(y, x, p);
    }
  }

  /** The state 1 comes back after the period and no sooner. */
  lemma LeastIsPeriod()
    ensures Returns(PERIOD) && forall k :: 0 < k < PERIOD ==> !Returns(k)
  {
    hide Returns, IsPrime;
    ReturnsAfterPeriod();
    var d := LeastReturn(PERIOD);
    ReturnsMod(PERIOD, d);
    var m := PERIOD / d;
    assert PERIOD == d * m + PERIOD % d;
    NoReturn65537();
    NoReturn257();
    NoReturn17();
    NoReturn5();
    NoReturn3();
    NoPrimeLeft(d, m, 3, 5 * 17 * 257 * 65537);
    NoPrimeLeft(d, m, 5, 3 * 17 * 257 * 65537);
    NoPrimeLeft(d, m, 17, 15 * 257 * 65537);
    NoPrimeLeft(d, m, 257, 255 * 65537);
    NoPrimeLeft(d, m, 65537, 65535);
    Primes();
    Prime65537();
    Euclid(3, d, m, 5 * 17 * 257 * 65537);
    Euclid(5, d, m, 3 * 17 * 257 * 65537);
    Euclid(17, d, m, 15 * 257 * 65537);
    Euclid(257, d, m, 255 * 65537);
    Euclid(65537, d, m, 65535);
    var a: nat :| d == a * 3;
    var b: nat :| d == b * 5;
    var c: nat :| d == c * 17;
    var e: nat :| d == e * 257;
    var f: nat :| d == f * 65537;
    AllDivide(d, a, b, c, e, f);
  }

  lemma ReturnsIff(n: nat)
    ensures Returns(n) <==> n % PERIOD == 0
  {
    hide Returns;
    LeastIsPeriod();
    if Returns(n) {
      ReturnsMod(n, PERIOD);
    } else if n % PERIOD == 0 {
      ReturnsTimes(PERIOD, n / PERIOD);
    }
  }

  // ---------------------------------------------------------------------------------------------
  // Every nonzero state is on that cycle

  lemma {:induction false} IterNonzero(v: bv32, n: nat)
    requires v != 0
    ensures Iter(v, n) != 0
  {
    hide Iter;
    if Iter(v, n) == 0 {
      IterOfZero(n);
      IterInjective(v, 0, n);
    }
  }

  /** The states on the way round, then zero, then `w`: two of these are equal, and only `w` can be. */
  lemma Covers(w: bv32) returns (k: nat)
    requires w != 0
    ensures k < PERIOD && Iter(1, k) == w
  {
    hide Iter, Returns, Number32;
    var numbers: seq<nat> := seq(PERIOD + 2, i requires 0 <= i =>
      if i < PERIOD then Number32(Iter(1, i)) else if i == PERIOD then Number32(0) else Number32(w));
    var i, j := Pigeonhole(numbers, TWO32);
    if j < PERIOD {
      NumberInjective32(Iter(1, i), Iter(1, j));
      SameStates(i, j);
      LeastIsPeriod();
      assert false;
    }
    var x, y := if i < PERIOD then Iter(1, i) else 0, if j == PERIOD then 0 else w;
    NumberInjective32(x, y);
    if i < PERIOD {
      IterNonzero(1, i);
    }
    k := i;
  }

  /**
   * From every nonzero state every nonzero state is reached, and a state comes back exactly after the
   * multiples of 2^32 - 1 draws.
   */
  lemma FullPeriod(v: bv32, w: bv32, n: nat) returns (k: nat)
    requires v != 0 && w != 0
    ensures k < PERIOD && Run(XorShift32(v), k) == XorShift32(w)
    ensures Run(XorShift32(v), n) == XorShift32(v) <==> n % PERIOD == 0
  {
    hide Iter, Returns, Run;
    var i := Covers(v);
    var j := Covers(w);
    k := if i <= j then j - i else j + PERIOD - i;
    IterAdds(1, k, i);
    if i > j {
      ReturnsIff(PERIOD);
      SameStates(j, k + i);
    }
    IterIsRun(v, k);
    IterAdds(1, n, i);
    SameStates(i, n + i);
    ReturnsIff(n);
    IterIsRun(v, n);
  }
}
