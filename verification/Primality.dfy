/** Modular powers and the rounds of the primality test (stdlib.calx). */
module Primality {
  import opened Powers

  // ----- Congruences -----

  ghost predicate Cong(a: int, b: int, m: nat)
    requires m > 0
  {
    exists k: int :: a == b + k * m
  }

  lemma CongIntro(a: int, b: int, m: nat, k: int)
    requires m > 0 && a == b + k * m
    ensures Cong(a, b, m)
  {
  }

  lemma {:induction false} CongMod(a: int, m: nat)
    requires m > 0
    ensures Cong(a, a % m, m) && Cong(a % m, a, m)
  {
    CongIntro(a, a % m, m, a / m);
    CongIntro(a % m, a, m, -(a / m));
  }

  lemma {:induction false} CongTrans(a: int, b: int, c: int, m: nat)
    requires m > 0 && Cong(a, b, m) && Cong(b, c, m)
    ensures Cong(a, c, m)
  {
    var k: int :| a == b + k * m;
    var l: int :| b == c + l * m;
    assert (k + l) * m == k * m + l * m;
    CongIntro(a, c, m, k + l);
  }

  lemma {:induction false} CongMul(a: int, b: int, c: int, d: int, m: nat)
    requires m > 0 && Cong(a, b, m) && Cong(c, d, m)
    ensures Cong(a * c, b * d, m)
  {
    var k: int :| a == b + k * m;
    var l: int :| c == d + l * m;
    CongProduct(b, k, d, l, m);
    CongIntro(a * c, b * d, m, b * l + k * d + k * l * m);
  }

  lemma CongProduct(b: int, k: int, d: int, l: int, m: int)
    ensures (b + k * m) * (d + l * m) == b * d + (b * l + k * d + k * l * m) * m
  {
    assert (b + k * m) * (d + l * m) == b * d + b * (l * m) + (k * m) * d + (k * m) * (l * m);
    assert (b * l + k * d + k * l * m) * m == (b * l) * m + (k * d) * m + (k * l * m) * m;
    MulAssoc(b, l, m);
    assert (k * m) * d == (k * d) * m;
    assert (k * m) * (l * m) == (k * l * m) * m;
  }

  lemma {:induction false} CongPow(a: nat, b: nat, e: nat, m: nat)
    requires m > 0 && Cong(a, b, m)
    ensures Cong(Pow(a, e), Pow(b, e), m)
  {
    if e == 0 {
      CongIntro(1, 1, m, 0);
    } else {
      CongPow(a, b, e - 1, m);
      CongMul(a, b, Pow(a, e - 1), Pow(b, e - 1), m);
    }
  }

  lemma {:induction false} CongEqual(a: int, b: int, m: nat)
    requires m > 0 && Cong(a, b, m) && 0 <= a < m && 0 <= b < m
    ensures a == b
  {
    var k: int :| a == b + k * m;
    assert -1 * m < k * m < 1 * m;
    LessByMul(-1, k, m);
    LessByMul(k, 1, m);
  }

  lemma {:induction false} CongToMod(a: int, b: int, m: nat)
    requires m > 0 && Cong(a, b, m)
    ensures a % m == b % m
  {
    CongMod(a, m);
    CongMod(b, m);
    CongTrans(a % m, a, b, m);
    CongTrans(a % m, b, b % m, m);
    CongEqual(a % m, b % m, m);
  }

  // ----- mod_pow -----

  /** Squaring the base halves the exponent. */
  lemma {:induction false} HalfPow(b: nat, e: nat)
    requires e > 0
    ensures Pow(b, e) == (if e % 2 == 1 then b else 1) * Pow(b * b, e / 2)
  {
    var h := e / 2;
    PowMul(b, b, h);
    PowAdd(b, h, h);
    if e % 2 == 1 {
      assert e == 1 + (h + h);
      PowAdd(b, 1, h + h);
      assert Pow(b, 1) == b * Pow(b, 0);
    } else {
      assert e == h + h;
    }
  }

  method ModPow(b: nat, e: nat, m: nat) returns (r: nat)
    requires m > 0
    ensures r == Pow(b, e) % m
  {
    r := 1 % m;
    var base: nat, ex: nat := b, e;
    CongMod(1, m);
    CongPowStart(b, e, m, r);
    while ex > 0
      invariant 0 <= r < m && Cong(r * Pow(base, ex), Pow(b, e), m)
      decreases ex
    {
      ghost var (r0, b0, e0) := (r, base, ex);
      if ex % 2 == 1 {
        r := r * base;
        r := r % m;
      }
      base := base * base;
      base := base % m;
      ex := ex / 2;
      ModPowRound(r0, b0, e0, m, r, base, Pow(b, e));
    }
    assert Pow(base, 0) == 1;
    ModPowEnd(r, Pow(b, e), m);
  }

  lemma {:induction false} ModPowEnd(r: nat, goal: nat, m: nat)
    requires r < m && Cong(r * 1, goal, m)
    ensures r == goal % m
  {
    CongMod(goal, m);
    CongTrans(r, goal, goal % m, m);
    CongEqual(r, goal % m, m);
  }

  lemma {:induction false} CongPowStart(b: nat, e: nat, m: nat, r: nat)
    requires m > 0 && Cong(r, 1, m)
    ensures Cong(r * Pow(b, e), Pow(b, e), m)
  {
    CongIntro(Pow(b, e), Pow(b, e), m, 0);
    CongMul(r, 1, Pow(b, e), Pow(b, e), m);
  }

  lemma {:induction false} ModPowRound(r0: nat, b0: nat, e0: nat, m: nat, r: nat, b1: nat, goal: nat)
    requires m > 0 && e0 > 0 && Cong(r0 * Pow(b0, e0), goal, m)
    requires r == (if e0 % 2 == 1 then (r0 * b0) % m else r0) && b1 == (b0 * b0) % m
    ensures Cong(r * Pow(b1, e0 / 2), goal, m)
  {
    var (f, p) := (if e0 % 2 == 1 then b0 else 1, Pow(b0 * b0, e0 / 2));
    HalfPow(b0, e0);
    CongMod(b0 * b0, m);
    CongPow(b1, b0 * b0, e0 / 2, m);
    assert Cong(r, r0 * f, m) by {
      if e0 % 2 == 1 { CongMod(r0 * b0, m); } else { CongIntro(r, r0 * f, m, 0); }
    }
    CongMul(r, r0 * f, Pow(b1, e0 / 2), p, m);
    assert (r0 * f) * p == r0 * (f * p);
    CongTrans(r * Pow(b1, e0 / 2), (r0 * f) * p, goal, m);
  }

  // ----- Primes -----

  ghost predicate Prime(p: nat) {
    p >= 2 && forall d {:trigger p % d} :: 1 < d < p ==> p % d != 0
  }

  /** A prime that divides a product divides a factor. */
  lemma {:induction false} Euclid(p: nat, a: nat, b: nat)
    requires Prime(p) && 0 < a < p && (a * b) % p == 0
    ensures b % p == 0
    decreases a
  {
    if a > 1 {
      var (q, r) := (p / a, p % a);
      assert r == p - q * a && 0 < r < a;
      assert r * b == p * b - q * (a * b) by {
        assert (p - q * a) * b == p * b - (q * a) * b;
        assert (q * a) * b == q * (a * b);
      }
      var k := a * b / p;
      assert a * b == k * p;
      assert p * b - q * (k * p) == (b - q * k) * p;
      CongIntro(r * b, 0, p, b - q * k);
      CongToMod(r * b, 0, p);
      Euclid(p, r, b);
    } else {
      assert a * b == b;
    }
  }

  function Binom(n: nat, k: nat): nat
    decreases n
  {
    if k == 0 then 1 else if n == 0 then 0 else Binom(n - 1, k - 1) + Binom(n - 1, k)
  }

  lemma {:induction false} BinomBeyond(n: nat, k: nat)
    requires k > n
    ensures Binom(n, k) == 0
    decreases n
  {
    if n > 0 {
      BinomBeyond(n - 1, k - 1);
      BinomBeyond(n - 1, k);
    }
  }

  lemma {:induction false} BinomTop(n: nat)
    ensures Binom(n, n) == 1
  {
    if n > 0 {
      BinomTop(n - 1);
      BinomBeyond(n - 1, n);
    }
  }

  lemma {:induction false} Absorption(n: nat, k: nat)
    requires n > 0 && k > 0
    ensures k * Binom(n, k) == n * Binom(n - 1, k - 1)
    decreases n
  {
    if n == 1 {
      BinomBeyond(0, k);
      if k > 1 { BinomBeyond(0, k - 1); }
    } else if k == 1 {
      Absorption(n - 1, 1);
    } else {
      Absorption(n - 1, k);
      Absorption(n - 1, k - 1);
      Absorb(n - 1, k, Binom(n - 2, k - 2), Binom(n - 2, k - 1), Binom(n - 1, k - 1), Binom(n - 1, k));
    }
  }

  lemma Absorb(m: int, k: int, u: int, v: int, x: int, y: int)
    requires x == u + v && (k - 1) * x == m * u && k * y == m * v
    ensures k * (x + y) == (m + 1) * x
  {
    assert m * x == m * u + m * v;
    assert k * (x + y) == (k - 1) * x + x + k * y;
  }

  /** The first m terms of the binomial expansion of (a + 1)^n. */
  function Terms(a: nat, n: nat, m: nat): nat
    decreases m
  {
    if m == 0 then 0 else Terms(a, n, m - 1) + Binom(n, m - 1) * Pow(a, m - 1)
  }

  lemma {:induction false} TermsPascal(a: nat, n: nat, m: nat)
    requires n > 0
    ensures Terms(a, n, m + 1) == Terms(a, n - 1, m + 1) + a * Terms(a, n - 1, m)
    decreases m
  {
    if m == 0 {
      assert Terms(a, n, 0) == 0 && Terms(a, n - 1, 0) == 0;
    } else {
      TermsPascal(a, n, m - 1);
      Pascal(a, Pow(a, m - 1), Binom(n - 1, m - 1), Binom(n - 1, m), Terms(a, n - 1, m - 1));
    }
  }

  lemma Pascal(a: int, p: int, x: int, y: int, t: int)
    ensures (x + y) * (a * p) + a * t == y * (a * p) + a * (t + x * p)
  {
    assert (x + y) * (a * p) == x * (a * p) + y * (a * p);
    assert x * (a * p) == a * (x * p);
    assert a * (t + x * p) == a * t + a * (x * p);
  }

  lemma {:induction false} BinomialTheorem(a: nat, n: nat)
    ensures Terms(a, n, n + 1) == Pow(a + 1, n)
  {
    if n == 0 {
      assert Terms(a, 0, 1) == Terms(a, 0, 0) + Binom(0, 0) * Pow(a, 0);
    } else {
      BinomialTheorem(a, n - 1);
      TermsPascal(a, n, n);
      BinomBeyond(n - 1, n);
      assert Terms(a, n - 1, n + 1) == Terms(a, n - 1, n) + 0 * Pow(a, n);
      assert (a + 1) * Pow(a + 1, n - 1) == Pow(a + 1, n - 1) + a * Pow(a + 1, n - 1);
    }
  }

  lemma {:induction false} MiddleTerms(a: nat, p: nat, m: nat)
    requires Prime(p) && 1 <= m <= p
    ensures Cong(Terms(a, p, m), 1, p)
    decreases m
  {
    if m == 1 {
      assert Terms(a, p, 1) == Terms(a, p, 0) + Binom(p, 0) * Pow(a, 0);
      CongIntro(1, 1, p, 0);
    } else {
      var k := m - 1;
      MiddleTerms(a, p, k);
      PrimeDividesBinom(p, k);
      MiddleTerm(Terms(a, p, k), Binom(p, k), Pow(a, k), p);
      CongTrans(Terms(a, p, m), Terms(a, p, k), 1, p);
    }
  }

  lemma {:induction false} MiddleTerm(t: int, c: int, x: int, p: nat)
    requires p > 0 && c % p == 0
    ensures Cong(t + c * x, t, p)
  {
    Division(c, p);
    assert c * x == (c / p * x) * p by { assert (c / p * p) * x == (c / p * x) * p; }
    CongIntro(t + c * x, t, p, c / p * x);
  }

  lemma {:induction false} PrimeDividesBinom(p: nat, k: nat)
    requires Prime(p) && 0 < k < p
    ensures Binom(p, k) % p == 0
  {
    Absorption(p, k);
    assert p * Binom(p - 1, k - 1) == 0 + Binom(p - 1, k - 1) * p;
    CongIntro(k * Binom(p, k), 0, p, Binom(p - 1, k - 1));
    CongToMod(k * Binom(p, k), 0, p);
    Euclid(p, k, Binom(p, k));
  }

  /** Fermat's little theorem. */
  lemma {:induction false} Fermat(a: nat, p: nat)
    requires Prime(p)
    ensures Cong(Pow(a, p), a, p)
    decreases a
  {
    if a == 0 {
      assert Pow(0, p) == 0 * Pow(0, p - 1);
      CongIntro(0, 0, p, 0);
    } else {
      var b := a - 1;
      Fermat(b, p);
      BinomialTheorem(b, p);
      MiddleTerms(b, p, p);
      BinomTop(p);
      assert Pow(a, p) == Terms(b, p, p) + 1 * Pow(b, p);
      CongAdd(Terms(b, p, p), 1, Pow(b, p), b, p);
    }
  }

  lemma {:induction false} CongAdd(a: int, b: int, c: int, d: int, m: nat)
    requires m > 0 && Cong(a, b, m) && Cong(c, d, m)
    ensures Cong(a + c, b + d, m)
  {
    var k: int :| a == b + k * m;
    var l: int :| c == d + l * m;
    assert (k + l) * m == k * m + l * m;
    CongIntro(a + c, b + d, m, k + l);
  }

  lemma {:induction false} FermatUnit(a: nat, p: nat)
    requires Prime(p) && 0 < a < p
    ensures Pow(a, p - 1) % p == 1
  {
    Fermat(a, p);
    var x := Pow(a, p - 1);
    PowPositive(a, p - 1);
    Cancelled(a, x, p);
    Euclid(p, a, x - 1);
    NextToMultiple(x, p);
  }

  lemma {:induction false} Cancelled(a: nat, x: nat, p: nat)
    requires p > 0 && x > 0 && Cong(a * x, a, p)
    ensures (a * (x - 1)) % p == 0
  {
    var c: int := 0 - a;
    CongIntro(c, c, p, 0);
    CongAdd(a * x, a, c, c, p);
    assert a * (x - 1) == a * x + c;
    CongToMod(a * (x - 1), 0, p);
  }

  lemma {:induction false} NextToMultiple(x: nat, p: nat)
    requires p >= 2 && x > 0 && (x - 1) % p == 0
    ensures x % p == 1
  {
    Division(x - 1, p);
    CongIntro(x, 1, p, (x - 1) / p);
    CongToMod(x, 1, p);
  }

  /** Modulo a prime, only 1 and -1 are square roots of 1. */
  lemma {:induction false} SquareRootsOfOne(x: nat, p: nat)
    requires Prime(p) && x < p && (x * x) % p == 1
    ensures x == 1 || x == p - 1
  {
    if x > 1 {
      Division(x * x, p);
      var k := x * x / p;
      assert (x - 1) * (x + 1) == k * p by { assert (x - 1) * (x + 1) == x * x - 1; }
      CongIntro((x - 1) * (x + 1), 0, p, k);
      CongToMod((x - 1) * (x + 1), 0, p);
      Euclid(p, x - 1, x + 1);
      Division(x + 1, p);
      LessByMul(0, (x + 1) / p, p);
      MulLe(1, (x + 1) / p, p);
    }
  }

  // ----- One round of the test -----

  /** a to the power of 2^i * d, modulo n */
  ghost function PowerAt(a: nat, i: nat, d: nat, n: nat): nat
    requires n > 0
  {
    Pow(a, Pow(2, i) * d) % n
  }

  /** x after i squarings modulo n */
  function Squared(x: nat, i: nat, n: nat): nat
    requires n > 0
    decreases i
  {
    if i == 0 then x else (Squared(x, i - 1, n) * Squared(x, i - 1, n)) % n
  }

  ghost predicate MinusOneAmong(x: nat, r: nat, n: nat)
    requires n > 0
  {
    exists i :: 0 <= i < r && Squared(x, i, n) == n - 1
  }

  /** n is a strong probable prime to the base a, where n - 1 == 2^r * d. */
  ghost predicate Passes(n: nat, a: nat, r: nat, d: nat)
    requires n > 0
  {
    var x := Pow(a, d) % n;
    x == 1 || MinusOneAmong(x, r, n)
  }

  ghost predicate Splits(n: nat, r: nat, d: nat) { d % 2 == 1 && n == Pow(2, r) * d + 1 }

  /** The first loop of probab_prime_round(). */
  method Halve(n: nat) returns (r: nat, d: nat)
    requires n > 2 && n % 2 == 1
    ensures d % 2 == 1 && n == Pow(2, r) * d + 1 && r >= 1
  {
    r, d := 0, n - 1;
    assert Pow(2, 0) == 1;
    while d % 2 == 0
      invariant d > 0 && Pow(2, r) * d == n - 1 && (r == 0 ==> d == n - 1)
      decreases d
    {
      HalfTheRest(r, d);
      d := d / 2;
      r := r + 1;
    }
  }

  lemma HalfTheRest(r: nat, d: nat)
    requires d % 2 == 0
    ensures Pow(2, r + 1) * (d / 2) == Pow(2, r) * d
  {
    assert d == 2 * (d / 2);
    MulAssoc(Pow(2, r), 2, d / 2);
  }

  method ProbabPrimeRound(n: nat, a: nat) returns (ok: bool, ghost r: nat, ghost d: nat)
    requires n > 2 && n % 2 == 1 && 2 <= a < n - 1
    ensures d % 2 == 1 && n == Pow(2, r) * d + 1 && r >= 1
    ensures ok <==> (
      && Pow(a, n - 1) % n == 1
      && forall i :: 0 <= i < r && PowerAt(a, i + 1, d, n) == 1 ==>
           PowerAt(a, i, d, n) == 1 || PowerAt(a, i, d, n) == n - 1)
    ensures Prime(n) ==> ok
  {
    hide Pow, PowerAt, Prime;
    var s, e := Halve(n);
    r, d := s, e;
    PassesIff(n, a, r, d);
    if Prime(n) { PrimesPass(n, a, r, d); }
    var x := ModPow(a, e, n);
    ghost var x0 := x;
    assert Squared(x0, 0, n) == x0;
    if x == 1 || x == n - 1 {
      ok := true;
      return;
    }
    for i := 1 to s
      invariant x == Squared(x0, i - 1, n) && forall j :: 0 <= j < i ==> Squared(x0, j, n) != n - 1
    {
      x := x * x % n;
      assert x == Squared(x0, i, n);
      if x == n - 1 {
        ok := true;
        return;
      }
    }
    ok := false;
  }

  lemma {:induction false} SquaredIsPow(a: nat, d: nat, i: nat, n: nat)
    requires n > 0
    ensures Squared(Pow(a, d) % n, i, n) == Pow(a, Pow(2, i) * d) % n
    decreases i
  {
    if i == 0 {
      assert Pow(2, 0) * d == d;
    } else {
      SquaredIsPow(a, d, i - 1, n);
      var e := Pow(2, i - 1) * d;
      assert Pow(2, i) * d == e + e;
      PowAdd(a, e, e);
      var x := Pow(a, e);
      CongMod(x, n);
      CongMul(x % n, x, x % n, x, n);
      CongToMod((x % n) * (x % n), x * x, n);
    }
  }

  lemma OneSquared(x: nat, i: nat, n: nat)
    requires n > 1 && Squared(x, i, n) == 1
    ensures Squared(x, i + 1, n) == 1
  {
    QuotientIs(1, n, 0, 1);
  }

  lemma {:induction false} StaysOne(x: nat, i: nat, j: nat, n: nat)
    requires n > 1 && i <= j && Squared(x, i, n) == 1
    ensures Squared(x, j, n) == 1
    decreases j
  {
    hide Squared;
    if i < j {
      StaysOne(x, i, j - 1, n);
      OneSquared(x, j - 1, n);
    }
  }

  lemma MinusOneSquared(x: nat, i: nat, n: nat)
    requires n > 2 && Squared(x, i, n) == n - 1
    ensures Squared(x, i + 1, n) == 1
  {
    assert (n - 1) * (n - 1) == (n - 2) * n + 1;
    QuotientIs((n - 1) * (n - 1), n, n - 2, 1);
  }

  /** If the next square is 1, this one is 1 or -1. */
  ghost predicate Trivial(x: nat, i: nat, n: nat)
    requires n > 0
  {
    Squared(x, i + 1, n) == 1 ==> Squared(x, i, n) == 1 || Squared(x, i, n) == n - 1
  }

  lemma {:induction false} FirstOne(x: nat, r: nat, n: nat)
    requires n > 2 && x != 1 && Squared(x, r, n) == 1 && forall i :: 0 <= i < r ==> Trivial(x, i, n)
    ensures MinusOneAmong(x, r, n)
    decreases r
  {
    assert Squared(x, 0, n) == x;
    assert Trivial(x, r - 1, n);
    if Squared(x, r - 1, n) == 1 {
      FirstOne(x, r - 1, n);
    } else {
      assert Squared(x, r - 1 + 1, n) == 1;
    }
  }

  lemma {:induction false} SquaresIff(x: nat, r: nat, n: nat)
    requires n > 2
    ensures x == 1 || MinusOneAmong(x, r, n) <==>
      Squared(x, r, n) == 1 && forall i :: 0 <= i < r ==> Trivial(x, i, n)
  {
    if x == 1 {
      assert Squared(x, 0, n) == 1;
      forall i: nat ensures Squared(x, i, n) == 1 { StaysOne(x, 0, i, n); }
    } else if MinusOneAmong(x, r, n) {
      var i :| 0 <= i < r && Squared(x, i, n) == n - 1;
      MinusOneSquared(x, i, n);
      StaysOne(x, i + 1, r, n);
      forall j | 0 <= j < r ensures Trivial(x, j, n) {
        if Squared(x, j + 1, n) == 1 {
          if j > i { StaysOne(x, i + 1, j, n); }
          if j < i { StaysOne(x, j + 1, i, n); }
        }
      }
    } else if Squared(x, r, n) == 1 && forall i :: 0 <= i < r ==> Trivial(x, i, n) {
      FirstOne(x, r, n);
    }
  }

  lemma PowerAtIs(a: nat, i: nat, d: nat, n: nat)
    requires n > 0
    ensures PowerAt(a, i, d, n) == Squared(Pow(a, d) % n, i, n)
  {
    hide Pow, Squared;
    SquaredIsPow(a, d, i, n);
  }

  lemma LastPower(a: nat, r: nat, d: nat, n: nat)
    requires n > 0 && Splits(n, r, d)
    ensures Squared(Pow(a, d) % n, r, n) == Pow(a, n - 1) % n
  {
    hide Pow, Squared;
    SquaredIsPow(a, d, r, n);
    assert n - 1 == Pow(2, r) * d;
  }

  lemma TrivialIs(a: nat, i: nat, d: nat, n: nat)
    requires n > 0
    ensures Trivial(Pow(a, d) % n, i, n) <==>
      (PowerAt(a, i + 1, d, n) == 1 ==> PowerAt(a, i, d, n) == 1 || PowerAt(a, i, d, n) == n - 1)
  {
    hide Pow, Squared, PowerAt;
    PowerAtIs(a, i, d, n);
    PowerAtIs(a, i + 1, d, n);
  }

  /** The test in terms of powers: Fermat's condition, and no square root of 1 but 1 and -1 on the way. */
  lemma {:induction false} PassesIff(n: nat, a: nat, r: nat, d: nat)
    requires n > 2 && Splits(n, r, d)
    ensures Passes(n, a, r, d) <==> (
      && Pow(a, n - 1) % n == 1
      && forall i :: 0 <= i < r && PowerAt(a, i + 1, d, n) == 1 ==>
           PowerAt(a, i, d, n) == 1 || PowerAt(a, i, d, n) == n - 1)
  {
    hide Pow, Squared, MinusOneAmong, PowerAt;
    var x := Pow(a, d) % n;
    SquaresIff(x, r, n);
    assert Squared(x, r, n) == Pow(a, n - 1) % n by { LastPower(a, r, d, n); }
    hide Trivial;
    assert Passes(n, a, r, d) <==> Squared(x, r, n) == 1 && forall i :: 0 <= i < r ==> Trivial(x, i, n);
    if forall i :: 0 <= i < r ==> Trivial(x, i, n) {
      forall i | 0 <= i < r && PowerAt(a, i + 1, d, n) == 1
        ensures PowerAt(a, i, d, n) == 1 || PowerAt(a, i, d, n) == n - 1
      {
        assert Trivial(x, i, n);
        TrivialIs(a, i, d, n);
      }
    }
    if forall i :: 0 <= i < r && PowerAt(a, i + 1, d, n) == 1 ==>
      PowerAt(a, i, d, n) == 1 || PowerAt(a, i, d, n) == n - 1
    {
      forall i | 0 <= i < r ensures Trivial(x, i, n) { TrivialIs(a, i, d, n); }
    }
  }

  /** The test never rejects a prime. */
  lemma {:induction false} PrimesPass(n: nat, a: nat, r: nat, d: nat)
    requires Prime(n) && n > 2 && 0 < a < n && Splits(n, r, d) && r >= 1
    ensures Passes(n, a, r, d)
  {
    FermatUnit(a, n);
    SquaredIsPow(a, d, r, n);
    var x := Pow(a, d) % n;
    assert Squared(x, r, n) == 1;
    if x != 1 { LastBeforeOne(x, r, n); }
  }

  /** The last of the squares before 1 is -1. */
  lemma {:induction false} LastBeforeOne(x: nat, i: nat, n: nat)
    requires Prime(n) && n > 2 && x < n && x != 1 && i >= 1 && Squared(x, i, n) == 1
    ensures exists j :: 0 <= j < i && Squared(x, j, n) == n - 1
    decreases i
  {
    var y := Squared(x, i - 1, n);
    if i - 1 > 0 && y == 1 {
      LastBeforeOne(x, i - 1, n);
    } else {
      assert y < n && y != 1;
      SquareRootsOfOne(y, n);
      assert Squared(x, i - 1, n) == n - 1;
    }
  }
}
