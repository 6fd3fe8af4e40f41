/** Trial division over 6k-1 and 6k+1 (simple_prime.cpp), in 32-bit arithmetic. */
module Primes {

  const INT_MAX: int := 0x7fff_ffff

  /** 2147117569, the square of the last trial divisor whose square is a 32-bit number. */
  const LIMIT: int := 46337 * 46337

  /** A 32-bit computation gives its answer or overflows. */
  datatype Result<T> = Answer(value: T) | Overflow

  predicate IsPrime(n: int) {
    2 <= n && forall d :: 2 <= d < n ==> n % d != 0
  }

  /** No number from 2 up to but not including `i` divides `n`. */
  ghost predicate NoDivisorBelow(n: int, i: int) {
    forall d :: 2 <= d < i ==> n % d != 0
  }

  // ---------------------------------------------------------------- divisibility

  lemma ProductGrows(a: int, b: int, c: int, d: int)
    requires 0 <= a <= c && 0 <= b <= d
    ensures a * b <= c * d
  {
    assert a * b <= c * b <= c * d;
  }

  /** The only multiple of `a` strictly between `-a` and `a` is zero. */
  lemma SmallMultiple(a: int, t: int)
    requires a > 0
    ensures -a < a * t < a ==> t == 0
  {
    if t >= 1 {
      ProductGrows(a, 1, a, t);
    } else if t <= -1 {
      ProductGrows(a, 1, a, -t);
    }
  }

  lemma ProductIsMultiple(n: int, a: int, b: int)
    requires a > 0 && n == a * b
    ensures n % a == 0
  {
    var q, r := n / a, n % a;
    assert a * (b - q) == r;
    SmallMultiple(a, b - q);
  }

  /** A divisor of a divisor divides. */
  lemma DividesThrough(n: int, d: int, k: int)
    requires d > 0 && k > 0 && n % d == 0 && d % k == 0
    ensures n % k == 0
  {
    var q, m := n / d, d / k;
    assert n == d * q && d == k * m;
    assert n == k * (m * q) by {
      assert d * q == (k * m) * q == k * (m * q);
    }
    ProductIsMultiple(n, k, m * q);
  }

  /** A proper divisor has a proper cofactor, and the smaller of the two lies below any
      number whose square passes `n`. */
  lemma SmallerCofactor(n: int, d: int, i: int) returns (e: int)
    requires 2 <= d < n && n % d == 0 && 0 <= i && n < i * i
    ensures 2 <= e && n == d * e && n % e == 0
    ensures d < i || e < i
  {
    e := n / d;
    assert n == d * e;
    assert 2 <= e by {
      if e <= 1 { ProductBelow(d, e); }
    }
    ProductIsMultiple(n, e, d);
    BothLarge(d, e, i);
  }

  lemma ProductBelow(d: int, e: int)
    requires d >= 0 && e <= 1
    ensures d * e <= d
  {
    assert d * (1 - e) >= 0;
  }

  lemma BothLarge(d: int, e: int, i: int)
    requires 0 <= i
    ensures i <= d && i <= e ==> i * i <= d * e
  {
    if i <= d && i <= e { ProductGrows(i, i, d, e); }
  }

  /** With no divisor below a number whose square passes `n`, there is none at all. */
  lemma NoSmallDivisorMeansPrime(n: int, i: int)
    requires 2 <= n && 2 <= i && n < i * i && NoDivisorBelow(n, i)
    ensures IsPrime(n)
  {
    forall d | 2 <= d < n ensures n % d != 0 {
      if n % d == 0 {
        var e := SmallerCofactor(n, d, i);
        assert false;
      }
    }
  }

  lemma FactorRulesOut(n: int, d: int, k: int)
    requires d > 0 && k > 0 && d % k == 0 && n % k != 0
    ensures n % d != 0
  {
    if n % d == 0 { DividesThrough(n, d, k); }
  }

  lemma StepResidues(i: int)
    requires i % 6 == 5
    ensures (i + 1) % 2 == 0 && (i + 3) % 2 == 0 && (i + 5) % 2 == 0 && (i + 4) % 3 == 0
  {
  }

  /** The numbers the loop steps over are multiples of 2 or 3. */
  lemma SteppedOver(n: int, i: int)
    requires n % 2 != 0 && n % 3 != 0 && 5 <= i && i % 6 == 5
    requires NoDivisorBelow(n, i) && n % i != 0 && n % (i + 2) != 0
    ensures NoDivisorBelow(n, i + 6)
  {
    StepResidues(i);
    FactorRulesOut(n, i + 1, 2);
    FactorRulesOut(n, i + 3, 2);
    FactorRulesOut(n, i + 5, 2);
    FactorRulesOut(n, i + 4, 3);
    ExtendByOne(n, i);
    ExtendByOne(n, i + 1);
    ExtendByOne(n, i + 2);
    ExtendByOne(n, i + 3);
    ExtendByOne(n, i + 4);
    ExtendByOne(n, i + 5);
    hide NoDivisorBelow;
  }

  lemma ExtendByOne(n: int, i: int)
    requires i > 0
    ensures NoDivisorBelow(n, i) && n % i != 0 ==> NoDivisorBelow(n, i + 1)
  {
  }

  /** The largest trial divisor whose square is a 32-bit number is 46337. */
  lemma LastDivisor(i: int)
    requires 5 <= i && i % 6 == 5
    ensures i * i <= INT_MAX <==> i <= 46337
    ensures i > 46337 ==> i * i > INT_MAX
    ensures i <= 46337 ==> i * i <= LIMIT
  {
    if i <= 46337 {
      ProductGrows(i, i, 46337, 46337);
    } else {
      assert i >= 46343;
      ProductGrows(46343, 46343, i, i);
    }
  }

  lemma RoomForStep(i: int, num: int)
    requires 5 <= i && i * i <= num
    ensures i + 2 < num
  {
    ProductGrows(5, i, i, i);
  }

  /** After 2 and 3 the first untried divisor is 5. */
  lemma StartAtFive(n: int)
    requires n % 2 != 0 && n % 3 != 0
    ensures NoDivisorBelow(n, 5)
  {
    if n % 4 == 0 { DividesThrough(n, 4, 2); }
  }

  // ---------------------------------------------------------------- the program

  /** `isprime`, with every 32-bit product checked. It answers correctly whenever it
      answers, and overflows exactly on the primes from 46337 squared on. */
  method CheckPrime(num: int) returns (r: Result<bool>)
    requires -INT_MAX - 1 <= num <= INT_MAX
    ensures r.Answer? ==> r.value == IsPrime(num)
    ensures r.Overflow? <==> num >= LIMIT && IsPrime(num)
  {
    if num <= 1 { return Answer(false); }
    if num <= 3 {
      assert num == 2 || num == 3;
      assert 3 % 2 != 0;
      return Answer(true);
    }
    if num % 2 == 0 || num % 3 == 0 { return Answer(false); }
    hide LIMIT;
    var i := 5;
    StartAtFive(num);
    while true
      invariant 5 <= i <= 46343 && i % 6 == 5
      invariant NoDivisorBelow(num, i)
      invariant i > 46337 ==> num >= LIMIT
      decreases 46343 - i
    {
      LastDivisor(i);
      if i * i > INT_MAX {
        NoSmallDivisorMeansPrime(num, i);
        return Overflow;
      }
      if !(i * i <= num) { break; }
      RoomForStep(i, num);
      if num % i == 0 || num % (i + 2) == 0 { return Answer(false); }
      SteppedOver(num, i);
      LimitReached(num, i);
      i := i + 6;
    }
    NoSmallDivisorMeansPrime(num, i);
    r := Answer(true);
  }

  lemma LimitReached(num: int, i: int)
    requires i == 46337 ==> i * i <= num
    ensures i == 46337 ==> num >= LIMIT
  {
  }

  /** How many primes there are up to `n`. */
  function PrimesUpTo(n: int): nat
    decreases if n < 2 then 0 else n
  {
    if n < 2 then 0 else PrimesUpTo(n - 1) + (if IsPrime(n) then 1 else 0)
  }

  lemma {:induction false} PrimesUpToIsCardinality(n: int)
    ensures PrimesUpTo(n) == |set p | 2 <= p <= n && IsPrime(p)|
    decreases if n < 2 then 0 else n
  {
    hide IsPrime;
    var ps := set p | 2 <= p <= n && IsPrime(p);
    if n < 2 {
      assert ps == {};
    } else {
      PrimesUpToIsCardinality(n - 1);
      var qs := set p | 2 <= p <= n - 1 && IsPrime(p);
      assert ps == qs + (if IsPrime(n) then {n} else {});
    }
  }

  lemma PrimesUpToStep(n: int)
    requires n >= 2
    ensures PrimesUpTo(n) == PrimesUpTo(n - 1) + (if IsPrime(n) then 1 else 0)
  {
  }

  lemma {:induction false} PrimesUpToBound(n: int)
    ensures PrimesUpTo(n) <= if n < 0 then 0 else n
    decreases if n < 2 then 0 else n
  {
    if n >= 2 {
      PrimesUpToBound(n - 1);
    }
  }

  /** The counting loop of `main` for one input: the number of primes up to it, unless
      some prime from 46337 squared on is tried, or the loop variable passes the range. */
  method CountPrimes(max: int) returns (r: Result<nat>)
    requires -INT_MAX - 1 <= max <= INT_MAX
    ensures r.Answer? ==> r.value == PrimesUpTo(max) == |set p | 2 <= p <= max && IsPrime(p)|
    ensures r.Overflow? <==> max == INT_MAX || exists p :: LIMIT <= p <= max && IsPrime(p)
  {
    assert PrimesUpTo(1) == 0 && (max < 2 ==> PrimesUpTo(max) == 0);
    PrimesUpToIsCardinality(max);
    assert 2 < LIMIT;
    hide IsPrime, LIMIT, PrimesUpTo;
    var count: nat := 0;
    var i := 2;
    while i <= max
      invariant 2 <= i <= INT_MAX && i <= (if max < 2 then 2 else max + 1)
      invariant count == PrimesUpTo(i - 1)
      invariant forall p :: LIMIT <= p < i ==> !IsPrime(p)
    {
      var check := CheckPrime(i);
      if check.Overflow? {
        assert LIMIT <= i <= max && IsPrime(i);
        return Overflow;
      }
      if check.value {
        count := count + 1;
      }
      PrimesUpToStep(i);
      PrimesUpToBound(i);
      assert count <= INT_MAX;
      if i == INT_MAX { return Overflow; }
      i := i + 1;
    }
    r := Answer(count);
  }
}
