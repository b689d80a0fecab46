/** Integers as double-precision floating point holds them: 53 significant bits, rounded to nearest, ties to even. */
module Numbers {

  const TWO53: nat := 0x20_0000_0000_0000

  /** How far an integer lies above the multiple below it, measured in steps between multiples. */
  datatype Rest = Zero | BelowHalf | Half | AboveHalf

  /** The rest when one more bit is dropped. */
  function Drop(bit: nat, rest: Rest): Rest {
    if bit == 0 then (if rest.Zero? then Zero else BelowHalf) else (if rest.Zero? then Half else AboveHalf)
  }

  /** Rounds `n` and a rest to 53 bits, dropping low bits while there are more. */
  function RoundRest(n: nat, rest: Rest): nat {
    if n >= TWO53 then 2 * RoundRest(n / 2, Drop(n % 2, rest))
    else if rest.AboveHalf? || (rest.Half? && n % 2 == 1) then n + 1
    else n
  }

  function Round(n: nat): nat {
    RoundRest(n, Zero)
  }

  predicate HasShortForm(n: nat) {
    n < TWO53 || (n % 2 == 0 && HasShortForm(n / 2))
  }

  predicate IsNumber(n: int) {
    HasShortForm(if n < 0 then -n else n)
  }

  /** An integer that is a floating-point number. */
  type Number = n: int | IsNumber(n)

  lemma {:induction false} RoundRestIsNumber(n: nat, rest: Rest)
    ensures IsNumber(RoundRest(n, rest))
  {
    if n < TWO53 {
    } else {
      RoundRestIsNumber(n / 2, Drop(n % 2, rest));
      assert 2 * RoundRest(n / 2, Drop(n % 2, rest)) / 2 == RoundRest(n / 2, Drop(n % 2, rest));
    }
  }

  /** A number is not rounded. */
  lemma {:induction false} NumberStays(n: nat)
    requires IsNumber(n)
    ensures Round(n) == n
  {
    if n < TWO53 {
    } else {
      NumberStays(n / 2);
    }
  }

  /** Rounding crosses no number: it yields one of the two that enclose the integer. */
  lemma {:induction false} RoundStaysBetween(n: nat, rest: Rest, x: nat)
    requires IsNumber(x)
    ensures x <= n ==> x <= RoundRest(n, rest)
    ensures n < x ==> RoundRest(n, rest) <= x
  {
    if n < TWO53 {
    } else if x < TWO53 {
      RoundStaysBetween(n / 2, Drop(n % 2, rest), TWO53 / 2);
    } else {
      RoundStaysBetween(n / 2, Drop(n % 2, rest), x / 2);
    }
  }

  // Rounding is to the nearest number, and to the even one of two

  function Pow2(e: nat): nat {
    if e == 0 then 1 else 2 * Pow2(e - 1)
  }

  predicate IsScaled(n: nat, m: nat, e: nat) {
    m < 0x20_0000_0000_0000 && n == m * Pow2(e)
  }

  /** A number is a 53-bit significand times a power of two. */
  lemma ShortFormMeans(n: nat)
    ensures HasShortForm(n) <==> exists m: nat, e: nat :: IsScaled(n, m, e)
  {
    if HasShortForm(n) {
      var m, e := SignificandOf(n);
    }
    if m: nat, e: nat :| IsScaled(n, m, e) {
      ProductIsShort(m, e);
    }
  }

  lemma {:induction false} SignificandOf(n: nat) returns (m: nat, e: nat)
    requires HasShortForm(n)
    ensures IsScaled(n, m, e)
  {
    if n < TWO53 {
      m, e := n, 0;
    } else {
      m, e := SignificandOf(n / 2);
      Doubles(m, e);
      e := e + 1;
    }
  }

  lemma {:induction false} ProductIsShort(m: nat, e: nat)
    requires m < 0x20_0000_0000_0000
    ensures HasShortForm(m * Pow2(e))
  {
    if e == 0 {
    } else {
      ProductIsShort(m, e - 1);
      Doubles(m, e - 1);
    }
  }

  lemma Doubles(m: nat, e: nat)
    ensures m * Pow2(e + 1) == 2 * (m * Pow2(e))
  {
  }

  /** The significand, with all 53 bits in use where there are so many, is even. */
  predicate EvenSignificand(n: nat) {
    n % 2 == 0 && (n >= TWO53 ==> EvenSignificand(n / 2))
  }

  /** The fraction of a step that a rest stands for. */
  predicate IsRest(f: real, rest: Rest) {
    match rest
    case Zero => f == 0.0
    case BelowHalf => 0.0 < f < 0.5
    case Half => f == 0.5
    case AboveHalf => 0.5 < f < 1.0
  }

  function Distance(x: nat, v: real): real {
    if x as real < v then v - x as real else x as real - v
  }

  lemma DistanceDoubles(x: nat, v: real)
    ensures Distance(2 * x, 2.0 * v) == 2.0 * Distance(x, v)
  {
  }

  lemma {:induction false} RestIsNearest(n: nat, f: real, rest: Rest, x: nat)
    requires IsRest(f, rest) && IsNumber(x)
    ensures Distance(RoundRest(n, rest), n as real + f) <= Distance(x, n as real + f)
    decreases n, 1
  {
    if n < TWO53 {
      assert x <= n || x >= n + 1;
    } else {
      var y := if x < TWO53 then TWO53 / 2 else x / 2;
      var v := HalfIsNearest(n, f, rest, y);
      DistanceDoubles(RoundRest(n / 2, Drop(n % 2, rest)), v);
      DistanceDoubles(y, v);
    }
  }

  /** One bit less, with what it leaves. */
  lemma HalfIsNearest(n: nat, f: real, rest: Rest, y: nat) returns (v: real)
    requires IsRest(f, rest) && IsNumber(y) && n >= TWO53
    ensures 2.0 * v == n as real + f
    ensures Distance(RoundRest(n / 2, Drop(n % 2, rest)), v) <= Distance(y, v)
    decreases n, 0
  {
    var f' := ((n % 2) as real + f) / 2.0;
    v := (n / 2) as real + f';
    RestIsNearest(n / 2, f', Drop(n % 2, rest), y);
  }

  lemma TieIsHalf(n: nat, f: real, rest: Rest, x: nat)
    requires n < TWO53 && IsRest(f, rest) && x != RoundRest(n, rest)
    requires Distance(RoundRest(n, rest), n as real + f) == Distance(x, n as real + f)
    ensures rest == Half
  {
    assert x <= n || x >= n + 1;
  }

  lemma HalfToEven(n: nat)
    requires n < TWO53
    ensures EvenSignificand(RoundRest(n, Half))
  {
    assert EvenSignificand(TWO53 / 2);
  }

  lemma EvenDoubles(n: nat)
    requires EvenSignificand(n)
    ensures EvenSignificand(2 * n)
  {
    assert 2 * n / 2 == n;
  }

  lemma {:induction false} TieIsEven(n: nat, f: real, rest: Rest, x: nat)
    requires IsRest(f, rest) && IsNumber(x) && x != RoundRest(n, rest)
    requires Distance(RoundRest(n, rest), n as real + f) == Distance(x, n as real + f)
    ensures EvenSignificand(RoundRest(n, rest))
  {
    if n < TWO53 {
      TieIsHalf(n, f, rest, x);
      HalfToEven(n);
    } else {
      var f' := TieHalves(n, f, rest, x);
      TieIsEven(n / 2, f', Drop(n % 2, rest), x / 2);
      EvenDoubles(RoundRest(n / 2, Drop(n % 2, rest)));
    }
  }

  lemma TieHalves(n: nat, f: real, rest: Rest, x: nat) returns (f': real)
    requires IsRest(f, rest) && IsNumber(x) && n >= TWO53
    requires Distance(RoundRest(n, rest), n as real + f) == Distance(x, n as real + f)
    ensures x % 2 == 0 && IsNumber(x / 2) && IsRest(f', Drop(n % 2, rest))
    ensures Distance(RoundRest(n / 2, Drop(n % 2, rest)), (n / 2) as real + f') == Distance(x / 2, (n / 2) as real + f')
  {
    f' := ((n % 2) as real + f) / 2.0;
    var v := (n / 2) as real + f';
    assert 2.0 * v == n as real + f;
    RestIsNearest(n, f, rest, TWO53);
    assert x >= TWO53;
    DistanceDoubles(RoundRest(n / 2, Drop(n % 2, rest)), v);
    DistanceDoubles(x / 2, v);
  }

  /** No number is nearer to an integer than what it is rounded to, and of two as near it is the even one. */
  lemma RoundIsNearest(n: nat, x: nat)
    requires IsNumber(x)
    ensures var r := Round(n);
            if x <= n then n - x >= r - n && n - x >= n - r else x - n >= r - n && x - n >= n - r
    ensures var r := Round(n); (x - n == n - r || x - n == r - n) ==> x == r || EvenSignificand(r)
  {
    RestIsNearest(n, 0.0, Zero, x);
    var r := Round(n);
    if x != r && (x - n == n - r || x - n == r - n) {
      TieIsEven(n, 0.0, Zero, x);
    }
  }

  /** At least 53 bits, all ones. */
  predicate AllOnes(n: nat) {
    n == TWO53 - 1 || (n % 2 == 1 && n > TWO53 && AllOnes(n / 2))
  }

  lemma {:induction false} OnesRoundUp(n: nat)
    requires AllOnes(n)
    ensures RoundRest(n, AboveHalf) == n + 1
  {
    if n == TWO53 - 1 {
    } else {
      OnesRoundUp(n / 2);
    }
  }
}
