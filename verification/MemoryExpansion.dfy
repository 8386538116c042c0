/** The memory limit given to an agent that ran out of memory. */
module MemoryExpansion {

  const BOUNDARY := 128
  const ABSOLUTE_MAX := 2048

  /** Go's division, which truncates towards zero. */
  function Quotient(a: int, b: int): int
    requires b > 0
  {
    if a >= 0 then a / b else -(-a / b)
  }

  function Cap(initial: int): int { if initial * 2 < ABSOLUTE_MAX then ABSOLUTE_MAX else initial * 2 }

  /** expandMemoryLimit. */
  function Expand(current: int, initial: int): (int, bool) {
    if current >= Cap(initial) then (current, false)
    else
      var more := Quotient(current * 3, 2);
      var rounded := Quotient(more + BOUNDARY - 1, BOUNDARY) * BOUNDARY;
      (if rounded > Cap(initial) then Cap(initial) else rounded, true)
  }

  /** A grant raises the limit, an even one by at least half, or to the cap, and ends on a boundary or
      the cap. (By half is too much to say of odd limits: 171 becomes 256.) */
  lemma GrantRaises(current: int, initial: int)
    requires current >= 1
    ensures var (next, granted) := Expand(current, initial);
      && (granted <==> current < Cap(initial))
      && (granted ==> current < next <= Cap(initial))
      && (granted ==> next % BOUNDARY == 0 || next == Cap(initial))
      && (granted ==> next == Cap(initial) || (next >= BOUNDARY && (current % 2 == 0 ==> 2 * next >= 3 * current)))
      && (!granted ==> next == current)
  {
  }

  /** How far: to the least multiple of 128 that is not below one and a half times the limit, rounded down,
      or to the greater of 2048 and twice the initial limit if that is less. */
  lemma GrantIsLeast(current: int, initial: int)
    requires current >= 1 && Expand(current, initial).1
    ensures var next := Expand(current, initial).0; var cap := if 2 * initial > 2048 then 2 * initial else 2048;
      && (next == cap || (next < cap && next % 128 == 0 && 3 * current <= 2 * next + 1))
      && forall m :: m % 128 == 0 && 3 * current <= 2 * m + 1 ==> next <= m
  {
    var more := current * 3 / 2;
    var rounded := (more + 127) / 128 * 128;
    assert Expand(current, initial).0 == if rounded > Cap(initial) then Cap(initial) else rounded;
    forall m | m % 128 == 0 && 3 * current <= 2 * m + 1
      ensures rounded <= m
    {
      LeastMultiple(more, m);
    }
  }

  lemma LeastMultiple(x: int, m: int)
    requires m % 128 == 0 && x <= m
    ensures (x + 127) / 128 * 128 <= m
  {}

  /** From nothing nothing comes: a limit of zero is granted again and again without being raised. */
  lemma ZeroIsGrantedForever(initial: int)
    ensures Expand(0, initial) == (0, true)
  {}

  /** Every intermediate value stays within 64 bits as long as the initial limit is below 2^60. */
  lemma FitsIn64Bits(current: int, initial: int)
    requires 1 <= current && 0 <= initial < 0x1000_0000_0000_0000
    ensures Cap(initial) < 0x8000_0000_0000_0000
    ensures current < Cap(initial) ==> current * 3 < 0x8000_0000_0000_0000
    ensures current < Cap(initial) ==> current * 3 / 2 + BOUNDARY - 1 < 0x8000_0000_0000_0000
  {}

  function Iterate(current: int, initial: int, n: nat): int {
    if n == 0 then current else Expand(Iterate(current, initial, n - 1), initial).0
  }

  function Power(base: nat, k: nat): nat { if k == 0 then 1 else base * Power(base, k - 1) }

  /** x has grown by half k times from the boundary, on boundaries, or is the cap. */
  predicate HasGrown(x: int, cap: int, k: nat) {
    && 1 <= x <= cap
    && (x == cap || (x % BOUNDARY == 0 && x * Power(2, k) >= BOUNDARY * Power(3, k)))
  }

  lemma {:induction false} GrowsGeometrically(current: int, initial: int, k: nat)
    requires 1 <= current <= Cap(initial)
    ensures HasGrown(Iterate(current, initial, k + 1), Cap(initial), k)
  {
    if k == 0 {
      GrantRaises(current, initial);
      assert Iterate(current, initial, 1) == Expand(Iterate(current, initial, 0), initial).0;
    } else {
      GrowsGeometrically(current, initial, k - 1);
      var x := Iterate(current, initial, k);
      assert Iterate(current, initial, k + 1) == Expand(x, initial).0;
      GrowsOnce(x, initial, k - 1);
    }
  }

  lemma GrowsOnce(x: int, initial: int, k: nat)
    requires HasGrown(x, Cap(initial), k)
    ensures HasGrown(Expand(x, initial).0, Cap(initial), k + 1)
  {
    hide Expand, Cap, Power;
    var (next, cap) := (Expand(x, initial).0, Cap(initial));
    GrantRaises(x, initial);
    OneMorePower(2, k);
    OneMorePower(3, k);
    if next != cap {
      EvenOnBoundary(x);
      OneMoreHalf(x, next, Power(2, k), Power(3, k));
    }
  }

  lemma OneMorePower(base: nat, k: nat)
    ensures Power(base, k + 1) == base * Power(base, k)
  {}

  lemma EvenOnBoundary(x: int)
    requires x % BOUNDARY == 0
    ensures x % 2 == 0
  {}

  lemma OneMoreHalf(x: nat, next: nat, p: nat, q: nat)
    requires 2 * next >= 3 * x && x * p >= BOUNDARY * q
    ensures next * (2 * p) >= BOUNDARY * (3 * q)
  {
    Monotone(3 * x, 2 * next, p);
    assert next * (2 * p) == 2 * next * p;
    assert 3 * x * p == 3 * (x * p);
  }

  lemma Monotone(a: nat, b: nat, p: nat)
    requires a <= b
    ensures a * p <= b * p
    ensures a < b && p > 0 ==> a * p < b * p
  {}

  /** Repeated expansion reaches the cap, at the latest one step after 1.5^k makes up for cap / 128,
      and stays there. */
  lemma {:induction false} ReachesCap(current: int, initial: int, k: nat, n: nat)
    requires 1 <= current <= Cap(initial) && n > k
    requires BOUNDARY * Power(3, k) >= Cap(initial) * Power(2, k)
    ensures Iterate(current, initial, n) == Cap(initial)
    decreases n
  {
    if n == k + 1 {
      GrowsGeometrically(current, initial, k);
      PowerIsPositive(2, k);
      hide *;
      var x := Iterate(current, initial, n);
      if x < Cap(initial) {
        Monotone(x, Cap(initial), Power(2, k));
        assert false;
      }
    } else {
      ReachesCap(current, initial, k, n - 1);
    }
  }

  lemma {:induction false} PowerIsPositive(base: nat, k: nat)
    requires base > 0
    ensures Power(base, k) > 0
  {
    if k > 0 {
      PowerIsPositive(base, k - 1);
    }
  }
}
