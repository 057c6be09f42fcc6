/** Arithmetic on (seconds, nanoseconds) pairs of C longs.  Every value stored in a field is checked to
    fit a 64-bit long, so a verified method has no signed overflow on the inputs it accepts. */
module Timespec {
  import opened Bits

  const NSEC_PER_SEC: int := 1_000_000_000
  const LONG_MAX: int := 0x7FFF_FFFF_FFFF_FFFF

  type Long = x: int | InLong(x)

  predicate InLong(x: int) {
    -LONG_MAX - 1 <= x <= LONG_MAX
  }

  datatype Timespec = Timespec(sec: Long, nsec: Long)

  /** The number of nanoseconds a pair stands for. */
  function Total(ts: Timespec): int {
    ts.sec * NSEC_PER_SEC + ts.nsec
  }

  function Abs(x: int): nat {
    if x < 0 then -x else x
  }

  /** C's division and remainder, which truncate toward zero. */
  function TDiv(x: int, y: nat): int
    requires y > 0
  {
    if x < 0 then -(-x / y) else x / y
  }

  function TRem(x: int, y: nat): int
    requires y > 0
  {
    x - TDiv(x, y) * y
  }

  /** Nanoseconds within one second, and of the sign of the seconds. */
  predicate Normal(ts: Timespec) {
    && -NSEC_PER_SEC < ts.nsec < NSEC_PER_SEC
    && !(ts.sec > 0 && ts.nsec < 0)
    && !(ts.sec < 0 && ts.nsec > 0)
  }

  predicate Representable(n: int) {
    InLong(TDiv(n, NSEC_PER_SEC))
  }

  /** The normal form of n nanoseconds. */
  function Canonical(n: int): (ts: Timespec)
    requires Representable(n)
    ensures Normal(ts) && Total(ts) == n
  {
    Timespec(TDiv(n, NSEC_PER_SEC), TRem(n, NSEC_PER_SEC))
  }

  /** A value has one normal form. */
  lemma NormalIsCanonical(ts: Timespec)
    requires Normal(ts)
    ensures Representable(Total(ts)) && ts == Canonical(Total(ts))
  {
  }

  /** Carrying whole seconds out of the nanoseconds does not overflow. */
  predicate Carries(ts: Timespec) {
    InLong(ts.sec + TDiv(ts.nsec, NSEC_PER_SEC))
  }

  method Normalise(ts: Timespec) returns (r: Timespec)
    requires Carries(ts)
    ensures Representable(Total(ts)) && r == Canonical(Total(ts))
  {
    r := CarryUp(ts);
    r := CarryDown(r);
    if r.nsec < 0 && r.sec > 0 {
      r := r.(sec := r.sec - 1);
      r := r.(nsec := NSEC_PER_SEC - (-1 * r.nsec));
    } else if r.nsec > 0 && r.sec < 0 {
      r := r.(sec := r.sec + 1);
      r := r.(nsec := -NSEC_PER_SEC - (-1 * r.nsec));
    }
    NormalIsCanonical(r);
  }

  method CarryUp(ts: Timespec) returns (r: Timespec)
    requires Carries(ts)
    ensures Total(r) == Total(ts) && Carries(r) && r.nsec < NSEC_PER_SEC
  {
    r := ts;
    while r.nsec >= NSEC_PER_SEC
      invariant Total(r) == Total(ts) && Carries(r)
      decreases r.nsec
    {
      r := r.(sec := r.sec + 1);
      r := r.(nsec := r.nsec - NSEC_PER_SEC);
    }
  }

  method CarryDown(ts: Timespec) returns (r: Timespec)
    requires Carries(ts) && ts.nsec < NSEC_PER_SEC
    ensures Total(r) == Total(ts) && -NSEC_PER_SEC < r.nsec < NSEC_PER_SEC
  {
    r := ts;
    while r.nsec <= -NSEC_PER_SEC
      invariant Total(r) == Total(ts) && Carries(r) && r.nsec < NSEC_PER_SEC
      decreases Abs(r.nsec)
    {
      r := r.(sec := r.sec - 1);
      r := r.(nsec := r.nsec + NSEC_PER_SEC);
    }
  }

  /** The seconds of a and b, with sign s on b, can be added before the carry. */
  predicate Adds(a: Timespec, b: Timespec, s: int) {
    && Carries(a) && Carries(b)
    && Representable(Total(a)) && Representable(Total(b))
    && InLong(Canonical(Total(a)).sec + s * Canonical(Total(b)).sec)
    && Representable(Total(a) + s * Total(b))
  }

  method Add(a: Timespec, b: Timespec) returns (r: Timespec)
    requires Adds(a, b, 1)
    ensures r == Canonical(Total(a) + Total(b))
  {
    var ts1 := Normalise(a);
    var ts2 := Normalise(b);
    ts1 := ts1.(sec := ts1.sec + ts2.sec);
    ts1 := ts1.(nsec := ts1.nsec + ts2.nsec);
    r := Normalise(ts1);
  }

  method Sub(a: Timespec, b: Timespec) returns (r: Timespec)
    requires Adds(a, b, -1)
    ensures r == Canonical(Total(a) - Total(b))
  {
    var ts1 := Normalise(a);
    var ts2 := Normalise(b);
    ts1 := ts1.(sec := ts1.sec - ts2.sec);
    ts1 := ts1.(nsec := ts1.nsec - ts2.nsec);
    r := Normalise(ts1);
  }

  // Comparators

  predicate Eq(a: Timespec, b: Timespec) { a.sec == b.sec && a.nsec == b.nsec }
  predicate Gt(a: Timespec, b: Timespec) { a.sec > b.sec || (a.sec == b.sec && a.nsec > b.nsec) }
  predicate Ge(a: Timespec, b: Timespec) { a.sec > b.sec || (a.sec == b.sec && a.nsec >= b.nsec) }
  predicate Lt(a: Timespec, b: Timespec) { a.sec < b.sec || (a.sec == b.sec && a.nsec < b.nsec) }
  predicate Le(a: Timespec, b: Timespec) { a.sec < b.sec || (a.sec == b.sec && a.nsec <= b.nsec) }

  /** On normal values the comparators are the order of the times. */
  lemma ComparatorsAreOrder(a: Timespec, b: Timespec)
    requires Normal(a) && Normal(b)
    ensures Eq(a, b) <==> Total(a) == Total(b)
    ensures Gt(a, b) <==> Total(a) > Total(b)
    ensures Ge(a, b) <==> Total(a) >= Total(b)
    ensures Lt(a, b) <==> Total(a) < Total(b)
    ensures Le(a, b) <==> Total(a) <= Total(b)
  {
    NormalIsCanonical(a);
    NormalIsCanonical(b);
  }

  // Modulus

  function FlooredMod(x: int, y: int): int
    requires y != 0
  {
    if y > 0 then x % y else -((-x) % (-y))
  }

  /** The floored modulus is congruent to the dividend, smaller than the divisor, and of its sign. */
  lemma FlooredModLaw(x: int, y: int) returns (q: int)
    requires y != 0
    ensures x == q * y + FlooredMod(x, y)
    ensures if y > 0 then 0 <= FlooredMod(x, y) < y else y < FlooredMod(x, y) <= 0
  {
    q := if y > 0 then x / y else (-x) / (-y);
  }

  const SHIFT_LIMIT: int := LONG_MAX / 2

  /** The divisor shifted left i times has reached the limit of the shift loop: its seconds field,
      which is one short of its whole seconds when the nanoseconds field stands at a full second. */
  predicate StopsAt(n: nat, i: nat) {
    && Shl(n, i) >= SHIFT_LIMIT * NSEC_PER_SEC
    && (n % NSEC_PER_SEC == 0 || Shl(n, i) != SHIFT_LIMIT * NSEC_PER_SEC)
  }

  /** The shift stopped at the limit although the dividend holds the shifted divisor twice. */
  ghost predicate Saturates(x: int, y: int) {
    exists i: nat :: StopsAt(Abs(y), i) && TooFar(x, y, Shl(Abs(y), i))
  }

  predicate TooFar(x: int, y: int, shifted: nat) {
    if (x < 0) == (y < 0) then 2 * shifted <= Abs(x) else 2 * shifted < Abs(x)
  }

  /** Never for a dividend of at most LONG_MAX - 2 seconds. */
  lemma SmallNeverSaturates(x: int, y: int)
    requires Abs(x) < (LONG_MAX - 1) * NSEC_PER_SEC
    ensures !Saturates(x, y)
  {
  }

  /** LONG_MAX seconds modulo LONG_MAX / 2 seconds. */
  lemma SaturationExample()
    ensures Saturates(LONG_MAX * NSEC_PER_SEC, SHIFT_LIMIT * NSEC_PER_SEC)
  {
    var y := SHIFT_LIMIT * NSEC_PER_SEC;
    assert Shl(Abs(y), 0) == y;
    assert StopsAt(Abs(y), 0);
  }

  /** A shifted divisor: i doublings of n nanoseconds in the fields as the loops keep them. */
  predicate Shifted(ts: Timespec, n: nat, i: nat) {
    && Total(ts) == Shl(n, i)
    && ts.sec >= 0 && 0 <= ts.nsec <= NSEC_PER_SEC
    && (ts.nsec == NSEC_PER_SEC ==> ts.sec < LONG_MAX)
  }

  /** A full second in the nanoseconds field does not upset the comparison. */
  lemma GeIsOrder(a: Timespec, b: Timespec)
    requires a.sec >= 0 && 0 <= a.nsec < NSEC_PER_SEC
    requires b.sec >= 0 && 0 <= b.nsec <= NSEC_PER_SEC
    ensures Ge(a, b) <==> Total(a) >= Total(b)
  {
  }

  method ShiftUp(ts: Timespec, ghost n: nat, ghost i: nat) returns (r: Timespec)
    requires Shifted(ts, n, i) && ts.sec < SHIFT_LIMIT
    ensures Shifted(r, n, i + 1)
    ensures r.nsec == 0 <==> ts.nsec == 0
  {
    r := ts.(nsec := ts.nsec * 2);
    r := r.(sec := r.sec * 2);
    if r.nsec > NSEC_PER_SEC {
      r := r.(nsec := r.nsec - NSEC_PER_SEC);
      r := r.(sec := r.sec + 1);
    }
  }

  method ShiftDown(ts: Timespec, ghost n: nat, ghost i: nat) returns (r: Timespec)
    requires Shifted(ts, n, i + 1)
    ensures Shifted(r, n, i)
  {
    r := ts;
    if r.sec % 2 == 1 {
      r := r.(nsec := r.nsec + NSEC_PER_SEC);
    }
    r := r.(nsec := r.nsec / 2);
    r := r.(sec := r.sec / 2);
  }

  lemma FieldAtLimit(ts: Timespec, n: nat, i: nat)
    requires Shifted(ts, n, i) && (ts.nsec == 0 <==> n % NSEC_PER_SEC == 0)
    ensures ts.sec >= SHIFT_LIMIT <==> StopsAt(n, i)
  {
  }

  /** First loop of the modulus: the divisor is doubled past the dividend, as far as its seconds field
      allows. */
  method ShiftAbove(ts1: Timespec, divisor: Timespec) returns (ts2: Timespec, i: nat)
    requires Normal(ts1) && Total(ts1) >= 0
    requires Normal(divisor) && Total(divisor) > 0
    ensures Shifted(ts2, Total(divisor), i)
    ensures forall j: nat :: j < i ==> !StopsAt(Total(divisor), j)
    ensures StopsAt(Total(divisor), i) || Total(ts1) < Shl(Total(divisor), i)
  {
    ghost var n := Total(divisor);
    ts2, i := divisor, 0;
    while ts2.sec < SHIFT_LIMIT && Ge(ts1, ts2)
      invariant Shifted(ts2, n, i) && Total(ts2) > 0
      invariant ts2.nsec == 0 <==> n % NSEC_PER_SEC == 0
      invariant forall j: nat :: j < i ==> !StopsAt(n, j)
      decreases Total(ts1) - Total(ts2)
    {
      GeIsOrder(ts1, ts2);
      FieldAtLimit(ts2, n, i);
      ts2 := ShiftUp(ts2, n, i);
      i := i + 1;
    }
    FieldAtLimit(ts2, n, i);
    GeIsOrder(ts1, ts2);
  }

  /** Second loop of the modulus: subtract the divisor at each shift, from shift i down to none. */
  method Reduce(dividend: Timespec, shifted: Timespec, top: nat, ghost n: nat) returns (ts1: Timespec, ts2: Timespec)
    requires Normal(dividend) && Total(dividend) >= 0
    requires n > 0 && Shifted(shifted, n, top)
    ensures Normal(ts1) && Total(ts1) >= 0 && Shifted(ts2, n, 0)
    ensures Total(dividend) < 2 * Shl(n, top) ==> Total(ts1) == Total(dividend) % n
    ensures Total(dividend) >= 2 * Shl(n, top) ==>
              Total(ts1) == Total(dividend) - 2 * Shl(n, top) + n
  {
    ghost var start := Total(dividend);
    ghost var far := start >= 2 * Shl(n, top);
    ts1, ts2 := dividend, shifted;
    var i := top;
    while true
      invariant Normal(ts1) && Total(ts1) >= 0
      invariant Shifted(ts2, n, i)
      invariant start % n == Total(ts1) % n
      invariant !far ==> Total(ts1) < 2 * Shl(n, i)
      invariant far ==> Total(ts1) >= 2 * Shl(n, i) && Total(ts1) == start - 2 * Shl(n, top) + 2 * Shl(n, i)
      decreases i
    {
      GeIsOrder(ts1, ts2);
      if Ge(ts1, ts2) {
        MultipleOfShifted(Total(ts1) - Total(ts2), n, i);
        ts1 := SubMagnitudes(ts1, ts2);
      }
      if i == 0 {
        if !far { DivUnique(Total(ts1), n, 0, Total(ts1)); }
        break;
      }
      i := i - 1;
      ts2 := ShiftDown(ts2, n, i);
    }
  }

  lemma {:induction false} MultipleOfShifted(x: int, n: nat, i: nat)
    requires n > 0
    ensures (x + Shl(n, i)) % n == x % n
    decreases i
  {
    if i == 0 {
      AddMultiple(x, n, 1);
    } else {
      MultipleOfShifted(x + Shl(n, i - 1), n, i - 1);
      MultipleOfShifted(x, n, i - 1);
    }
  }

  method SubMagnitudes(a: Timespec, b: Timespec) returns (r: Timespec)
    requires Normal(a) && Total(a) >= 0
    requires b.sec >= 0 && 0 <= b.nsec <= NSEC_PER_SEC
    requires b.nsec == NSEC_PER_SEC ==> b.sec < LONG_MAX
    ensures Normal(r) && Total(r) == Total(a) - Total(b)
  {
    NormalIsCanonical(a);
    r := Sub(a, b);
  }

  /** A negated pair of C longs must not hold LONG_MIN. */
  predicate Negatable(ts: Timespec) {
    Abs(Total(ts)) < (LONG_MAX + 1) * NSEC_PER_SEC
  }

  function Negated(ts: Timespec): (r: Timespec)
    requires Normal(ts) && Negatable(ts)
    ensures Normal(r) && Total(r) == -Total(ts)
  {
    Timespec(-ts.sec, -ts.nsec)
  }

  /** The magnitude of a time, with its sign apart. */
  method Magnitude(ts: Timespec) returns (r: Timespec, neg: bool)
    requires Normal(ts) && Negatable(ts)
    ensures Normal(r) && Total(r) == Abs(Total(ts))
    ensures neg <==> Total(ts) < 0
  {
    r, neg := ts, false;
    if ts.sec < 0 || ts.nsec < 0 {
      neg := true;
      r := Negated(ts);
    }
  }

  /** The two loops of the modulus, for the magnitudes of times x and y. */
  method ReduceMagnitudes(ts1: Timespec, ts2: Timespec, ghost x: int, ghost y: int)
    returns (rest: Timespec, divisor: Timespec)
    requires Normal(ts1) && Total(ts1) == Abs(x)
    requires Normal(ts2) && Total(ts2) == Abs(y) && y != 0
    ensures Normal(rest) && Total(rest) >= 0
    ensures Shifted(divisor, Abs(y), 0)
    ensures Signed(x, y, Total(rest)) == FlooredMod(x, y) <==> !Saturates(x, y)
  {
    hide FlooredMod, StopsAt, Saturates, Signed;
    var i;
    divisor, i := ShiftAbove(ts1, ts2);
    SaturatesAt(x, y, i);
    rest, divisor := Reduce(ts1, divisor, i, Total(ts2));
    if Abs(x) < 2 * Shl(Abs(y), i) {
      SignedRemainder(x, y, Total(rest));
    } else {
      SignedExcess(x, y, i, Total(rest));
    }
  }

  /** The floored modulus of the times, exactly when the shift does not saturate. */
  method Mod(a: Timespec, b: Timespec) returns (r: Timespec)
    requires Carries(a) && Carries(b)
    requires Total(b) != 0 ==> Negatable(a) && Negatable(b)
    ensures Normal(r)
    ensures Total(b) == 0 ==> Total(r) == Total(a)
    ensures Total(b) != 0 ==> (Total(r) == FlooredMod(Total(a), Total(b)) <==> !Saturates(Total(a), Total(b)))
  {
    hide FlooredMod, StopsAt, Saturates, TooFar, TDiv, TRem, Canonical, Carries, Representable, Signed;
    var ts1 := Normalise(a);
    var ts2 := Normalise(b);
    if ts2.sec == 0 && ts2.nsec == 0 {
      return ts1;
    }
    var neg1, neg2;
    ts1, neg1 := Magnitude(ts1);
    ts2, neg2 := Magnitude(ts2);
    ts1, ts2 := ReduceMagnitudes(ts1, ts2, Total(a), Total(b));
    r := RestoreSign(ts1, ts2, neg1, neg2, Total(a), Total(b));
  }

  /** The modulus goes wrong on LONG_MAX seconds modulo LONG_MAX / 2 seconds. */
  method SaturatedMod() returns (a: Timespec, b: Timespec, r: Timespec)
    ensures a == Timespec(0x7FFF_FFFF_FFFF_FFFF, 0) && b == Timespec(0x3FFF_FFFF_FFFF_FFFF, 0) && Total(b) != 0
    ensures Total(r) != FlooredMod(Total(a), Total(b))
  {
    a, b := Timespec(LONG_MAX, 0), Timespec(SHIFT_LIMIT, 0);
    SaturationExample();
    r := Mod(a, b);
  }

  /** From the remainder of the magnitudes to the modulus: its sign is to be the divisor's. */
  method RestoreSign(rest: Timespec, divisor: Timespec, neg1: bool, neg2: bool, ghost x: int, ghost y: int)
    returns (r: Timespec)
    requires Normal(rest) && Total(rest) >= 0
    requires Shifted(divisor, Abs(y), 0)
    requires (neg1 <==> x < 0) && (neg2 <==> y < 0)
    ensures Normal(r) && Total(r) == Signed(x, y, Total(rest))
  {
    var ts1 := rest;
    if neg1 != neg2 && (ts1.sec != 0 || ts1.nsec != 0) {
      ts1 := SubMagnitudes(ts1, divisor);
    }
    r := if neg1 then Negated(ts1) else ts1;
  }

  /** What the last two steps of the modulus make of the reduced magnitude m. */
  function Signed(x: int, y: int, m: int): int {
    var d := if (x < 0) != (y < 0) && m != 0 then m - Abs(y) else m;
    if x < 0 then -d else d
  }

  lemma SignedRemainder(x: int, y: int, m: int)
    requires y != 0 && m == Abs(x) % Abs(y)
    ensures Signed(x, y, m) == FlooredMod(x, y)
  {
    var k: int, n, q := Abs(x), Abs(y), Abs(x) / Abs(y);
    assert k == q * n + m;
    if m == 0 {
      DivUnique(-k, n, -q, 0);
    } else {
      assert -k == (-q - 1) * n + (n - m);
      DivUnique(-k, n, -q - 1, n - m);
    }
  }

  lemma SignedExcess(x: int, y: int, i: nat, m: int)
    requires y != 0 && Abs(x) >= 2 * Shl(Abs(y), i) && m == Abs(x) - 2 * Shl(Abs(y), i) + Abs(y)
    ensures Signed(x, y, m) == FlooredMod(x, y) <==> !TooFar(x, y, Shl(Abs(y), i))
  {
    var n := Abs(y);
    if m == n {
      MultipleOfShifted(Shl(n, i), n, i);
      MultipleOfShifted(0, n, i);
      SignedRemainder(x, y, 0);
    }
  }

  /** The place where the shift loop stops decides. */
  lemma SaturatesAt(x: int, y: int, i: nat)
    requires y != 0
    requires forall j: nat :: j < i ==> !StopsAt(Abs(y), j)
    requires StopsAt(Abs(y), i) || Abs(x) < Shl(Abs(y), i)
    ensures Saturates(x, y) <==> TooFar(x, y, Shl(Abs(y), i))
  {
    if Saturates(x, y) {
      var k: nat :| StopsAt(Abs(y), k) && TooFar(x, y, Shl(Abs(y), k));
      ShlMonotone(Abs(y), i, k);
    }
  }

  // Milliseconds

  lemma MsFields(m: Long)
    ensures InLong(TDiv(m, 1000)) && -1000 < TRem(m, 1000) < 1000
    ensures var ts := Timespec(TDiv(m, 1000), TRem(m, 1000) * 1_000_000);
            Normal(ts) && Total(ts) == m * 1_000_000 && ToMs(ts) == m
  {
    assert InLong(m);
  }

  method FromMs(milliseconds: Long) returns (r: Timespec)
    ensures Normal(r) && Total(r) == milliseconds * 1_000_000
  {
    MsFields(milliseconds);
    r := Normalise(Timespec(TDiv(milliseconds, 1000), TRem(milliseconds, 1000) * 1_000_000));
  }

  function ToMs(ts: Timespec): int {
    ts.sec * 1000 + TDiv(ts.nsec, 1_000_000)
  }

  /** A normal time is truncated toward zero, on both sides of zero. */
  lemma ToMsTruncates(ts: Timespec)
    requires Normal(ts)
    ensures ToMs(ts) == TDiv(Total(ts), 1_000_000)
  {
  }

  /** Any normal time of a whole number of milliseconds converts back to that number. */
  lemma MsRoundTrip(ts: Timespec, milliseconds: Long)
    requires Normal(ts) && Total(ts) == milliseconds * 1_000_000
    ensures ToMs(ts) == milliseconds
  {
    MsFields(milliseconds);
    NormalIsCanonical(ts);
    NormalIsCanonical(Timespec(TDiv(milliseconds, 1000), TRem(milliseconds, 1000) * 1_000_000));
  }
}
