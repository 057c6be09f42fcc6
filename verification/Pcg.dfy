/** The PCG32 generator of the firmware's packet generators: a 64-bit linear congruential state, a
    32-bit permuted output, and bounded draws by rejection. */
module Pcg {
  import opened Bits
  import opened Common
  import opened Counting

  const MULTIPLIER: nat := 6364136223846793005
  const TWO64: nat := 0x1_0000_0000_0000_0000

  type U64 = x: nat | x < TWO64

  // The state sequence

  function Next(s: U64, inc: U64): (t: U64) {
    (s * MULTIPLIER + inc) % TWO64
  }

  /** The state after n draws. */
  function Iter(s: U64, inc: U64, n: nat): (t: U64)
    decreases n
  {
    if n == 0 then s else Iter(Next(s, inc), inc, n - 1)
  }

  lemma {:induction false} IterAdd(s: U64, inc: U64, m: nat, n: nat)
    ensures Iter(s, inc, m + n) == Iter(Iter(s, inc, m), inc, n)
    decreases m
  {
    if m > 0 {
      IterAdd(Next(s, inc), inc, m - 1, n);
    }
  }

  /** Coefficients (t, u) of the affine map that Pow2(k) draws make up, see Affine. */
  function Jump(k: nat, inc: U64): (j: (nat, nat)) {
    if k == 0 then ((MULTIPLIER - 1) / 4, inc / 2)
    else
      var (t, u) := Jump(k - 1, inc);
      Double(t, u, Pow2(k - 1))
  }

  function Double(t: nat, u: nat, p: nat): (nat, nat) {
    (t + 2 * (p * (t * t)), u + p * t * (2 * u + 1))
  }

  function Affine(t: nat, u: nat, p: nat, s: nat): nat {
    s + 4 * p * t * s + p * (2 * u + 1)
  }

  lemma AffineTwice(t: nat, u: nat, p: nat, s: nat)
    ensures Affine(t, u, p, Affine(t, u, p, s))
         == Affine(Double(t, u, p).0, Double(t, u, p).1, 2 * p, s)
  {
    var a := 4 * p * t;
    var c := p * (2 * u + 1);
    var (t', u') := Double(t, u, p);
    assert 4 * (2 * p) * t' == 2 * a + a * a;
    assert (2 * p) * (2 * u' + 1) == 2 * c + a * c;
    assert (s + a * s + c) + a * (s + a * s + c) + c == s + (2 * a + a * a) * s + (2 * c + a * c);
  }

  lemma AffineMod(t: nat, u: nat, p: nat, s: nat, m: nat)
    requires m > 0
    ensures Affine(t, u, p, s % m) % m == Affine(t, u, p, s) % m
  {
    var q, r := s / m, s % m;
    var a := 4 * p * t;
    assert s == r + q * m;
    assert s + a * s == r + a * r + (q + a * q) * m;
    AddMultiple(Affine(t, u, p, r), m, q + a * q);
  }

  lemma OneDraw(s: U64, inc: U64)
    requires inc % 2 == 1
    ensures Iter(s, inc, 1) == Affine((MULTIPLIER - 1) / 4, inc / 2, 1, s) % TWO64
  {
    assert Iter(s, inc, 1) == Iter(Next(s, inc), inc, 0);
    assert inc == 2 * (inc / 2) + 1;
  }

  lemma {:induction false} IterPow2(s: U64, inc: U64, k: nat)
    requires inc % 2 == 1
    ensures var (t, u) := Jump(k, inc); Iter(s, inc, Pow2(k)) == Affine(t, u, Pow2(k), s) % TWO64
    decreases k
  {
    if k == 0 {
      OneDraw(s, inc);
    } else {
      hide Affine, Double, Iter;
      var p := Pow2(k - 1);
      var (t, u) := Jump(k - 1, inc);
      IterAdd(s, inc, p, p);
      IterPow2(s, inc, k - 1);
      IterPow2(Iter(s, inc, p), inc, k - 1);
      AffineMod(t, u, p, Affine(t, u, p, s), TWO64);
      AffineTwice(t, u, p, s);
    }
  }

  lemma Pow2Divides64(k: nat)
    requires k <= 64
    ensures TWO64 == Pow2(k) * Pow2(64 - k)
  {
    Pow2Add(k, 64 - k);
    Pow2Of64();
  }

  lemma Pow2Of4()
    ensures Pow2(4) == 16
  {
  }

  lemma Pow2Of64()
    ensures Pow2(32) == WRAP && Pow2(64) == TWO64
  {
    hide Pow2;
    Pow2Of4();
    Pow2Add(4, 4);
    Pow2Add(8, 8);
    Pow2Add(16, 16);
    Pow2Add(32, 32);
  }

  /** Pow2(k) draws flip bit k of the state and keep the bits below it. */
  lemma PowerStep(s: U64, inc: U64, k: nat)
    requires inc % 2 == 1 && k < 64
    ensures Iter(s, inc, Pow2(k)) % Pow2(k + 1) == (s + Pow2(k)) % Pow2(k + 1)
  {
    hide Affine, Jump, Iter, Pow2;
    var (t, u) := Jump(k, inc);
    IterPow2(s, inc, k);
    Pow2Divides64(k + 1);
    Pow2Next(k);
    AffineLowBits(t, u, Pow2(k), s, Pow2(63 - k));
  }

  lemma AffineLowBits(t: nat, u: nat, p: nat, s: nat, w: nat)
    requires p > 0 && w > 0
    ensures Affine(t, u, p, s) % (2 * p * w) % (2 * p) == (s + p) % (2 * p)
  {
    ModMod(Affine(t, u, p, s), 2 * p, w);
    assert Affine(t, u, p, s) == s + p + (2 * t * s + u) * (2 * p);
    AddMultiple(s + p, 2 * p, 2 * t * s + u);
  }

  lemma {:induction false} PowerSteps(s: U64, inc: U64, k: nat, n: nat)
    requires inc % 2 == 1 && k < 64
    ensures Iter(s, inc, n * Pow2(k)) % Pow2(k + 1) == (s + n * Pow2(k)) % Pow2(k + 1)
    decreases n
  {
    hide Iter, Pow2;
    Pow2Next(k);
    if n == 0 {
      IterNone(s, inc);
    } else {
      var p := Pow2(k);
      assert n * p == (n - 1) * p + p;
      IterAdd(s, inc, (n - 1) * p, p);
      var mid := Iter(s, inc, (n - 1) * p);
      PowerSteps(s, inc, k, n - 1);
      PowerStep(mid, inc, k);
      ModAdd(mid, s + (n - 1) * p, p, 2 * p);
    }
  }

  lemma IterNone(s: U64, inc: U64)
    ensures Iter(s, inc, 0) == s
  {
  }

  lemma ModAdd(x: int, y: int, d: int, m: nat)
    requires m > 0 && x % m == y % m
    ensures (x + d) % m == (y + d) % m
  {
    var q, r, k := x / m, x % m, y / m;
    assert x == r + q * m && y == r + k * m;
    AddMultiple(r + d, m, q);
    AddMultiple(r + d, m, k);
  }

  /** No state comes back before 2^64 draws. */
  lemma NoShortCycle(s: U64, inc: U64, d: nat)
    requires inc % 2 == 1 && 0 < d < TWO64
    ensures Iter(s, inc, d) != s
  {
    hide Pow2, Iter;
    var k, n := OddPart(d);
    if k >= 64 {
      Pow2Monotone(64, k);
      Pow2Of64();
      MulMonotone(1, n, Pow2(k));
      assert false;
    }
    PowerSteps(s, inc, k, n);
    OddShift(s, n, Pow2(k));
    Pow2Next(k);
  }

  lemma Pow2Next(k: nat)
    ensures Pow2(k + 1) == 2 * Pow2(k)
  {
  }

  lemma OddShift(s: nat, n: nat, p: nat)
    requires n % 2 == 1 && p > 0
    ensures (s + n * p) % (2 * p) != s % (2 * p)
  {
    assert s + n * p == s + p + (n / 2) * (2 * p);
    AddMultiple(s + p, 2 * p, n / 2);
    var q, r := s / (2 * p), s % (2 * p);
    assert s == q * (2 * p) + r;
    if r < p {
      DivUnique(s + p, 2 * p, q, r + p);
    } else {
      assert s + p == (q + 1) * (2 * p) + (r - p);
      DivUnique(s + p, 2 * p, q + 1, r - p);
    }
  }

  lemma {:induction false} OddPart(d: nat) returns (k: nat, n: nat)
    requires d > 0
    ensures d == n * Pow2(k) && n % 2 == 1
    decreases d
  {
    if d % 2 == 1 {
      k, n := 0, d;
    } else {
      k, n := OddPart(d / 2);
      k := k + 1;
    }
  }

  lemma NoRepeat(s: U64, inc: U64, m: nat, n: nat)
    requires inc % 2 == 1 && m < n < TWO64
    ensures Iter(s, inc, m) != Iter(s, inc, n)
  {
    IterAdd(s, inc, m, n - m);
    NoShortCycle(Iter(s, inc, m), inc, n - m);
  }

  /** The state after n draws, as a map of integers. */
  function Orbit(s: U64, inc: U64): int -> int {
    n => if n < 0 then 0 else Iter(s, inc, n)
  }

  lemma OrbitInjective(s: U64, inc: U64)
    requires inc % 2 == 1
    ensures Injective(Range(TWO64), Orbit(s, inc))
    ensures forall n :: n in Range(TWO64) ==> Orbit(s, inc)(n) in Range(TWO64)
  {
    var f := Orbit(s, inc);
    forall m, n | m in Range(TWO64) && n in Range(TWO64) && f(m) == f(n) ensures m == n {
      if m < n { NoRepeat(s, inc, m, n); } else if n < m { NoRepeat(s, inc, n, m); }
    }
  }

  /** The states of 2^64 consecutive draws are pairwise different and are all of them. */
  lemma FullPeriod(s: U64, inc: U64)
    requires inc % 2 == 1
    ensures Bijection(Range(TWO64), Range(TWO64), Orbit(s, inc))
  {
    OrbitInjective(s, inc);
    Pigeonhole(TWO64, Orbit(s, inc));
  }

  lemma StepsTo(s: U64, t: U64, inc: U64) returns (n: nat)
    requires inc % 2 == 1
    ensures n < TWO64 && Iter(s, inc, n) == t
  {
    hide Iter;
    FullPeriod(s, inc);
    n := Preimage(Range(TWO64), Range(TWO64), Orbit(s, inc), t);
  }

  ghost predicate Reaches(s: U64, t: U64, inc: U64) {
    exists n: nat :: n < TWO64 && Iter(s, inc, n) == t
  }

  /** Every state is reached from every state exactly when the increment is odd. */
  lemma FullPeriodIff(inc: U64)
    ensures inc % 2 == 1 <==> forall s: U64, t: U64 :: Reaches(s, t, inc)
  {
    hide Iter;
    if inc % 2 == 1 {
      forall s: U64, t: U64 ensures Reaches(s, t, inc) {
        var n := StepsTo(s, t, inc);
      }
    } else {
      forall n: nat ensures Iter(0, inc, n) != 1 {
        EvenStays(0, inc, n);
      }
      assert !Reaches(0, 1, inc);
    }
  }

  lemma {:induction false} EvenStays(s: U64, inc: U64, n: nat)
    requires s % 2 == 0 && inc % 2 == 0
    ensures Iter(s, inc, n) % 2 == 0
    decreases n
  {
    hide Next;
    if n > 0 {
      EvenNext(s, inc);
      EvenStays(Next(s, inc), inc, n - 1);
    }
  }

  lemma EvenNext(s: U64, inc: U64)
    requires s % 2 == 0 && inc % 2 == 0
    ensures Next(s, inc) % 2 == 0
  {
    EvenMod(s / 2 * MULTIPLIER + inc / 2, TWO64 / 2);
  }

  lemma EvenMod(h: nat, m: nat)
    requires m > 0
    ensures (2 * h) % (2 * m) % 2 == 0
  {
    ModMod(2 * h, 2, m);
  }

  // The output permutation

  /** The low w bits of ((s >> a) ^ s) >> b. */
  function XorShift(s: nat, a: nat, b: nat, w: nat): nat {
    Low(Shr(Xor(Shr(s, a), s), b), w)
  }

  /** The w-bit word x rotated right by rot. */
  function RotateRight(x: nat, rot: nat, w: nat): nat
    requires rot < w
  {
    Or(Shr(x, rot), Low(Shl(x, if rot == 0 then 0 else w - rot), w))
  }

  function Rotation(s: U64): nat {
    Shr(s, 59)
  }

  function Output(s: U64): (r: U32) {
    RotationSmall(s);
    var x := XorShift(s, 18, 27, 32);
    LowSmall(Shr(Xor(Shr(s, 18), s), 27), 32);
    RotateSmall(x, Rotation(s), 32);
    Pow2Of64();
    RotateRight(x, Rotation(s), 32)
  }

  lemma RotationSmall(s: U64)
    ensures Rotation(s) < 32
  {
    Pow2Of64();
    ShrSmall(s, 59, 5);
    assert Pow2(5) == 32;
  }

  lemma RotateBit(x: nat, rot: nat, w: nat, i: nat)
    requires rot < w && i < w && x < Pow2(w)
    ensures Bit(RotateRight(x, rot, w), i) == Bit(x, if i + rot < w then i + rot else i + rot - w)
  {
    var left := if rot == 0 then 0 else w - rot;
    OrBit(Shr(x, rot), Low(Shl(x, left), w), i);
    ShrBit(x, rot, i);
    LowBit(Shl(x, left), w, i);
    ShlBit(x, left, i);
    if i + rot >= w { SmallBit(x, w, i + rot); }
  }

  lemma RotateSmall(x: nat, rot: nat, w: nat)
    requires rot < w && x < Pow2(w)
    ensures RotateRight(x, rot, w) < Pow2(w)
  {
    ShrSmall(x, rot, w - rot);
    Pow2Monotone(w - rot, w);
    LowSmall(Shl(x, if rot == 0 then 0 else w - rot), w);
    OrSmall(Shr(x, rot), Low(Shl(x, if rot == 0 then 0 else w - rot), w), w);
  }

  /** Bit i of a draw compares two bits of the state, chosen by i and the top five bits of the state. */
  lemma OutputBit(s: U64, i: nat)
    requires i < 32
    ensures var j := (i + s / 0x800_0000_0000_0000) % 32;
            Bit(Output(s), i) <==> Bit(s, 27 + j) != Bit(s, 45 + j)
  {
    hide Bit, Shr, Low, Xor, RotateRight, Pow2, XorShift;
    RotationIs(s);
    RotationSmall(s);
    var x, rot := XorShift(s, 18, 27, 32), Rotation(s);
    var j := (i + rot) % 32;
    XorShiftSmall(s);
    RotateBit(x, rot, 32, i);
    assert j == if i + rot < 32 then i + rot else i + rot - 32;
    XorShiftBit(s, 18, 27, 32, j);
  }

  /** The bits of a draw from state s, all 32 of them. */
  ghost predicate DrawnFrom(r: U32, s: U64) {
    forall i: nat :: i < 32 ==>
      var j := (i + s / 0x800_0000_0000_0000) % 32;
      Bit(r, i) <==> Bit(s, 27 + j) != Bit(s, 45 + j)
  }

  lemma OutputIsDrawn(s: U64)
    ensures DrawnFrom(Output(s), s)
  {
    hide Output, Bit;
    forall i: nat | i < 32
      ensures var j := (i + s / 0x800_0000_0000_0000) % 32;
              Bit(Output(s), i) <==> Bit(s, 27 + j) != Bit(s, 45 + j)
    {
      OutputBit(s, i);
    }
  }

  lemma XorShiftSmall(s: U64)
    ensures XorShift(s, 18, 27, 32) < Pow2(32)
  {
    LowSmall(Shr(Xor(Shr(s, 18), s), 27), 32);
  }

  lemma RotationIs(s: U64)
    ensures Rotation(s) == s / 0x800_0000_0000_0000
  {
    hide Pow2;
    ShrIsDiv(s, 59);
    Pow2Of59();
  }

  lemma Pow2Of59()
    ensures Pow2(59) == 0x800_0000_0000_0000
  {
    hide Pow2;
    Pow2Of64();
    assert Pow2(5) == 32 by { Pow2Of4(); Pow2Next(4); }
    Pow2Add(5, 59);
  }

  lemma RotateInjective(x: nat, y: nat, rot: nat, w: nat)
    requires rot < w && x < Pow2(w) && y < Pow2(w)
    requires RotateRight(x, rot, w) == RotateRight(y, rot, w)
    ensures x == y
  {
    forall j: nat | j < w ensures Bit(x, j) == Bit(y, j) {
      var i := if j >= rot then j - rot else j - rot + w;
      RotateBit(x, rot, w, i);
      RotateBit(y, rot, w, i);
    }
    SameBits(x, y, w);
  }

  lemma XorShiftBit(s: nat, a: nat, b: nat, w: nat, i: nat)
    requires i < w
    ensures Bit(XorShift(s, a, b, w), i) == (Bit(s, i + b + a) != Bit(s, i + b))
  {
    LowBit(Shr(Xor(Shr(s, a), s), b), w, i);
    ShrBit(Xor(Shr(s, a), s), b, i);
    XorBit(Shr(s, a), s, i + b);
    ShrBit(s, a, i + b);
  }

  /** Bit i of an n-bit state follows from its top bits, its low bits and its xor-shift, from the
      top bit down. */
  lemma {:induction false} BitsAgree(s: nat, t: nat, n: nat, a: nat, b: nat, w: nat, i: nat)
    requires s < Pow2(n) && t < Pow2(n) && i < n && a > 0
    requires Shr(s, b + w) == Shr(t, b + w) && Low(s, b) == Low(t, b)
    requires XorShift(s, a, b, w) == XorShift(t, a, b, w)
    ensures Bit(s, i) == Bit(t, i)
    decreases n - i
  {
    if i >= b + w {
      ShrBit(s, b + w, i - b - w);
      ShrBit(t, b + w, i - b - w);
    } else if i < b {
      LowBit(s, b, i);
      LowBit(t, b, i);
    } else {
      XorShiftBit(s, a, b, w, i - b);
      XorShiftBit(t, a, b, w, i - b);
      if i + a < n {
        BitsAgree(s, t, n, a, b, w, i + a);
      } else {
        SmallBit(s, n, i + a);
        SmallBit(t, n, i + a);
      }
    }
  }

  /** The bits of the state that the output leaves open: the five that choose the rotation and
      the low 27. */
  function Key(s: U64): (k: U32) {
    KeySmall(s);
    Shl(Rotation(s), 27) + Low(s, 27)
  }

  lemma KeySmall(s: U64)
    ensures Shl(Rotation(s), 27) + Low(s, 27) < WRAP
  {
    RotationSmall(s);
    LowSmall(s, 27);
    ShlIsMul(Rotation(s), 27);
    MulMonotone(Rotation(s), 31, Pow2(27));
    assert Pow2(5) == 32;
    Pow2Add(5, 27);
    Pow2Of64();
  }

  lemma KeyParts(s: U64, t: U64)
    requires Key(s) == Key(t)
    ensures Rotation(s) == Rotation(t) && Low(s, 27) == Low(t, 27)
  {
    hide Shr, Low, Shl, Pow2;
    LowSmall(s, 27);
    LowSmall(t, 27);
    ShlIsMul(Rotation(s), 27);
    ShlIsMul(Rotation(t), 27);
    DivUnique(Key(s), Pow2(27), Rotation(s), Low(s, 27));
    DivUnique(Key(t), Pow2(27), Rotation(t), Low(t, 27));
  }

  lemma OutputAndKeyDetermine(s: U64, t: U64)
    requires Output(s) == Output(t) && Key(s) == Key(t)
    ensures s == t
  {
    hide Shr, Low, Xor, Shl, Or, Key, RotateRight, Pow2, Bit;
    KeyParts(s, t);
    RotationSmall(s);
    LowSmall(Shr(Xor(Shr(s, 18), s), 27), 32);
    LowSmall(Shr(Xor(Shr(t, 18), t), 27), 32);
    RotateInjective(XorShift(s, 18, 27, 32), XorShift(t, 18, 27, 32), Rotation(s), 32);
    Pow2Of64();
    forall i: nat | i < 64 ensures Bit(s, i) == Bit(t, i) {
      BitsAgree(s, t, 64, 18, 27, 32, i);
    }
    SameBits(s, t, 64);
  }

  // Uniformity

  predicate InState(s: int) {
    0 <= s < TWO64
  }

  function OutputOf(s: int): (r: int)
    ensures 0 <= r < WRAP
  {
    if InState(s) then Output(s) else 0
  }

  function KeyOf(s: int): (k: int)
    ensures 0 <= k < WRAP
  {
    if InState(s) then Key(s) else 0
  }

  function Code(s: int): (c: int) {
    OutputOf(s) * WRAP + KeyOf(s)
  }

  /** Output and key together number the states from 0 to 2^64 - 1. */
  lemma CodeBijection()
    ensures Bijection(Range(TWO64), Range(TWO64), Code)
  {
    hide Output, Key;
    forall s, t | s in Range(TWO64) && t in Range(TWO64) && Code(s) == Code(t) ensures s == t {
      OutputAndKeyDetermine(s, t);
    }
    Pigeonhole(TWO64, Code);
  }

  ghost function StatesFor(values: set<int>): (states: set<int>) {
    set s | s in Range(TWO64) && OutputOf(s) in values
  }

  lemma CodeParts(a: int, k: int, b: int, l: int)
    requires 0 <= k < WRAP && 0 <= l < WRAP && a * WRAP + k == b * WRAP + l
    ensures a == b && k == l
  {
    DivUnique(a * WRAP + k, WRAP, a, k);
    DivUnique(b * WRAP + l, WRAP, b, l);
  }

  lemma CodeIs(s: int)
    ensures Code(s) == OutputOf(s) * WRAP + KeyOf(s)
  {
  }

  lemma StateWith(v: U32, k: U32) returns (s: int)
    ensures s in StatesFor({v}) && KeyOf(s) == k
  {
    hide OutputOf, KeyOf, Code;
    CodeBijection();
    s := Preimage(Range(TWO64), Range(TWO64), Code, v * WRAP + k);
    CodeIs(s);
    CodeParts(OutputOf(s), KeyOf(s), v, k);
  }

  /** Each 32-bit value is the output of exactly 2^32 of the 2^64 states. */
  lemma PreimageSize(v: U32)
    ensures |StatesFor({v})| == WRAP
  {
    hide Output, Key;
    var pre := StatesFor({v});
    forall s, t | s in pre && t in pre && KeyOf(s) == KeyOf(t) ensures s == t {
      OutputAndKeyDetermine(s, t);
    }
    forall k | k in Range(WRAP) ensures exists s :: s in pre && KeyOf(s) == k {
      var s := StateWith(v, k);
    }
    BijectionSize(pre, Range(WRAP), KeyOf);
    RangeSize(WRAP);
  }

  lemma {:induction false} StatesForSize(values: set<int>)
    requires values <= Range(WRAP)
    ensures |StatesFor(values)| == WRAP * |values|
    decreases |values|
  {
    hide OutputOf;
    if values == {} {
      assert StatesFor(values) == {};
    } else {
      var v := Element(values);
      StatesForSize(values - {v});
      PreimageSize(v);
      assert StatesFor(values) == StatesFor(values - {v}) + StatesFor({v});
      assert StatesFor(values - {v}) !! StatesFor({v});
    }
  }

  /** -bound % bound in 32-bit arithmetic */
  function Threshold(bound: U32): (t: U32)
    requires bound > 0
  {
    (WRAP - bound) % WRAP % bound
  }

  lemma ThresholdIsRemainder(bound: U32)
    requires bound > 0
    ensures Threshold(bound) == WRAP % bound
    ensures WRAP == Threshold(bound) + WRAP / bound * bound
  {
    AddMultiple(WRAP - bound, bound, 1);
  }

  ghost function Accepted(bound: U32, j: nat): (values: set<int>)
    requires bound > 0
  {
    set r | r in Range(WRAP) && Threshold(bound) <= r && r % bound == j
  }

  /** Every residue has the same number of accepted raw values. */
  lemma AcceptedSize(bound: U32, j: nat)
    requires j < bound
    ensures |Accepted(bound, j)| == WRAP / bound
  {
    var th, n := Threshold(bound), WRAP / bound;
    ThresholdIsRemainder(bound);
    var first := if j >= th then j else j + bound;
    var f := (q: int) => first + q * bound;
    forall x, y | x in Range(n) && y in Range(n) && f(x) == f(y) ensures x == y {
      SameMultiple(x, y, bound);
    }
    forall q | q in Range(n) ensures f(q) in Accepted(bound, j) {
      AcceptedAt(bound, j, q);
    }
    forall r | r in Accepted(bound, j) ensures exists q :: q in Range(n) && f(q) == r {
      var q := AcceptedIndex(bound, j, r);
      assert f(q) == r;
    }
    BijectionSize(Range(n), Accepted(bound, j), f);
    RangeSize(n);
  }

  lemma SameMultiple(x: int, y: int, m: nat)
    requires m > 0 && x * m == y * m
    ensures x == y
  {
    AddMultiple(0, m, x);
    AddMultiple(0, m, y);
  }

  function First(bound: U32, j: nat): (r: nat)
    requires j < bound
  {
    if j >= Threshold(bound) then j else j + bound
  }

  lemma AcceptedAt(bound: U32, j: nat, q: nat)
    requires j < bound && q < WRAP / bound
    ensures First(bound, j) + q * bound in Accepted(bound, j)
  {
    ThresholdIsRemainder(bound);
    FirstMod(bound, j, q);
    BelowTop(Threshold(bound), WRAP / bound, bound, j, q);
  }

  lemma FirstMod(bound: U32, j: nat, q: nat)
    requires j < bound
    ensures (First(bound, j) + q * bound) % bound == j
  {
    hide Threshold;
    AddMultiple(First(bound, j), bound, q);
    AddMultiple(j, bound, 1);
    DivUnique(j, bound, 0, j);
  }

  lemma BelowTop(th: nat, n: nat, m: nat, j: nat, q: nat)
    requires j < m && th < m && q < n
    ensures (if j >= th then j else j + m) + q * m < th + n * m
  {
    MulMonotone(q + 1, n, m);
  }

  lemma AcceptedIndex(bound: U32, j: nat, r: int) returns (q: int)
    requires j < bound && r in Accepted(bound, j)
    ensures q in Range(WRAP / bound) && First(bound, j) + q * bound == r
  {
    hide Threshold;
    ThresholdIsRemainder(bound);
    var k := r / bound;
    assert r == k * bound + j;
    assert k >= 0;
    q := IndexOf(Threshold(bound), WRAP / bound, bound, j, k);
  }

  lemma IndexOf(th: nat, n: nat, m: nat, j: nat, k: nat) returns (q: nat)
    requires j < m && th < m && th <= k * m + j < th + n * m
    ensures q < n && (if j >= th then j else j + m) + q * m == k * m + j
  {
    assert k == 0 ==> k * m == 0;
    q := if j >= th then k else k - 1;
    assert (k - 1) * m == k * m - m;
    if q >= n {
      MulMonotone(n, q, m);
      assert false;
    }
  }

  /** The draws, of 2^64 consecutive ones, that a bounded draw would accept as j. */
  ghost function DrawsOf(s: U64, inc: U64, bound: U32, j: nat): (draws: set<int>)
    requires bound > 0
  {
    set n | n in Range(TWO64) && Orbit(s, inc)(n) in StatesFor(Accepted(bound, j))
  }

  /** Over a full period every residue is drawn equally often. */
  lemma Uniform(s: U64, inc: U64, bound: U32, j: nat)
    requires inc % 2 == 1 && j < bound
    ensures |DrawsOf(s, inc, bound, j)| == WRAP * (WRAP / bound)
  {
    hide OutputOf, Orbit, Threshold;
    FullPeriod(s, inc);
    PreimagesSize(Range(TWO64), Range(TWO64), Orbit(s, inc), StatesFor(Accepted(bound, j)));
    StatesForSize(Accepted(bound, j));
    AcceptedSize(bound, j);
  }

  // The generator

  lemma IterNext(s: U64, inc: U64, n: nat)
    ensures Iter(s, inc, n + 1) == Next(Iter(s, inc, n), inc)
  {
    IterAdd(s, inc, n, 1);
    assert Iter(Iter(s, inc, n), inc, 1) == Iter(Next(Iter(s, inc, n), inc), inc, 0);
  }

  /** Every 32-bit value is drawn within a period. */
  lemma ReachesOutput(s: U64, inc: U64, v: U32) returns (n: nat)
    requires inc % 2 == 1
    ensures n < TWO64 && Output(Iter(s, inc, n)) == v
  {
    hide Output, KeyOf;
    var t := StateWith(v, 0);
    n := StepsTo(s, t, inc);
  }

  /** The bounded draw from state s returns r after n rejected draws. */
  ghost predicate FirstAccepted(s: U64, inc: U64, bound: U32, n: nat, r: nat)
    requires bound > 0
  {
    && n < TWO64
    && Output(Iter(s, inc, n)) >= WRAP % bound
    && r == Output(Iter(s, inc, n)) % bound
    && forall m: nat :: m < n ==> Output(Iter(s, inc, m)) < WRAP % bound
  }

  class Generator {
    var state: U64
    var inc: U64

    /** Only odd increments give the full period. */
    ghost predicate Valid()
      reads this
    {
      inc % 2 == 1
    }

    constructor (initstate: U64, initseq: U64)
      ensures Valid()
      ensures inc == (2 * initseq + 1) % TWO64
      ensures state == Next((inc + initstate) % TWO64, inc)
    {
      hide Output, Or, DrawnFrom, Next;
      state := 0;
      OddIncrement(initseq);
      inc := Or(2 * initseq % TWO64, 1);
      new;
      FirstStep(inc);
      var _ := Random();
      state := (state + initstate) % TWO64;
      var _ := Random();
    }

    method Random() returns (r: U32)
      modifies this`state
      ensures r == Output(old(state))
      ensures DrawnFrom(r, old(state))
      ensures state == Next(old(state), inc)
           == (old(state) * 6364136223846793005 + inc) % 0x1_0000_0000_0000_0000
    {
      OutputIsDrawn(state);
      hide Shr, Low, Xor, RotateRight, DrawnFrom;
      var oldstate := state;
      state := (oldstate * MULTIPLIER + inc) % TWO64;
      var xorshifted := XorShift(oldstate, 18, 27, 32);
      var rot := Rotation(oldstate);
      RotationSmall(oldstate);
      assert RotateRight(xorshifted, rot, 32) == Output(oldstate);
      return RotateRight(xorshifted, rot, 32);
    }

    /** Terminates for every state and every bound, within one period. */
    method BoundedRandom(bound: U32) returns (r: U32)
      requires Valid() && bound > 0
      modifies this`state
      ensures r < bound
      ensures exists n: nat :: FirstAccepted(old(state), inc, bound, n, r)
                            && state == Iter(old(state), inc, n + 1)
    {
      hide Output, Next, Threshold;
      var threshold := Threshold(bound);
      ThresholdIsRemainder(bound);
      ghost var top := ReachesOutput(state, inc, WRAP - 1);
      ghost var n := 0;
      while true
        invariant n <= top
        invariant state == Iter(old(state), inc, n)
        invariant forall m: nat :: m < n ==> Output(Iter(old(state), inc, m)) < threshold
        decreases top - n
      {
        IterNext(old(state), inc, n);
        var raw := Random();
        if raw >= threshold {
          r := raw % bound;
          assert FirstAccepted(old(state), inc, bound, n, r);
          return;
        }
        n := n + 1;
      }
    }
  }

  lemma FirstStep(inc: U64)
    ensures Next(0, inc) == inc
  {
  }

  lemma OddIncrement(initseq: U64)
    ensures Or(2 * initseq % TWO64, 1) == (2 * initseq + 1) % TWO64
    ensures (2 * initseq + 1) % TWO64 % 2 == 1
  {
    OrOne(2 * initseq % TWO64);
  }

  lemma OrOne(e: nat)
    requires e % 2 == 0
    ensures Or(e, 1) == e + 1
  {
  }
}
