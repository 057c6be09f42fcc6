/** Data words made of lanes of equal width, built and taken apart with shifts, ORs and masks. */
module Lanes {
  import opened Bits

  /** Words packed side by side: word j in lane j of width wl. */
  function Pack(words: seq<nat>, wl: nat): (v: nat) {
    if words == [] then 0
    else
      var n := |words| - 1;
      Or(Pack(words[..n], wl), Shl(words[n], n * wl))
  }

  /** (v >> (j * wl)) & (2^wl - 1) */
  function Lane(v: nat, j: nat, wl: nat): (w: nat) {
    And(Shr(v, j * wl), Pow2(wl) - 1)
  }

  ghost predicate Fit(words: seq<nat>, wl: nat) {
    forall i :: 0 <= i < |words| ==> words[i] < Pow2(wl)
  }

  lemma LaneBit(v: nat, j: nat, wl: nat, i: nat)
    ensures Bit(Lane(v, j, wl), i) == (i < wl && Bit(v, i + j * wl))
    ensures Lane(v, j, wl) < Pow2(wl)
  {
    AndOnes(Shr(v, j * wl), wl);
    LowBit(Shr(v, j * wl), wl, i);
    LowSmall(Shr(v, j * wl), wl);
    ShrBit(v, j * wl, i);
  }

  lemma {:induction false} PackBit(words: seq<nat>, wl: nat, j: nat, i: nat)
    requires Fit(words, wl) && i < wl
    ensures Bit(Pack(words, wl), i + j * wl) == (j < |words| && Bit(words[j], i))
  {
    if words == [] {
      ZeroBit(i + j * wl);
    } else {
      var n := |words| - 1;
      PackBit(words[..n], wl, j, i);
      OrBit(Pack(words[..n], wl), Shl(words[n], n * wl), i + j * wl);
      ShlBit(words[n], n * wl, i + j * wl);
      LaneOffset(i, j, n, wl);
      if j > n { SmallBit(words[n], wl, i + j * wl - n * wl); }
    }
  }

  lemma LaneOffset(i: nat, j: nat, n: nat, wl: nat)
    requires i < wl
    ensures i + j * wl >= n * wl <==> j >= n
    ensures j == n ==> i + j * wl - n * wl == i
    ensures j > n ==> i + j * wl - n * wl >= wl
  {
    if j < n { MulMonotone(j + 1, n, wl); }
    if j > n { MulMonotone(n + 1, j, wl); }
  }

  lemma LaneOfPack(words: seq<nat>, wl: nat, j: nat)
    requires Fit(words, wl) && j < |words|
    ensures Lane(Pack(words, wl), j, wl) == words[j]
  {
    var w := Lane(Pack(words, wl), j, wl);
    LaneBit(Pack(words, wl), j, wl, 0);
    forall i: nat | i < wl ensures Bit(w, i) == Bit(words[j], i) {
      LaneBit(Pack(words, wl), j, wl, i);
      PackBit(words, wl, j, i);
    }
    SameBits(w, words[j], wl);
  }

  lemma {:induction false} PackZeros(n: nat, wl: nat)
    ensures Pack(seq(n, _ => 0), wl) == 0
  {
    if n > 0 {
      assert seq(n, _ => 0)[..n - 1] == seq(n - 1, _ => 0);
      PackZeros(n - 1, wl);
      ShlOfZero((n - 1) * wl);
    }
  }

  /** The word that ((..) << wl) + words[1] << wl) + words[0] makes up, lane by lane. */
  function Horner(words: seq<nat>, wl: nat): (v: nat) {
    if words == [] then 0 else Shl(Horner(words[1..], wl), wl) + words[0]
  }

  lemma {:induction false} LaneOfHorner(words: seq<nat>, wl: nat, j: nat)
    requires Fit(words, wl) && j < |words|
    ensures Lane(Horner(words, wl), j, wl) == words[j]
  {
    var v := Horner(words[1..], wl);
    if j > 0 { LaneOfHorner(words[1..], wl, j - 1); }
    var got, want := Lane(Horner(words, wl), j, wl), if j == 0 then words[0] else Lane(v, j - 1, wl);
    forall i: nat | i < wl ensures Bit(got, i) == Bit(want, i) {
      LaneBit(Horner(words, wl), j, wl, i);
      HornerBit(words[0], v, wl, j, i);
      if j > 0 { LaneBit(v, j - 1, wl, i); }
    }
    LaneBit(Horner(words, wl), j, wl, 0);
    if j > 0 { LaneBit(v, j - 1, wl, 0); }
    SameBits(got, want, wl);
  }

  lemma HornerBit(w: nat, v: nat, wl: nat, j: nat, i: nat)
    requires w < Pow2(wl) && i < wl
    ensures Bit(Shl(v, wl) + w, i + j * wl) == if j == 0 then Bit(w, i) else Bit(v, i + (j - 1) * wl)
  {
    OrDisjoint(w, v, wl);
    OrBit(w, Shl(v, wl), i + j * wl);
    ShlBit(v, wl, i + j * wl);
    LaneOffset(i, j, 1, wl);
    if j > 0 {
      SmallBit(w, wl, i + j * wl);
      assert i + j * wl - wl == i + (j - 1) * wl;
    }
  }
}
