/** The AXI burst master and the RAM model of the test benches: a write or read of any bytes is cut
    into aligned beats with strobes, and the beats into bursts within 4 KB pages; the RAM carries the
    bursts out beat by beat. */
module Axi {
  import opened Bits
  import opened Lanes

  type Byte = x: nat | x < 256

  const PAGE: nat := 0x1000

  /** A transfer of 2^size bytes a beat on a bus 2^width bytes wide, bursts limited to maxBurst beats. */
  datatype Bus = Bus(size: nat, width: nat, maxBurst: int) {
    ghost predicate Valid() { size <= width <= 7 }
    function NumBytes(): (n: nat) ensures n > 0 { Pow2(size) }
    function WordBytes(): (n: nat) ensures n > 0 { Pow2(width) }
  }

  /** Beats divide words, and words divide pages. */
  lemma BusRatios(bus: Bus) returns (perWord: nat, perPage: nat)
    requires bus.Valid()
    ensures perWord > 0 && bus.WordBytes() == perWord * bus.NumBytes()
    ensures perPage > 0 && PAGE == perPage * bus.NumBytes()
  {
    hide Pow2;
    Pow2Add(bus.width - bus.size, bus.size);
    Pow2Add(12 - bus.size, bus.size);
    PageIsPow2();
    perWord, perPage := Pow2(bus.width - bus.size), Pow2(12 - bus.size);
  }

  lemma PageIsPow2()
    ensures Pow2(12) == PAGE
  {
    assert Pow2(6) == 64;
    Pow2Add(6, 6);
  }

  // The geometry of a transfer

  /** The address of beat k, aligned to the beat size. */
  function BeatAddr(addr: nat, nb: nat, k: nat): nat
    requires nb > 0
  {
    (addr / nb + k) * nb
  }

  function Cycles(addr: nat, len: nat, nb: nat): nat
    requires nb > 0
  {
    (len + nb - 1 + addr % nb) / nb
  }

  /** The bytes of the transfer that beat k carries: from Lo up to Hi. */
  function Lo(addr: nat, nb: nat, k: nat): nat
    requires nb > 0
  {
    if k == 0 then addr else BeatAddr(addr, nb, k)
  }

  function Hi(addr: nat, len: nat, nb: nat, k: nat): nat
    requires nb > 0
  {
    if k + 1 == Cycles(addr, len, nb) then addr + len else BeatAddr(addr, nb, k + 1)
  }

  lemma BeatOrder(addr: nat, len: nat, nb: nat, k: nat)
    requires nb > 0 && k < Cycles(addr, len, nb)
    ensures BeatAddr(addr, nb, k + 1) == BeatAddr(addr, nb, k) + nb
    ensures BeatAddr(addr, nb, k) <= Lo(addr, nb, k) <= Hi(addr, len, nb, k) <= BeatAddr(addr, nb, k + 1)
    ensures Lo(addr, nb, k) < BeatAddr(addr, nb, k + 1)
    ensures Hi(addr, len, nb, k) > BeatAddr(addr, nb, k)
    ensures k + 1 < Cycles(addr, len, nb) ==> Hi(addr, len, nb, k) == Lo(addr, nb, k + 1) <= addr + len
  {
    var q, r, c := addr / nb, addr % nb, Cycles(addr, len, nb);
    assert addr == q * nb + r;
    assert (q + k + 1) * nb == (q + k) * nb + nb;
    assert (q + k) * nb == q * nb + k * nb;
    var t := len + nb - 1 + r;
    assert c * nb <= t < c * nb + nb by { assert t == c * nb + t % nb; }
    MulMonotone(k + 1, c, nb);
    assert (k + 1) * nb == k * nb + nb;
    if k > 0 { MulMonotone(1, k, nb); }
    if k + 1 < c { MulMonotone(k + 2, c, nb); assert (k + 2) * nb == k * nb + 2 * nb; }
  }

  /** An address inside a beat lies in the beat's word, at the beat's offset plus its own. */
  lemma InBeat(x: nat, cur: nat, nb: nat, perWord: nat)
    requires nb > 0 && perWord > 0 && cur % nb == 0 && cur <= x < cur + nb
    ensures perWord * nb > 0
    ensures x / (perWord * nb) == cur / (perWord * nb)
    ensures x % (perWord * nb) == cur % (perWord * nb) + (x - cur)
    ensures cur % (perWord * nb) + nb <= perWord * nb
  {
    var bw := perWord * nb;
    MulMonotone(1, perWord, nb);
    var w, o := cur / bw, cur % bw;
    assert cur == w * bw + o;
    ModMod(cur, nb, perWord);
    assert nb * perWord == bw;
    assert o % nb == 0;
    var m := o / nb;
    assert o == m * nb;
    assert m < perWord by { if m >= perWord { MulMonotone(perWord, m, nb); assert false; } }
    MulMonotone(m + 1, perWord, nb);
    assert (m + 1) * nb == o + nb;
    DivUnique(x, bw, w, o + (x - cur));
  }

  // Bursts

  datatype Burst = Burst(addr: nat, len: nat)

  function Min(x: int, y: int): int { if x < y then x else y }
  function Max(x: int, y: int): int { if x > y then x else y }

  /** Beats of the next burst: what is left, at most the limit, and not past the end of the page. */
  function BurstLength(left: nat, cur: nat, nb: nat, maxBurst: int): int
    requires nb > 0
  {
    var n := Min(left, Min(Max(maxBurst, 1), 256));
    (Min(n * nb, PAGE - cur % PAGE) + nb - 1) / nb
  }

  ghost predicate WithinPage(b: Burst, nb: nat) {
    b.addr % PAGE + b.len * nb <= PAGE
  }

  lemma BurstLengthBounds(left: nat, cur: nat, nb: nat, maxBurst: int, perPage: nat)
    requires nb > 0 && left > 0 && cur % nb == 0 && PAGE == perPage * nb && perPage > 0
    ensures 1 <= BurstLength(left, cur, nb, maxBurst) <= Min(left, Min(Max(maxBurst, 1), 256))
    ensures var len := BurstLength(left, cur, nb, maxBurst);
            && WithinPage(Burst(cur, len), nb) && cur % 0x1000 + len * nb <= 0x1000
            && (len == left || len == Min(Max(maxBurst, 1), 256) || (cur + len * nb) % PAGE == 0)
  {
    var n := Min(left, Min(Max(maxBurst, 1), 256));
    InBeat(cur, cur, nb, perPage);
    var o := cur % PAGE;
    ModMod(cur, nb, perPage);
    assert nb * perPage == PAGE;
    var m := o / nb;
    assert o == m * nb;
    var rest := perPage - m;
    assert rest * nb == PAGE - o;
    assert rest > 0 by { if rest <= 0 { MulMonotone(perPage, m, nb); assert false; } }
    var l := Min(n, rest);
    if n <= rest { MulMonotone(n, rest, nb); } else { MulMonotone(rest, n, nb); }
    assert Min(n * nb, PAGE - o) == l * nb;
    DivUnique(l * nb + nb - 1, nb, l, nb - 1);
    if l == rest { PageEnd(cur); }
  }

  lemma PageEnd(cur: nat)
    ensures (cur + (PAGE - cur % PAGE)) % PAGE == 0
  {
    assert cur + (PAGE - cur % PAGE) == (cur / PAGE + 1) * PAGE;
    AddMultiple(0, PAGE, cur / PAGE + 1);
  }

  /** The bursts lie end to end from beat `from` to beat `to`, each within one page and 256 beats. */
  ghost predicate Tile(bursts: seq<Burst>, addr: nat, nb: nat, from: nat, to: nat)
    requires nb > 0
  {
    if bursts == [] then from == to
    else
      var b := bursts[0];
      && b.addr == BeatAddr(addr, nb, from)
      && 1 <= b.len <= 256 && WithinPage(b, nb)
      && from + b.len <= to
      && Tile(bursts[1..], addr, nb, from + b.len, to)
  }

  /** No burst exceeds the limit, and none but the last, if that completes the transfer, stops short of both
      the limit and the end of a page. */
  ghost predicate Maximal(bursts: seq<Burst>, nb: nat, limit: int, complete: bool) {
    forall i :: 0 <= i < |bursts| ==>
      && bursts[i].len <= limit
      && ((complete && i == |bursts| - 1) || bursts[i].len == limit || EndsPage(bursts[i], nb))
  }

  predicate EndsPage(b: Burst, nb: nat) {
    (b.addr + b.len * nb) % PAGE == 0
  }

  /** Some burst ends before beat e. */
  ghost predicate EndsAt(bursts: seq<Burst>, from: nat, e: nat) {
    bursts != [] && (e == from + bursts[0].len || EndsAt(bursts[1..], from + bursts[0].len, e))
  }

  lemma {:induction false} TileAppend(bursts: seq<Burst>, b: Burst, addr: nat, nb: nat, from: nat, to: nat)
    requires nb > 0 && Tile(bursts, addr, nb, from, to)
    requires b.addr == BeatAddr(addr, nb, to) && 1 <= b.len <= 256 && WithinPage(b, nb)
    ensures Tile(bursts + [b], addr, nb, from, to + b.len)
    ensures forall e: nat :: EndsAt(bursts + [b], from, e) <==> EndsAt(bursts, from, e) || e == to + b.len
  {
    if bursts != [] {
      assert (bursts + [b])[1..] == bursts[1..] + [b];
      TileAppend(bursts[1..], b, addr, nb, from + bursts[0].len, to);
    }
  }

  /** A burst ends nowhere inside itself. */
  lemma {:induction false} EndsAfter(bursts: seq<Burst>, addr: nat, nb: nat, from: nat, to: nat, e: nat)
    requires nb > 0 && Tile(bursts, addr, nb, from, to) && EndsAt(bursts, from, e)
    ensures from + bursts[0].len <= e <= to
  {
    if e != from + bursts[0].len { EndsAfter(bursts[1..], addr, nb, from + bursts[0].len, to, e); }
  }

  lemma BeatAddrAligned(addr: nat, nb: nat, k: nat)
    requires nb > 0
    ensures BeatAddr(addr, nb, k) % nb == 0
  {
    AddMultiple(0, nb, addr / nb + k);
  }

  // Strobes

  /** ((2^bw - 1) << start) & (2^bw - 1) & ((2^bw - 1) >> (bw - stop)) */
  function Strobe(bw: nat, start: nat, stop: nat): nat
    requires stop <= bw
  {
    And(And(Shl(Pow2(bw) - 1, start), Pow2(bw) - 1), Shr(Pow2(bw) - 1, bw - stop))
  }

  lemma StrobeBit(bw: nat, start: nat, stop: nat, i: nat)
    requires stop <= bw
    ensures Bit(Strobe(bw, start, stop), i) <==> start <= i < stop
  {
    var ones := Pow2(bw) - 1;
    AndBit(And(Shl(ones, start), ones), Shr(ones, bw - stop), i);
    AndBit(Shl(ones, start), ones, i);
    ShlBit(ones, start, i);
    ShrBit(ones, bw - stop, i);
    OnesBit(bw, i);
    OnesBit(bw, i + bw - stop);
    if i >= start { OnesBit(bw, i - start); }
  }

  // Memory

  /** Memory after storing data from addr on, the address taken modulo the memory size. */
  function Store(mem: seq<Byte>, addr: nat, data: seq<Byte>): (r: seq<Byte>)
    requires mem != []
    ensures |r| == |mem|
    decreases |data|
  {
    if data == [] then mem
    else Store(mem[addr % |mem| := data[0]], addr + 1, data[1..])
  }

  function Load(mem: seq<Byte>, addr: nat, len: nat): (data: seq<Byte>)
    requires mem != []
    ensures |data| == len
    decreases len
  {
    if len == 0 then [] else [mem[addr % |mem|]] + Load(mem, addr + 1, len - 1)
  }

  lemma {:induction false} StoreAppend(mem: seq<Byte>, addr: nat, d1: seq<Byte>, d2: seq<Byte>)
    requires mem != []
    ensures Store(mem, addr, d1 + d2) == Store(Store(mem, addr, d1), addr + |d1|, d2)
    decreases |d1|
  {
    if d1 == [] {
      assert d1 + d2 == d2;
    } else {
      assert (d1 + d2)[1..] == d1[1..] + d2;
      StoreAppend(mem[addr % |mem| := d1[0]], addr + 1, d1[1..], d2);
    }
  }

  /** Whether cell j of a memory of m bytes is one of the len cells from addr on. */
  predicate Touched(addr: nat, len: nat, m: nat, j: nat)
    requires m > 0
    decreases len
  {
    len > 0 && (addr % m == j || Touched(addr + 1, len - 1, m, j))
  }

  lemma {:induction false} StoreFrame(mem: seq<Byte>, addr: nat, data: seq<Byte>, j: nat)
    requires j < |mem| && !Touched(addr, |data|, |mem|, j)
    ensures Store(mem, addr, data)[j] == mem[j]
    decreases |data|
  {
    if data != [] { StoreFrame(mem[addr % |mem| := data[0]], addr + 1, data[1..], j); }
  }

  lemma {:induction false} NotTouchedAgain(addr: nat, d: nat, len: nat, m: nat)
    requires d > 0 && d + len <= m
    ensures !Touched(addr + d, len, m, addr % m)
    decreases len
  {
    if len > 0 {
      ModDistinct(addr, d, m);
      NotTouchedAgain(addr, d + 1, len - 1, m);
    }
  }

  lemma {:induction false} LoadStored(mem: seq<Byte>, addr: nat, data: seq<Byte>)
    requires |data| <= |mem| && mem != []
    ensures Load(Store(mem, addr, data), addr, |data|) == data
    decreases |data|
  {
    if data != [] {
      var mem', rest := mem[addr % |mem| := data[0]], data[1..];
      NotTouchedAgain(addr, 1, |rest|, |mem|);
      StoreFrame(mem', addr + 1, rest, addr % |mem|);
      LoadStored(mem', addr + 1, rest);
    }
  }

  /** What was stored is loaded back, and no other byte changed. */
  lemma LoadAfterStore(mem: seq<Byte>, addr: nat, data: seq<Byte>)
    requires |data| <= |mem| && mem != []
    ensures Load(Store(mem, addr, data), addr, |data|) == data
    ensures forall j: nat :: j < |mem| && !Touched(addr, |data|, |mem|, j) ==> Store(mem, addr, data)[j] == mem[j]
  {
    LoadStored(mem, addr, data);
    forall j: nat | j < |mem| && !Touched(addr, |data|, |mem|, j) ensures Store(mem, addr, data)[j] == mem[j] {
      StoreFrame(mem, addr, data, j);
    }
  }

  // Write beats

  datatype Beat = Beat(val: nat, strb: nat, last: bool)

  function WordAddr(a: nat, bw: nat): nat
    requires bw > 0
  {
    a / bw * bw
  }

  /** The strobed lanes of a beat, from lane i on, written to the word at base. */
  function Strobed(mem: seq<Byte>, base: nat, beat: Beat, i: nat, bw: nat): (r: seq<Byte>)
    requires i <= bw && base + bw <= |mem|
    ensures |r| == |mem|
    decreases bw - i
  {
    if i == bw then mem
    else
      LaneIsByte(beat.val, i);
      Strobed(if Bit(beat.strb, i) then mem[base + i := Lane(beat.val, i, 8)] else mem, base, beat, i + 1, bw)
  }

  lemma LaneIsByte(v: nat, i: nat)
    ensures Lane(v, i, 8) < 256
  {
    LaneBit(v, i, 8, 0);
    assert Pow2(8) == 256;
  }

  /** The beat's strobes select lanes start up to stop, and those hold the bytes. */
  ghost predicate Holds(val: nat, strb: nat, start: nat, bytes: seq<Byte>, bw: nat) {
    && start + |bytes| <= bw
    && forall i: nat :: i < bw ==>
         && (Bit(strb, i) <==> start <= i < start + |bytes|)
         && (start <= i < start + |bytes| ==> Lane(val, i, 8) == bytes[i - start])
  }

  lemma {:induction false} StrobedIsStore(mem: seq<Byte>, word: nat, beat: Beat, start: nat, bytes: seq<Byte>, i: nat, bw: nat)
    requires Holds(beat.val, beat.strb, start, bytes, bw) && i <= bw && bw > 0
    requires mem != [] && word % |mem| + bw <= |mem|
    ensures Strobed(mem, word % |mem|, beat, i, bw) ==
            if i <= start then Store(mem, word + start, bytes)
            else if i < start + |bytes| then Store(mem, word + i, bytes[i - start..])
            else mem
    decreases bw - i
  {
    if i < bw {
      var base := word % |mem|;
      InWord(word, |mem|, bw, i);
      var next := if Bit(beat.strb, i) then mem[base + i := Lane(beat.val, i, 8)] else mem;
      StrobedIsStore(next, word, beat, start, bytes, i + 1, bw);
      if start <= i < start + |bytes| {
        var rest := bytes[i - start..];
        assert rest[1..] == bytes[i + 1 - start..];
        assert Store(mem, word + i, rest) == Store(next, word + i + 1, rest[1..]);
      }
    }
  }

  lemma InWord(word: nat, m: nat, bw: nat, i: nat)
    requires m > 0 && word % m + bw <= m && i < bw
    ensures (word + i) % m == word % m + i
  {
    assert word == word / m * m + word % m;
    DivUnique(word + i, m, word / m, word % m + i);
  }

  ghost predicate Usable(mem: seq<Byte>, bw: nat) {
    bw > 0 && mem != []
  }

  /** The word that holds the byte at cur does not run over the end of a memory of m bytes. */
  predicate Inside(m: nat, cur: nat, bw: nat)
    requires m > 0 && bw > 0
  {
    WordAddr(cur, bw) % m + bw <= m
  }

  /** The words of n beats from cur on are inside. */
  predicate InsideFrom(m: nat, cur: nat, n: nat, nb: nat, bw: nat)
    requires m > 0 && bw > 0
    decreases n
  {
    n == 0 || (Inside(m, cur, bw) && InsideFrom(m, cur + nb, n - 1, nb, bw))
  }

  /** In a memory of whole words every word is inside. */
  lemma WholeWord(m: nat, cur: nat, bw: nat)
    requires bw > 0 && m > 0 && m % bw == 0
    ensures Inside(m, cur, bw)
  {
    var word, n := WordAddr(cur, bw), m / bw;
    AddMultiple(0, bw, cur / bw);
    assert m == n * bw && m == bw * n;
    InBeat(word, word, bw, n);
  }

  lemma {:induction false} WholeWords(m: nat, cur: nat, n: nat, nb: nat, bw: nat)
    requires bw > 0 && m > 0 && m % bw == 0
    ensures InsideFrom(m, cur, n, nb, bw)
    decreases n
  {
    WholeWord(m, cur, bw);
    if n > 0 { WholeWords(m, cur + nb, n - 1, nb, bw); }
  }

  lemma {:induction false} InsideAppend(m: nat, cur: nat, a: nat, b: nat, nb: nat, bw: nat)
    requires m > 0 && bw > 0
    ensures InsideFrom(m, cur, a + b, nb, bw) <==> InsideFrom(m, cur, a, nb, bw) && InsideFrom(m, cur + a * nb, b, nb, bw)
    decreases a
  {
    hide Inside;
    if a > 0 {
      InsideAppend(m, cur + nb, a - 1, b, nb, bw);
      assert a * nb == nb + (a - 1) * nb;
    }
  }

  lemma InsideAt(m: nat, cur: nat, n: nat, nb: nat, bw: nat, i: nat)
    requires m > 0 && bw > 0 && InsideFrom(m, cur, n, nb, bw) && i < n
    ensures Inside(m, cur + i * nb, bw)
  {
    InsideAppend(m, cur, i, n - i, nb, bw);
  }

  /** The effect of a beat whose word is inside. */
  function BeatEffect(mem: seq<Byte>, cur: nat, beat: Beat, bw: nat): (r: seq<Byte>)
    requires Usable(mem, bw)
    ensures |r| == |mem|
  {
    if Inside(|mem|, cur, bw) then Strobed(mem, WordAddr(cur, bw) % |mem|, beat, 0, bw) else mem
  }

  /** Memory after a run of beats at consecutive addresses from cur on. */
  function BeatsEffect(mem: seq<Byte>, cur: nat, beats: seq<Beat>, nb: nat, bw: nat): (r: seq<Byte>)
    requires Usable(mem, bw)
    ensures |r| == |mem|
    decreases |beats|
  {
    if beats == [] then mem
    else BeatsEffect(BeatEffect(mem, cur, beats[0], bw), cur + nb, beats[1..], nb, bw)
  }

  /** Beat k of a write of data to addr. */
  ghost predicate WriteBeat(val: nat, strb: nat, addr: nat, data: seq<Byte>, nb: nat, bw: nat, k: nat)
    requires nb > 0 && bw > 0
  {
    var word, lo, hi := WordAddr(BeatAddr(addr, nb, k), bw), Lo(addr, nb, k), Hi(addr, |data|, nb, k);
    && word <= lo && addr <= lo <= hi <= addr + |data|
    && Holds(val, strb, lo - word, data[lo - addr..hi - addr], bw)
  }

  lemma WordEffect(mem: seq<Byte>, beat: Beat, cur: nat, lo: nat, bytes: seq<Byte>, bw: nat)
    requires Usable(mem, bw) && Inside(|mem|, cur, bw) && WordAddr(cur, bw) <= lo
    requires Holds(beat.val, beat.strb, lo - WordAddr(cur, bw), bytes, bw)
    ensures BeatEffect(mem, cur, beat, bw) == Store(mem, lo, bytes)
  {
    hide Store, Strobed, Holds, WordAddr;
    StrobedIsStore(mem, WordAddr(cur, bw), beat, lo - WordAddr(cur, bw), bytes, 0, bw);
  }

  lemma WriteBeatEffect(mem: seq<Byte>, beat: Beat, addr: nat, data: seq<Byte>, nb: nat, bw: nat, k: nat)
    requires nb > 0 && Usable(mem, bw) && WriteBeat(beat.val, beat.strb, addr, data, nb, bw, k)
    requires Inside(|mem|, BeatAddr(addr, nb, k), bw)
    ensures var lo, hi := Lo(addr, nb, k), Hi(addr, |data|, nb, k);
            BeatEffect(mem, BeatAddr(addr, nb, k), beat, bw) == Store(mem, lo, data[lo - addr..hi - addr])
  {
    hide Store, BeatEffect, Lo, Hi, BeatAddr, WordAddr, Holds, Inside, WriteBeat;
    var lo, hi := Lo(addr, nb, k), Hi(addr, |data|, nb, k);
    WriteBeatRange(beat, addr, data, nb, bw, k);
    WordEffect(mem, beat, BeatAddr(addr, nb, k), lo, data[lo - addr..hi - addr], bw);
  }

  /** The beats of a write, from beat k on, store the rest of the data. */
  lemma {:induction false} WriteBeatsEffect(mem: seq<Byte>, beats: seq<Beat>, addr: nat, data: seq<Byte>, nb: nat, bw: nat, k: nat)
    requires nb > 0 && Usable(mem, bw)
    requires |beats| == Cycles(addr, |data|, nb) && k < |beats|
    requires forall i :: 0 <= i < |beats| ==> WriteBeat(beats[i].val, beats[i].strb, addr, data, nb, bw, i)
    requires InsideFrom(|mem|, BeatAddr(addr, nb, k), |beats| - k, nb, bw)
    ensures addr <= Lo(addr, nb, k) <= addr + |data|
    ensures BeatsEffect(mem, BeatAddr(addr, nb, k), beats[k..], nb, bw)
         == Store(mem, Lo(addr, nb, k), data[Lo(addr, nb, k) - addr..])
    decreases |beats| - k
  {
    hide BeatEffect, WriteBeat, Holds, Store, Inside;
    var lo, hi := Lo(addr, nb, k), Hi(addr, |data|, nb, k);
    BeatOrder(addr, |data|, nb, k);
    WriteBeatRange(beats[k], addr, data, nb, bw, k);
    WriteBeatEffect(mem, beats[k], addr, data, nb, bw, k);
    var next := BeatEffect(mem, BeatAddr(addr, nb, k), beats[k], bw);
    assert beats[k..][1..] == beats[k + 1..];
    if k + 1 < |beats| {
      WriteBeatsEffect(next, beats, addr, data, nb, bw, k + 1);
      assert data[lo - addr..] == data[lo - addr..hi - addr] + data[hi - addr..];
      StoreAppend(mem, lo, data[lo - addr..hi - addr], data[hi - addr..]);
    } else {
      assert data[lo - addr..] == data[lo - addr..hi - addr];
    }
  }

  lemma WriteBeatRange(beat: Beat, addr: nat, data: seq<Byte>, nb: nat, bw: nat, k: nat)
    requires nb > 0 && bw > 0 && WriteBeat(beat.val, beat.strb, addr, data, nb, bw, k)
    ensures addr <= Lo(addr, nb, k) <= Hi(addr, |data|, nb, k) <= addr + |data|
    ensures var word, lo, hi := WordAddr(BeatAddr(addr, nb, k), bw), Lo(addr, nb, k), Hi(addr, |data|, nb, k);
            word <= lo && Holds(beat.val, beat.strb, lo - word, data[lo - addr..hi - addr], bw)
  {
    hide Lo, Hi, BeatAddr, WordAddr, Holds;
  }

  lemma {:induction false} BeatsEffectAppend(mem: seq<Byte>, cur: nat, b1: seq<Beat>, b2: seq<Beat>, nb: nat, bw: nat)
    requires Usable(mem, bw)
    ensures BeatsEffect(mem, cur, b1 + b2, nb, bw)
         == BeatsEffect(BeatsEffect(mem, cur, b1, nb, bw), cur + |b1| * nb, b2, nb, bw)
    decreases |b1|
  {
    hide BeatEffect;
    if b1 == [] {
      assert b1 + b2 == b2;
    } else {
      assert (b1 + b2)[1..] == b1[1..] + b2;
      BeatsEffectAppend(BeatEffect(mem, cur, b1[0], bw), cur + nb, b1[1..], b2, nb, bw);
      assert |b1| * nb == nb + (|b1| - 1) * nb;
    }
  }

  // The master's write path

  /** The word and strobes of one beat: bytes into lanes start up to stop. */
  method FillBeat(bytes: seq<Byte>, start: nat, stop: nat, bw: nat) returns (val: nat, strb: nat)
    requires start <= stop <= bw && |bytes| == stop - start
    ensures Holds(val, strb, start, bytes, bw)
  {
    strb := Strobe(bw, start, stop);
    val := 0;
    ghost var zeros: seq<Byte> := seq(start, _ => 0);
    PackZeros(start, 8);
    assert zeros + bytes[..0] == zeros;
    for j := start to stop
      invariant val == Pack(zeros + bytes[..j - start], 8)
    {
      var offset := j - start;
      assert (zeros + bytes[..offset + 1])[..j] == zeros + bytes[..offset];
      val := Or(val, Shl(bytes[offset], j * 8));
    }
    assert bytes[..stop - start] == bytes;
    FilledBeat(val, strb, start, stop, bytes, zeros, bw);
  }

  lemma FilledBeat(val: nat, strb: nat, start: nat, stop: nat, bytes: seq<Byte>, zeros: seq<Byte>, bw: nat)
    requires start <= stop <= bw && |bytes| == stop - start
    requires zeros == seq(start, _ => 0) && val == Pack(zeros + bytes, 8) && strb == Strobe(bw, start, stop)
    ensures Holds(val, strb, start, bytes, bw)
  {
    BytesFit(zeros + bytes);
    forall i: nat | i < bw
      ensures Bit(strb, i) <==> start <= i < stop
      ensures start <= i < stop ==> Lane(val, i, 8) == bytes[i - start]
    {
      StrobeBit(bw, start, stop, i);
      if start <= i < stop { LaneOfPack(zeros + bytes, 8, i); }
    }
  }

  lemma LanesOf(cur: nat, lo: nat, hi: nat, nb: nat, perWord: nat)
    requires nb > 0 && perWord > 0 && cur % nb == 0 && cur <= lo < cur + nb && cur < hi <= cur + nb
    ensures perWord * nb > 0
    ensures var bw := perWord * nb;
            var word := WordAddr(cur, bw);
            && word <= cur && cur % bw == cur - word && cur % bw + nb <= bw
            && (cur + nb) % bw == (cur % bw + nb) % bw
            && lo - word == lo % bw && hi - word == (hi - 1) % bw + 1
  {
    var bw := perWord * nb;
    InBeat(cur, cur, nb, perWord);
    InBeat(lo, cur, nb, perWord);
    InBeat(hi - 1, cur, nb, perWord);
    assert cur == cur / bw * bw + cur % bw;
    AddMultiple(cur % bw + nb, bw, cur / bw);
  }

  /** The data part of one pass of the write loop: the word and strobes of beat k, and the running
      offsets for the next beat. */
  method WriteData(bus: Bus, addr: nat, data: seq<Byte>, k: nat, offset: nat, cycleOffset: nat)
    returns (val: nat, strb: nat, offset': nat, cycleOffset': nat)
    requires bus.Valid() && k < Cycles(addr, |data|, bus.NumBytes())
    requires offset == Lo(addr, bus.NumBytes(), k) - addr
    requires cycleOffset == BeatAddr(addr, bus.NumBytes(), k) % bus.WordBytes()
    ensures WriteBeat(val, strb, addr, data, bus.NumBytes(), bus.WordBytes(), k)
    ensures offset' == Hi(addr, |data|, bus.NumBytes(), k) - addr
    ensures cycleOffset' == BeatAddr(addr, bus.NumBytes(), k + 1) % bus.WordBytes()
  {
    hide Lo, Hi, BeatAddr, Cycles, Pow2, Holds;
    var nb, bw := bus.NumBytes(), bus.WordBytes();
    ghost var cur, lo, hi := BeatAddr(addr, nb, k), Lo(addr, nb, k), Hi(addr, |data|, nb, k);
    ghost var perWord, _ := BusRatios(bus);
    BeatAddrAligned(addr, nb, k);
    BeatOrder(addr, |data|, nb, k);
    BeatEnds(addr, |data|, nb, k);
    LanesOf(cur, lo, hi, nb, perWord);
    var start, stop := cycleOffset, cycleOffset + nb;
    if k == 0 { start := addr % bw; }
    if k == Cycles(addr, |data|, nb) - 1 { stop := (addr + |data| - 1) % bw + 1; }
    assert start == lo - WordAddr(cur, bw) && stop == hi - WordAddr(cur, bw);
    val, strb := FillBeat(data[offset..offset + (stop - start)], start, stop, bw);
    offset' := offset + (stop - start);
    cycleOffset' := (cycleOffset + nb) % bw;
  }

  lemma BeatEnds(addr: nat, len: nat, nb: nat, k: nat)
    requires nb > 0 && k < Cycles(addr, len, nb)
    ensures addr <= Lo(addr, nb, k) && Hi(addr, len, nb, k) <= addr + len
    ensures k == 0 ==> Lo(addr, nb, k) == addr
    ensures k > 0 ==> Lo(addr, nb, k) == BeatAddr(addr, nb, k)
    ensures k + 1 == Cycles(addr, len, nb) ==> Hi(addr, len, nb, k) == addr + len
    ensures k + 1 < Cycles(addr, len, nb) ==> Hi(addr, len, nb, k) == BeatAddr(addr, nb, k + 1)
  {
    BeatOrder(addr, len, nb, k);
    if k > 0 { BeatsAbove(addr, nb, k); }
  }

  lemma BeatsAbove(addr: nat, nb: nat, k: nat)
    requires nb > 0 && k > 0
    ensures addr < BeatAddr(addr, nb, k)
  {
    var q := addr / nb;
    assert addr == q * nb + addr % nb;
    MulMonotone(q + 1, q + k, nb);
    assert (q + 1) * nb == q * nb + nb;
  }

  /** The bursts issued before beat k: they reach beat end, where the last of them ends. */
  ghost predicate Issued(bursts: seq<Burst>, addr: nat, nb: nat, k: nat, end: nat, cycles: nat)
    requires nb > 0
  {
    && Tile(bursts, addr, nb, 0, end) && k <= end <= cycles
    && forall e: nat :: k < e ==> (EndsAt(bursts, 0, e) <==> e == end)
  }

  method IssueBurst(bus: Bus, addr: nat, cycles: nat, k: nat, curAddr: nat, ghost bursts: seq<Burst>)
    returns (b: Burst)
    requires bus.Valid() && k < cycles && curAddr == BeatAddr(addr, bus.NumBytes(), k)
    requires Issued(bursts, addr, bus.NumBytes(), k, k, cycles)
    requires Maximal(bursts, bus.NumBytes(), BurstLimit(bus), false)
    ensures Maximal(bursts + [b], bus.NumBytes(), BurstLimit(bus), k + b.len == cycles)
    ensures b.len >= 1 && Issued(bursts + [b], addr, bus.NumBytes(), k, k + b.len, cycles)
    ensures forall e: nat :: e <= k ==> (EndsAt(bursts + [b], 0, e) <==> EndsAt(bursts, 0, e))
  {
    hide BeatAddr, Pow2;
    var nb := bus.NumBytes();
    ghost var _, perPage := BusRatios(bus);
    BeatAddrAligned(addr, nb, k);
    BurstLengthBounds(cycles - k, curAddr, nb, bus.maxBurst, perPage);
    b := Burst(curAddr, BurstLength(cycles - k, curAddr, nb, bus.maxBurst));
    TileAppend(bursts, b, addr, nb, 0, k);
  }

  /** The configured limit, at least one beat and at most 256. */
  function BurstLimit(bus: Bus): (limit: int)
    ensures 1 <= limit <= 256
    ensures 1 <= bus.maxBurst <= 256 ==> limit == bus.maxBurst
    ensures bus.maxBurst < 1 ==> limit == 1
    ensures bus.maxBurst > 256 ==> limit == 256
  {
    Min(Max(bus.maxBurst, 1), 256)
  }

  /** What one write command adds to the master's address and data queues. */
  method MasterWrite(bus: Bus, addr: nat, data: seq<Byte>) returns (bursts: seq<Burst>, beats: seq<Beat>)
    requires bus.Valid()
    ensures |beats| == Cycles(addr, |data|, bus.NumBytes())
    ensures forall k :: 0 <= k < |beats| ==>
              WriteBeat(beats[k].val, beats[k].strb, addr, data, bus.NumBytes(), bus.WordBytes(), k)
    ensures Tile(bursts, addr, bus.NumBytes(), 0, |beats|)
    ensures Marked(bursts, beats, 0)
    ensures Maximal(bursts, bus.NumBytes(), BurstLimit(bus), true)
  {
    hide Pow2, WriteBeat, Maximal;
    NoBursts(bus);
    var nb, bw := bus.NumBytes(), bus.WordBytes();
    var curAddr := addr / nb * nb;
    var offset, cycleOffset := 0, curAddr - addr / bw * bw;
    var cycles := Cycles(addr, |data|, nb);
    var n, burstLength := 0, 0;
    bursts, beats := [], [];
    ghost var end: nat := 0;
    FirstOffsets(bus, addr);
    for k := 0 to cycles
      invariant |beats| == k && curAddr == BeatAddr(addr, nb, k)
      invariant k < cycles ==> cycleOffset == curAddr % bw && offset == Lo(addr, nb, k) - addr
      invariant Issued(bursts, addr, nb, k, end, cycles) && end + n == k + burstLength
      invariant Maximal(bursts, nb, BurstLimit(bus), end == cycles)
      invariant forall i :: 0 <= i < k ==> WriteBeat(beats[i].val, beats[i].strb, addr, data, nb, bw, i)
      invariant forall i :: 0 <= i < k ==> (beats[i].last <==> EndsAt(bursts, 0, i + 1))
    {
      hide BeatAddr, Lo, Hi, Cycles, Issued;
      var val, strb;
      val, strb, offset, cycleOffset := WriteData(bus, addr, data, k, offset, cycleOffset);
      NextLo(addr, |data|, nb, k);
      IssuedEnd(bursts, addr, nb, k, end, cycles);
      if n >= burstLength {
        n := 0;
        var b := IssueBurst(bus, addr, cycles, k, curAddr, bursts);
        bursts := bursts + [b];
        burstLength := b.len;
        end := k + b.len;
      }
      n := n + 1;
      IssuedStep(bursts, addr, nb, k, end, cycles);
      beats := beats + [Beat(val, strb, n >= burstLength)];
      curAddr := curAddr + nb;
    }
    IssuedEnd(bursts, addr, nb, cycles, end, cycles);
  }

  lemma NoBursts(bus: Bus)
    ensures forall complete :: Maximal([], bus.NumBytes(), BurstLimit(bus), complete)
  {
  }

  lemma FirstOffsets(bus: Bus, addr: nat)
    requires bus.Valid()
    ensures var nb, bw := bus.NumBytes(), bus.WordBytes();
            && BeatAddr(addr, nb, 0) == addr / nb * nb
            && addr / nb * nb - addr / bw * bw == BeatAddr(addr, nb, 0) % bw
  {
    hide Pow2;
    var nb := bus.NumBytes();
    var perWord, _ := BusRatios(bus);
    var cur := addr / nb * nb;
    BeatAddrAligned(addr, nb, 0);
    assert addr == cur + addr % nb;
    InBeat(addr, cur, nb, perWord);
    InBeat(cur, cur, nb, perWord);
    assert cur == cur / bus.WordBytes() * bus.WordBytes() + cur % bus.WordBytes();
  }

  lemma NextLo(addr: nat, len: nat, nb: nat, k: nat)
    requires nb > 0 && k < Cycles(addr, len, nb)
    ensures BeatAddr(addr, nb, k + 1) == BeatAddr(addr, nb, k) + nb
    ensures k + 1 < Cycles(addr, len, nb) ==> Hi(addr, len, nb, k) == Lo(addr, nb, k + 1)
  {
    BeatOrder(addr, len, nb, k);
  }

  lemma IssuedEnd(bursts: seq<Burst>, addr: nat, nb: nat, k: nat, end: nat, cycles: nat)
    requires nb > 0 && Issued(bursts, addr, nb, k, end, cycles)
    ensures k <= end <= cycles && Tile(bursts, addr, nb, 0, end)
  {
  }

  lemma IssuedStep(bursts: seq<Burst>, addr: nat, nb: nat, k: nat, end: nat, cycles: nat)
    requires nb > 0 && Issued(bursts, addr, nb, k, end, cycles) && k < end
    ensures Issued(bursts, addr, nb, k + 1, end, cycles)
    ensures EndsAt(bursts, 0, k + 1) <==> end == k + 1
  {
  }

  // The RAM

  datatype ReadBeat = ReadBeat(val: nat, last: bool)

  /** The word that holds the byte at cur. */
  function WordValue(mem: seq<Byte>, cur: nat, bw: nat): nat
    requires Usable(mem, bw)
  {
    var base := WordAddr(cur, bw) % |mem|;
    if Inside(|mem|, cur, bw) then Horner(mem[base..base + bw], 8) else 0
  }

  /** From beat s on, the last flag is set where a burst ends and nowhere else. */
  ghost predicate Marked(bursts: seq<Burst>, beats: seq<Beat>, s: nat) {
    forall k :: s <= k < |beats| ==> (beats[k].last <==> EndsAt(bursts, s, k + 1))
  }

  /** The last flag is set on the final beat and on no other. */
  ghost predicate LastOnly(beats: seq<Beat>) {
    forall n :: 0 <= n < |beats| ==> (beats[n].last <==> n == |beats| - 1)
  }

  class Ram {
    const mem: array<Byte>

    constructor (size: nat)
      ensures fresh(mem) && mem.Length == size
    {
      mem := new Byte[size](_ => 0);
    }

    /** The strobed bytes of one data beat. */
    method WriteWord(base: nat, beat: Beat, bw: nat)
      requires base + bw <= mem.Length
      modifies mem
      ensures mem[..] == Strobed(old(mem[..]), base, beat, 0, bw)
    {
      hide Bit, Lane;
      for i := 0 to bw
        invariant Strobed(old(mem[..]), base, beat, 0, bw) == Strobed(mem[..], base, beat, i, bw)
      {
        ghost var before := mem[..];
        TestBit(beat.strb, i);
        LaneIsByte(beat.val, i);
        if And(beat.strb, Shl(1, i)) != 0 {
          var byte: Byte := Lane(beat.val, i, 8);
          mem[base + i] := byte;
          assert mem[..] == before[base + i := byte];
        }
      }
    }

    /** One burst, from its aligned address on: false stands for the assertions on the size, the page and
        the last flag, and for a word that runs over the end of the memory. */
    method WriteBurst(bus: Bus, b: Burst, beats: seq<Beat>) returns (ok: bool)
      requires Usable(mem[..], bus.WordBytes()) && b.len == |beats|
      modifies mem
      ensures var aligned := Aligned(b, bus.NumBytes());
              && (ok <==> && bus.NumBytes() <= bus.WordBytes() && WithinPage(aligned, bus.NumBytes()) && LastOnly(beats)
                          && InsideFrom(mem.Length, aligned.addr, b.len, bus.NumBytes(), bus.WordBytes()))
              && (ok ==> mem[..] == BeatsEffect(old(mem[..]), aligned.addr, beats, bus.NumBytes(), bus.WordBytes()))
              && (ok ==> aligned.addr % 0x1000 + b.len * bus.NumBytes() <= 0x1000)
    {
      hide Pow2, BeatEffect, Inside, InsideFrom;
      var nb, bw := bus.NumBytes(), bus.WordBytes();
      var curAddr: nat := b.addr / nb * nb;
      ghost var start := curAddr;
      if nb > bw || PAGE - curAddr % PAGE < nb * b.len {
        return false;
      }
      for n := 0 to b.len
        invariant BeatsEffect(old(mem[..]), start, beats, nb, bw) == BeatsEffect(mem[..], curAddr, beats[n..], nb, bw)
        invariant InsideFrom(mem.Length, start, b.len, nb, bw) <==> InsideFrom(mem.Length, curAddr, b.len - n, nb, bw)
        invariant forall i :: 0 <= i < n ==> (beats[i].last <==> i == b.len - 1)
      {
        InsideNext(mem.Length, curAddr, b.len - n, nb, bw);
        if !Inside(mem.Length, curAddr, bw) {
          return false;
        }
        BeatEffectIs(mem[..], curAddr, beats[n], bw);
        WriteWord(curAddr / bw * bw % mem.Length, beats[n], bw);
        if beats[n].last != (n == b.len - 1) {
          assert !LastOnly(beats);
          return false;
        }
        assert beats[n..][1..] == beats[n + 1..];
        curAddr := curAddr + nb;
      }
      InsideNext(mem.Length, curAddr, 0, nb, bw);
      return true;
    }

    /** Pop bursts, and with each its beats, until the address queue is empty.  The bursts that a master
        issues trip none of the assertions. */
    method ServeWrites(bus: Bus, bursts: seq<Burst>, beats: seq<Beat>, ghost addr: nat) returns (ok: bool)
      requires Usable(mem[..], bus.WordBytes()) && bus.NumBytes() <= bus.WordBytes()
      requires Tile(bursts, addr, bus.NumBytes(), 0, |beats|)
      requires Marked(bursts, beats, 0)
      modifies mem
      ensures ok <==> InsideFrom(mem.Length, BeatAddr(addr, bus.NumBytes(), 0), |beats|, bus.NumBytes(), bus.WordBytes())
      ensures ok ==>
                mem[..] == BeatsEffect(old(mem[..]), BeatAddr(addr, bus.NumBytes(), 0), beats, bus.NumBytes(), bus.WordBytes())
    {
      hide BeatsEffect, BeatAddr, Pow2, InsideFrom;
      var nb := bus.NumBytes();
      ghost var bw := bus.WordBytes();
      var s: nat := 0;
      assert bursts[0..] == bursts && beats[0..] == beats;
      for i := 0 to |bursts|
        invariant s <= |beats| && Tile(bursts[i..], addr, nb, s, |beats|)
        invariant Marked(bursts[i..], beats, s)
        invariant BeatsEffect(old(mem[..]), BeatAddr(addr, nb, 0), beats, nb, bw)
               == BeatsEffect(mem[..], BeatAddr(addr, nb, s), beats[s..], nb, bw)
        invariant InsideFrom(mem.Length, BeatAddr(addr, nb, 0), |beats|, nb, bw)
             <==> InsideFrom(mem.Length, BeatAddr(addr, nb, s), |beats| - s, nb, bw)
      {
        var b := bursts[i];
        assert bursts[i..][0] == b && bursts[i..][1..] == bursts[i + 1..];
        ghost var before := mem[..];
        LastsOfBurst(bursts[i..], beats, addr, nb, s);
        BeatAligned(addr, nb, s, b.len);
        BeatAddrAdd(addr, nb, s, b.len);
        BeatsEffectAppend(before, b.addr, beats[s..s + b.len], beats[s + b.len..], nb, bw);
        InsideAppend(mem.Length, b.addr, b.len, |beats| - s - b.len, nb, bw);
        assert beats[s..] == beats[s..s + b.len] + beats[s + b.len..];
        var fine := WriteBurst(bus, b, beats[s..s + b.len]);
        if !fine { return false; }
        s := s + b.len;
      }
      BeatsEffectNone(mem[..], BeatAddr(addr, nb, s), nb, bw);
      InsideNext(mem.Length, BeatAddr(addr, nb, s), 0, nb, bw);
      return true;
    }

    /** The word at base as the RAM puts it on the bus, low byte in the low lane. */
    method ReadWord(base: nat, bw: nat) returns (val: nat)
      requires base + bw <= mem.Length
      ensures val == Horner(mem[base..base + bw], 8)
    {
      ghost var word := mem[base..base + bw];
      val := 0;
      for i := bw downto 0
        invariant val == Horner(word[i..], 8)
      {
        assert word[i..][1..] == word[i + 1..];
        val := Shl(val, 8);
        val := val + mem[base + i];
      }
      assert word[0..] == word;
    }

    /** The word that holds the byte at cur. */
    method ReadAt(cur: nat, bw: nat) returns (val: nat)
      requires Usable(mem[..], bw) && Inside(mem.Length, cur, bw)
      ensures val == WordValue(mem[..], cur, bw)
    {
      hide Horner;
      WordValueIs(mem[..], cur, bw);
      var base := cur / bw * bw % mem.Length;
      val := ReadWord(base, bw);
      assert mem[..][base..base + bw] == mem[base..base + bw];
    }

    /** One read burst, from its aligned address on: false stands for the assertions on the size and the
        page, and for a word that runs over the end of the memory. */
    method ReadBurst(bus: Bus, b: Burst) returns (ok: bool, resp: seq<ReadBeat>)
      requires Usable(mem[..], bus.WordBytes())
      ensures var aligned := Aligned(b, bus.NumBytes());
              && (ok <==> && bus.NumBytes() <= bus.WordBytes() && WithinPage(aligned, bus.NumBytes())
                          && InsideFrom(mem.Length, aligned.addr, b.len, bus.NumBytes(), bus.WordBytes()))
              && (ok ==> Response(resp, mem[..], aligned, bus))
              && (ok ==> aligned.addr % 0x1000 + b.len * bus.NumBytes() <= 0x1000)
    {
      hide Pow2, WordValue, Inside, InsideFrom, ResponseUpTo;
      var nb, bw := bus.NumBytes(), bus.WordBytes();
      var curAddr: nat := b.addr / nb * nb;
      ghost var aligned := Burst(curAddr, b.len);
      resp := [];
      ResponseNone(mem[..], aligned, bus);
      if nb > bw || PAGE - curAddr % PAGE < nb * b.len {
        return false, resp;
      }
      for n := 0 to b.len
        invariant curAddr == aligned.addr + n * nb && ResponseUpTo(resp, mem[..], aligned, bus, n)
        invariant InsideFrom(mem.Length, aligned.addr, b.len, nb, bw) <==> InsideFrom(mem.Length, curAddr, b.len - n, nb, bw)
      {
        InsideNext(mem.Length, curAddr, b.len - n, nb, bw);
        if !Inside(mem.Length, curAddr, bw) {
          return false, resp;
        }
        var val := ReadAt(curAddr, bw);
        ResponseNext(resp, mem[..], aligned, bus, n);
        resp := resp + [ReadBeat(val, n == b.len - 1)];
        assert (n + 1) * nb == n * nb + nb;
        curAddr := curAddr + nb;
      }
      InsideNext(mem.Length, curAddr, 0, nb, bw);
      return true, resp;
    }
  }

  /** Where the RAM starts a burst: at its address, aligned down. */
  function Aligned(b: Burst, nb: nat): Burst
    requires nb > 0
  {
    Burst(b.addr / nb * nb, b.len)
  }

  lemma BeatAligned(addr: nat, nb: nat, k: nat, len: nat)
    requires nb > 0
    ensures Aligned(Burst(BeatAddr(addr, nb, k), len), nb) == Burst(BeatAddr(addr, nb, k), len)
  {
    BeatAddrAligned(addr, nb, k);
  }

  lemma InsideNext(m: nat, cur: nat, n: nat, nb: nat, bw: nat)
    requires m > 0 && bw > 0
    ensures InsideFrom(m, cur, n, nb, bw) <==> n == 0 || (Inside(m, cur, bw) && InsideFrom(m, cur + nb, n - 1, nb, bw))
  {
  }

  /** The first n beats of the answer to a burst: the words of memory, the last flag on the final one. */
  ghost predicate ResponseUpTo(resp: seq<ReadBeat>, mem: seq<Byte>, b: Burst, bus: Bus, n: nat)
    requires Usable(mem, bus.WordBytes())
  {
    && |resp| == n
    && forall i :: 0 <= i < n ==>
         resp[i] == ReadBeat(WordValue(mem, b.addr + i * bus.NumBytes(), bus.WordBytes()), i == b.len - 1)
  }

  ghost predicate Response(resp: seq<ReadBeat>, mem: seq<Byte>, b: Burst, bus: Bus)
    requires Usable(mem, bus.WordBytes())
  {
    ResponseUpTo(resp, mem, b, bus, b.len)
  }

  lemma ResponseNone(mem: seq<Byte>, b: Burst, bus: Bus)
    requires Usable(mem, bus.WordBytes())
    ensures ResponseUpTo([], mem, b, bus, 0)
  {
  }

  lemma ResponseNext(resp: seq<ReadBeat>, mem: seq<Byte>, b: Burst, bus: Bus, n: nat)
    requires Usable(mem, bus.WordBytes()) && ResponseUpTo(resp, mem, b, bus, n)
    ensures ResponseUpTo(resp + [ReadBeat(WordValue(mem, b.addr + n * bus.NumBytes(), bus.WordBytes()), n == b.len - 1)],
                         mem, b, bus, n + 1)
  {
    hide Pow2, WordValue;
  }

  lemma BeatEffectIs(mem: seq<Byte>, cur: nat, beat: Beat, bw: nat)
    requires Usable(mem, bw) && Inside(|mem|, cur, bw)
    ensures WordAddr(cur, bw) % |mem| + bw <= |mem|
    ensures BeatEffect(mem, cur, beat, bw) == Strobed(mem, WordAddr(cur, bw) % |mem|, beat, 0, bw)
  {
  }

  lemma WordValueIs(mem: seq<Byte>, cur: nat, bw: nat)
    requires Usable(mem, bw) && Inside(|mem|, cur, bw)
    ensures var base := WordAddr(cur, bw) % |mem|;
            base + bw <= |mem| && WordValue(mem, cur, bw) == Horner(mem[base..base + bw], 8)
  {
  }

  lemma BeatsEffectNone(mem: seq<Byte>, cur: nat, nb: nat, bw: nat)
    requires Usable(mem, bw)
    ensures BeatsEffect(mem, cur, [], nb, bw) == mem
  {
  }

  lemma BeatAddrAdd(addr: nat, nb: nat, k: nat, n: nat)
    requires nb > 0
    ensures BeatAddr(addr, nb, k + n) == BeatAddr(addr, nb, k) + n * nb
  {
    var q := addr / nb + k;
    assert (q + n) * nb == q * nb + n * nb;
  }

  lemma LastsOfBurst(bursts: seq<Burst>, beats: seq<Beat>, addr: nat, nb: nat, s: nat)
    requires nb > 0 && bursts != [] && Tile(bursts, addr, nb, s, |beats|) && Marked(bursts, beats, s)
    ensures s + bursts[0].len <= |beats|
    ensures LastOnly(beats[s..s + bursts[0].len])
    ensures Marked(bursts[1..], beats, s + bursts[0].len)
  {
    var len := bursts[0].len;
    var part := beats[s..s + len];
    forall n | 0 <= n < |part| ensures part[n].last <==> n == |part| - 1 {
      assert part[n] == beats[s + n];
      if EndsAt(bursts, s, s + n + 1) { EndsAfter(bursts, addr, nb, s, |beats|, s + n + 1); }
    }
  }

  /** The words of all beats of a transfer are inside the memory. */
  predicate Reachable(m: nat, addr: nat, len: nat, bus: Bus)
    requires m > 0
  {
    InsideFrom(m, BeatAddr(addr, bus.NumBytes(), 0), Cycles(addr, len, bus.NumBytes()), bus.NumBytes(), bus.WordBytes())
  }

  /** In a memory of whole words every transfer is reachable. */
  lemma WholeReachable(m: nat, addr: nat, len: nat, bus: Bus)
    requires m > 0 && m % bus.WordBytes() == 0
    ensures Reachable(m, addr, len, bus)
  {
    hide Pow2;
    var nb := bus.NumBytes();
    WholeWords(m, BeatAddr(addr, nb, 0), Cycles(addr, len, nb), nb, bus.WordBytes());
  }

  /** The words that a transfer touches are those of its bytes, whatever the size of its beats. */
  lemma ReachableBytes(m: nat, addr: nat, len: nat, bus: Bus)
    requires m > 0 && len > 0 && bus.Valid()
    ensures Reachable(m, addr, len, bus) <==> forall x: nat :: addr <= x < addr + len ==> Inside(m, x, bus.WordBytes())
  {
    hide Pow2, Inside, InsideFrom, BeatAddr, Cycles;
    var nb, bw := bus.NumBytes(), bus.WordBytes();
    var perWord, _ := BusRatios(bus);
    if Reachable(m, addr, len, bus) {
      forall x: nat | addr <= x < addr + len ensures Inside(m, x, bw) {
        var k := BeatOf(addr, len, nb, x);
        InsideAt(m, BeatAddr(addr, nb, 0), Cycles(addr, len, nb), nb, bw, k);
        BeatAddrAdd(addr, nb, 0, k);
        SameWord(m, x, BeatAddr(addr, nb, k), nb, perWord);
      }
    }
    if forall x: nat :: addr <= x < addr + len ==> Inside(m, x, bw) {
      BytesReachable(m, addr, len, bus, 0);
    }
  }

  /** The beat that holds the byte at x. */
  lemma BeatOf(addr: nat, len: nat, nb: nat, x: nat) returns (k: nat)
    requires nb > 0 && addr <= x < addr + len
    ensures k < Cycles(addr, len, nb)
    ensures BeatAddr(addr, nb, k) % nb == 0 && BeatAddr(addr, nb, k) <= x < BeatAddr(addr, nb, k) + nb
  {
    var a, r, q := addr / nb, addr % nb, x / nb;
    DivAtLeast(x, nb, a);
    k := q - a;
    assert q == a + k;
    assert BeatAddr(addr, nb, k) == q * nb;
    BeatAddrAligned(addr, nb, k);
    Distribute(a, k, nb);
    DivAtLeast(len + nb - 1 + r, nb, k + 1);
  }

  lemma Distribute(a: nat, k: nat, nb: nat)
    ensures (a + k) * nb == a * nb + k * nb && (k + 1) * nb == k * nb + nb
  {
  }

  lemma DivAtLeast(t: nat, nb: nat, n: nat)
    requires nb > 0 && t >= n * nb
    ensures t / nb >= n
  {
    if t / nb < n {
      MulMonotone(t / nb + 1, n, nb);
      assert false;
    }
  }

  lemma SameWord(m: nat, x: nat, cur: nat, nb: nat, perWord: nat)
    requires m > 0 && nb > 0 && perWord > 0 && cur % nb == 0 && cur <= x < cur + nb
    ensures perWord * nb > 0 && (Inside(m, x, perWord * nb) <==> Inside(m, cur, perWord * nb))
  {
    InBeat(x, cur, nb, perWord);
  }

  lemma {:induction false} BytesReachable(m: nat, addr: nat, len: nat, bus: Bus, k: nat)
    requires m > 0 && len > 0 && bus.Valid() && k <= Cycles(addr, len, bus.NumBytes())
    requires forall x: nat :: addr <= x < addr + len ==> Inside(m, x, bus.WordBytes())
    ensures var nb := bus.NumBytes();
            InsideFrom(m, BeatAddr(addr, nb, k), Cycles(addr, len, nb) - k, nb, bus.WordBytes())
    decreases Cycles(addr, len, bus.NumBytes()) - k
  {
    hide Pow2, Inside, BeatAddr, Cycles;
    var nb, bw := bus.NumBytes(), bus.WordBytes();
    if k < Cycles(addr, len, nb) {
      var perWord, _ := BusRatios(bus);
      BytesReachable(m, addr, len, bus, k + 1);
      BeatOrder(addr, len, nb, k);
      BeatEnds(addr, len, nb, k);
      BeatAddrAligned(addr, nb, k);
      SameWord(m, Lo(addr, nb, k), BeatAddr(addr, nb, k), nb, perWord);
    }
  }

  /** A write of any bytes to any address changes the memory exactly as storing them there does, trips none
      of the RAM's assertions, and fails only where a word of it runs over the end of the memory. */
  method Write(ram: Ram, bus: Bus, addr: nat, data: seq<Byte>) returns (ok: bool)
    requires bus.Valid() && ram.mem.Length > 0
    modifies ram.mem
    ensures ok <==> Reachable(ram.mem.Length, addr, |data|, bus)
    ensures ok ==> ram.mem[..] == Store(old(ram.mem[..]), addr, data)
  {
    hide BeatsEffect, Pow2, Store, WriteBeat, Tile, InsideFrom;
    Pow2Monotone(bus.size, bus.width);
    var bursts, beats := MasterWrite(bus, addr, data);
    ok := ram.ServeWrites(bus, bursts, beats, addr);
    if ok {
      WriteEffect(old(ram.mem[..]), beats, addr, data, bus.NumBytes(), bus.WordBytes());
    }
  }

  lemma WriteEffect(mem: seq<Byte>, beats: seq<Beat>, addr: nat, data: seq<Byte>, nb: nat, bw: nat)
    requires nb > 0 && Usable(mem, bw) && |beats| == Cycles(addr, |data|, nb)
    requires forall i :: 0 <= i < |beats| ==> WriteBeat(beats[i].val, beats[i].strb, addr, data, nb, bw, i)
    requires InsideFrom(|mem|, BeatAddr(addr, nb, 0), |beats|, nb, bw)
    ensures BeatsEffect(mem, BeatAddr(addr, nb, 0), beats, nb, bw) == Store(mem, addr, data)
  {
    if beats == [] {
      NoCycles(addr, |data|, nb);
      BeatsEffectNone(mem, BeatAddr(addr, nb, 0), nb, bw);
    } else {
      WriteBeatsEffect(mem, beats, addr, data, nb, bw, 0);
      assert beats[0..] == beats && data[0..] == data;
    }
  }

  lemma NoCycles(addr: nat, len: nat, nb: nat)
    requires nb > 0 && Cycles(addr, len, nb) == 0
    ensures len == 0
  {
    var t := len + nb - 1 + addr % nb;
    assert t == t / nb * nb + t % nb;
  }

  // The master's read path

  /** The read bursts of one command.  The counter runs ahead of the write loop's by one. */
  method MasterRead(bus: Bus, addr: nat, len: nat) returns (bursts: seq<Burst>)
    requires bus.Valid()
    ensures Tile(bursts, addr, bus.NumBytes(), 0, Cycles(addr, len, bus.NumBytes()))
    ensures Maximal(bursts, bus.NumBytes(), BurstLimit(bus), true)
  {
    hide Pow2, Maximal;
    NoBursts(bus);
    var nb := bus.NumBytes();
    var curAddr := addr / nb * nb;
    var cycles := Cycles(addr, len, nb);
    var n: nat, burstLength: nat := 0, 0;
    bursts := [];
    ghost var end: nat := 0;
    FirstOffsets(bus, addr);
    for k := 0 to cycles
      invariant curAddr == BeatAddr(addr, nb, k)
      invariant Issued(bursts, addr, nb, k, end, cycles)
      invariant Maximal(bursts, nb, BurstLimit(bus), end == cycles)
      invariant if k == 0 then n == burstLength == end == 0 else end + n + 1 == k + burstLength
    {
      hide BeatAddr, Cycles, Issued;
      NextLo(addr, len, nb, k);
      IssuedEnd(bursts, addr, nb, k, end, cycles);
      n := n + 1;
      if n >= burstLength {
        n := 0;
        var b := IssueBurst(bus, addr, cycles, k, curAddr, bursts);
        bursts := bursts + [b];
        burstLength := b.len;
        end := k + b.len;
      }
      IssuedStep(bursts, addr, nb, k, end, cycles);
      curAddr := curAddr + nb;
    }
    IssuedEnd(bursts, addr, nb, cycles, end, cycles);
  }

  /** Lanes start up to stop of a read word. */
  method TakeBytes(val: nat, start: nat, stop: nat) returns (bytes: seq<Byte>)
    requires start <= stop
    ensures |bytes| == stop - start && forall i :: 0 <= i < |bytes| ==> bytes[i] == Lane(val, start + i, 8)
  {
    bytes := [];
    for j := start to stop
      invariant |bytes| == j - start && forall i :: 0 <= i < |bytes| ==> bytes[i] == Lane(val, start + i, 8)
    {
      LaneIsByte(val, j);
      bytes := bytes + [Lane(val, j, 8)];
    }
  }

  lemma {:induction false} LoadAppend(mem: seq<Byte>, addr: nat, n: nat, m: nat)
    requires mem != []
    ensures Load(mem, addr, n + m) == Load(mem, addr, n) + Load(mem, addr + n, m)
    decreases n
  {
    if n > 0 { LoadAppend(mem, addr + 1, n - 1, m); }
  }

  lemma {:induction false} LoadIndex(mem: seq<Byte>, addr: nat, len: nat, i: nat)
    requires mem != [] && i < len
    ensures Load(mem, addr, len)[i] == mem[(addr + i) % |mem|]
    decreases len
  {
    if i > 0 { LoadIndex(mem, addr + 1, len - 1, i - 1); }
  }

  /** The lanes of the word at an address hold the bytes of memory from there on. */
  lemma TakenBytes(mem: seq<Byte>, cur: nat, bw: nat, start: nat, stop: nat, bytes: seq<Byte>)
    requires Usable(mem, bw) && Inside(|mem|, cur, bw) && start <= stop <= bw && |bytes| == stop - start
    requires forall i :: 0 <= i < |bytes| ==> bytes[i] == Lane(WordValue(mem, cur, bw), start + i, 8)
    ensures bytes == Load(mem, WordAddr(cur, bw) + start, stop - start)
  {
    hide Load, Horner, Lane, WordValue;
    WordValueIs(mem, cur, bw);
    var base := WordAddr(cur, bw) % |mem|;
    var word := mem[base..base + bw];
    BytesFit(word);
    forall i | 0 <= i < |bytes| ensures bytes[i] == Load(mem, WordAddr(cur, bw) + start, stop - start)[i] {
      LaneOfHorner(word, 8, start + i);
      LoadIndex(mem, WordAddr(cur, bw) + start, stop - start, i);
      InWord(WordAddr(cur, bw), |mem|, bw, start + i);
    }
  }

  lemma BytesFit(bytes: seq<Byte>)
    ensures Fit(bytes, 8)
  {
    assert Pow2(8) == 256;
  }

  /** The response part of one pass of the read loop: append the bytes of beat k. */
  method ReadData(bus: Bus, addr: nat, len: nat, k: nat, val: nat, cycleOffset: nat, data: seq<Byte>, ghost mem: seq<Byte>)
    returns (data': seq<Byte>, cycleOffset': nat)
    requires bus.Valid() && Usable(mem, bus.WordBytes()) && k < Cycles(addr, len, bus.NumBytes())
    requires cycleOffset == BeatAddr(addr, bus.NumBytes(), k) % bus.WordBytes()
    requires Inside(|mem|, BeatAddr(addr, bus.NumBytes(), k), bus.WordBytes())
    requires val == WordValue(mem, BeatAddr(addr, bus.NumBytes(), k), bus.WordBytes())
    requires addr <= Lo(addr, bus.NumBytes(), k) && data == Load(mem, addr, Lo(addr, bus.NumBytes(), k) - addr)
    ensures addr <= BeatAddr(addr, bus.NumBytes(), k + 1)
    ensures data' == Load(mem, addr, BeatAddr(addr, bus.NumBytes(), k + 1) - addr)
    ensures cycleOffset' == BeatAddr(addr, bus.NumBytes(), k + 1) % bus.WordBytes()
  {
    hide Lo, Hi, BeatAddr, Cycles, Pow2, WordValue, Load;
    var nb, bw := bus.NumBytes(), bus.WordBytes();
    ghost var cur, lo := BeatAddr(addr, nb, k), Lo(addr, nb, k);
    ghost var perWord, _ := BusRatios(bus);
    BeatAddrAligned(addr, nb, k);
    BeatOrder(addr, len, nb, k);
    BeatEnds(addr, len, nb, k);
    LanesOf(cur, lo, cur + nb, nb, perWord);
    var start, stop := cycleOffset, cycleOffset + nb;
    if k == 0 { start := addr % bw; }
    assert start == lo - WordAddr(cur, bw) && stop == cur + nb - WordAddr(cur, bw);
    var bytes := TakeBytes(val, start, stop);
    TakenBytes(mem, cur, bw, start, stop, bytes);
    LoadAppend(mem, addr, lo - addr, cur + nb - lo);
    data' := data + bytes;
    cycleOffset' := (cycleOffset + nb) % bw;
  }

  /** The answer to one burst, whose first beat is beat k of the read. */
  method TakeBurst(bus: Bus, addr: nat, len: nat, k: nat, resp: seq<ReadBeat>, cycleOffset: nat, data: seq<Byte>, ghost mem: seq<Byte>)
    returns (ok: bool, data': seq<Byte>, cycleOffset': nat)
    requires bus.Valid() && Usable(mem, bus.WordBytes()) && k + |resp| <= Cycles(addr, len, bus.NumBytes())
    requires cycleOffset == BeatAddr(addr, bus.NumBytes(), k) % bus.WordBytes()
    requires Loaded(data, mem, addr, bus.NumBytes(), k)
    requires Response(resp, mem, Burst(BeatAddr(addr, bus.NumBytes(), k), |resp|), bus)
    requires InsideFrom(|mem|, BeatAddr(addr, bus.NumBytes(), k), |resp|, bus.NumBytes(), bus.WordBytes())
    ensures ok && Loaded(data', mem, addr, bus.NumBytes(), k + |resp|)
    ensures cycleOffset' == BeatAddr(addr, bus.NumBytes(), k + |resp|) % bus.WordBytes()
  {
    hide Pow2, Load, WordValue, Cycles, Lo, BeatAddr, InsideFrom;
    ghost var nb, bw := bus.NumBytes(), bus.WordBytes();
    data', cycleOffset' := data, cycleOffset;
    for n := 0 to |resp|
      invariant cycleOffset' == BeatAddr(addr, nb, k + n) % bw
      invariant Loaded(data', mem, addr, nb, k + n)
    {
      BeatAddrAdd(addr, nb, k, n);
      LoadedLo(data', mem, addr, len, nb, k + n);
      InsideAt(|mem|, BeatAddr(addr, nb, k), |resp|, nb, bw, n);
      if resp[n].last != (n == |resp| - 1) { return false, data', cycleOffset'; }
      data', cycleOffset' := ReadData(bus, addr, len, k + n, resp[n].val, cycleOffset', data', mem);
    }
    return true, data', cycleOffset';
  }

  /** One burst of a read, from beat k on, and the bytes of its answer. */
  method ReadFrom(ram: Ram, bus: Bus, addr: nat, len: nat, k: nat, b: Burst, cycleOffset: nat, data: seq<Byte>)
    returns (ok: bool, data': seq<Byte>, cycleOffset': nat)
    requires bus.Valid() && ram.mem.Length > 0 && k + b.len <= Cycles(addr, len, bus.NumBytes())
    requires b.addr == BeatAddr(addr, bus.NumBytes(), k) && WithinPage(b, bus.NumBytes())
    requires cycleOffset == BeatAddr(addr, bus.NumBytes(), k) % bus.WordBytes()
    requires Loaded(data, ram.mem[..], addr, bus.NumBytes(), k)
    ensures ok <==> InsideFrom(ram.mem.Length, b.addr, b.len, bus.NumBytes(), bus.WordBytes())
    ensures ok ==> Loaded(data', ram.mem[..], addr, bus.NumBytes(), k + b.len)
    ensures ok ==> cycleOffset' == BeatAddr(addr, bus.NumBytes(), k + b.len) % bus.WordBytes()
  {
    hide Pow2, InsideFrom, ResponseUpTo, BeatAddr, Loaded, Cycles, WithinPage;
    Pow2Monotone(bus.size, bus.width);
    BeatAligned(addr, bus.NumBytes(), k, b.len);
    data', cycleOffset' := data, cycleOffset;
    var resp;
    ok, resp := ram.ReadBurst(bus, b);
    if ok {
      ResponseSize(resp, ram.mem[..], b, bus);
      ok, data', cycleOffset' := TakeBurst(bus, addr, len, k, resp, cycleOffset, data, ram.mem[..]);
    }
  }

  lemma ResponseSize(resp: seq<ReadBeat>, mem: seq<Byte>, b: Burst, bus: Bus)
    requires Usable(mem, bus.WordBytes()) && Response(resp, mem, b, bus)
    ensures |resp| == b.len
  {
  }

  /** A read of any range returns the bytes of memory there, trips none of the assertions, and fails only
      where a word of it runs over the end of the memory. */
  method Read(ram: Ram, bus: Bus, addr: nat, len: nat) returns (ok: bool, data: seq<Byte>)
    requires bus.Valid() && ram.mem.Length > 0
    ensures ok <==> Reachable(ram.mem.Length, addr, len, bus)
    ensures ok ==> data == Load(ram.mem[..], addr, len)
  {
    hide Pow2, Load, Cycles, InsideFrom, Maximal, Loaded, WithinPage;
    var nb, bw := bus.NumBytes(), bus.WordBytes();
    LoadedNone(ram.mem[..], addr, nb);
    ghost var m, cycles := ram.mem.Length, Cycles(addr, len, nb);
    var bursts := MasterRead(bus, addr, len);
    FirstOffsets(bus, addr);
    var cycleOffset := addr / nb * nb - addr / bw * bw;
    hide BeatAddr;
    data := [];
    var k: nat := 0;
    assert bursts[0..] == bursts;
    for i := 0 to |bursts|
      invariant k <= cycles && Tile(bursts[i..], addr, nb, k, cycles)
      invariant cycleOffset == BeatAddr(addr, nb, k) % bw
      invariant Loaded(data, ram.mem[..], addr, nb, k)
      invariant Reachable(m, addr, len, bus) <==> InsideFrom(m, BeatAddr(addr, nb, k), cycles - k, nb, bw)
    {
      var b := bursts[i];
      assert bursts[i..][0] == b && bursts[i..][1..] == bursts[i + 1..];
      InsideAppend(m, b.addr, b.len, cycles - k - b.len, nb, bw);
      BeatAddrAdd(addr, nb, k, b.len);
      ok, data, cycleOffset := ReadFrom(ram, bus, addr, len, k, b, cycleOffset, data);
      if !ok { return; }
      k := k + b.len;
    }
    InsideNext(m, BeatAddr(addr, nb, k), 0, nb, bw);
    LoadedAll(data, ram.mem[..], addr, len, nb);
    return true, data[..len];
  }

  /** The bytes gathered before beat k: from addr up to the beat. */
  ghost predicate Loaded(data: seq<Byte>, mem: seq<Byte>, addr: nat, nb: nat, k: nat)
    requires nb > 0 && mem != []
  {
    if k == 0 then data == []
    else addr <= BeatAddr(addr, nb, k) && data == Load(mem, addr, BeatAddr(addr, nb, k) - addr)
  }

  lemma LoadedNone(mem: seq<Byte>, addr: nat, nb: nat)
    requires nb > 0 && mem != []
    ensures Loaded([], mem, addr, nb, 0)
  {
  }

  lemma LoadedLo(data: seq<Byte>, mem: seq<Byte>, addr: nat, len: nat, nb: nat, k: nat)
    requires nb > 0 && mem != [] && k < Cycles(addr, len, nb) && Loaded(data, mem, addr, nb, k)
    ensures addr <= Lo(addr, nb, k) && data == Load(mem, addr, Lo(addr, nb, k) - addr)
  {
    BeatEnds(addr, len, nb, k);
  }

  lemma LoadedAll(data: seq<Byte>, mem: seq<Byte>, addr: nat, len: nat, nb: nat)
    requires nb > 0 && mem != [] && Loaded(data, mem, addr, nb, Cycles(addr, len, nb))
    ensures len <= |data| && data[..len] == Load(mem, addr, len)
  {
    var c := Cycles(addr, len, nb);
    if c == 0 {
      NoCycles(addr, len, nb);
    } else {
      BeatOrder(addr, len, nb, c - 1);
      LoadAppend(mem, addr, len, |data| - len);
    }
  }

  /** A following read of the written range returns the data, also with beats of another size.  Both succeed
      exactly when no word of the range runs over the end of the memory. */
  method WriteThenRead(ram: Ram, bus: Bus, readBus: Bus, addr: nat, data: seq<Byte>) returns (ok: bool, readBack: seq<Byte>)
    requires bus.Valid() && readBus.Valid() && readBus.width == bus.width
    requires ram.mem.Length > 0 && |data| <= ram.mem.Length
    modifies ram.mem
    ensures ok ==> readBack == data
    ensures data != [] ==>
              (ok <==> forall x: nat :: addr <= x < addr + |data| ==> Inside(ram.mem.Length, x, bus.WordBytes()))
    ensures ram.mem.Length % bus.WordBytes() == 0 ==> ok
  {
    hide Store, Load, Reachable, Inside, Pow2;
    if ram.mem.Length % bus.WordBytes() == 0 {
      WholeReachable(ram.mem.Length, addr, |data|, bus);
      WholeReachable(ram.mem.Length, addr, |data|, readBus);
    }
    if data != [] {
      ReachableBytes(ram.mem.Length, addr, |data|, bus);
      ReachableBytes(ram.mem.Length, addr, |data|, readBus);
    }
    ok := Write(ram, bus, addr, data);
    if !ok { return false, []; }
    ok, readBack := Read(ram, readBus, addr, |data|);
    LoadAfterStore(old(ram.mem[..]), addr, data);
  }
}
