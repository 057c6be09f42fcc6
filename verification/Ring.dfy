/** The descriptor ring and completion ring shared by the transmit and receive paths of the driver.
    The driver keeps 32-bit pointers that wrap, sees the NIC's pointers through 16-bit registers, and
    gets completions in any order.  The operations take the pointer width as a parameter:
    the C driver is the ring at Bits32; at Unbounded it is the same protocol on integers, whose empty,
    full, index and clean-up expressions are those of the Python test driver's rings. */
module Ring {
  import opened Bits
  import opened Common

  const REGS: nat := 0x1_0000

  /** An skb or a page: the driver only moves it around. */
  type Buf = nat

  datatype Width = Unbounded | Bits32

  function Wrap(w: Width, x: int): int {
    if w.Bits32? then x % WRAP else x
  }

  datatype Ring = Ring(
    logSize: nat, logCqSize: nat,
    // driver: descriptor ring pointers, buffers by slot, completion ring pointers
    head: int, tail: int, clean: int, slots: seq<Option<Buf>>, cqHead: int, cqTail: int,
    // registers written by the driver
    headReg: nat, cqTailReg: nat,
    // NIC: descriptors fetched so far, positions completed so far, completion ring memory
    hwTail: nat, log: seq<nat>, cqBuf: seq<nat>)
  {
    function Size(): (n: nat) ensures n > 0 { Pow2(logSize) }
    function CqSize(): (n: nat) ensures n > 0 { Pow2(logCqSize) }
  }

  // Operations of the driver

  /** head_ptr - clean_tail_ptr */
  function Used(w: Width, r: Ring): int {
    Wrap(w, r.head - r.clean)
  }

  ghost predicate Shaped(r: Ring) {
    |r.slots| == r.Size() && |r.cqBuf| == r.CqSize()
  }

  function Fill(w: Width, r: Ring, buf: Buf): (r': Ring)
    requires Shaped(r)
    ensures Shaped(r')
  {
    r.(slots := r.slots[r.head % r.Size() := Some(buf)], head := Wrap(w, r.head + 1))
  }

  function WriteHead(r: Ring): Ring {
    r.(headReg := r.head % REGS)
  }

  function ReadTail(w: Width, r: Ring): Ring {
    r.(tail := Wrap(w, r.tail + (r.hwTail % REGS - r.tail) % REGS))
  }

  function ReadCqHead(w: Width, r: Ring): Ring {
    r.(cqHead := Wrap(w, r.cqHead + (|r.log| % REGS - r.cqHead) % REGS))
  }

  function WriteCqTail(r: Ring): Ring {
    r.(cqTailReg := r.cqTail % REGS)
  }

  /** The slot named by the next completion. */
  function CplSlot(r: Ring): (i: nat)
    requires Shaped(r)
    ensures i < r.Size()
  {
    r.cqBuf[r.cqTail % r.CqSize()] % r.Size()
  }

  /** Take the next completion and empty its slot. */
  function PopCpl(w: Width, r: Ring): (r': Ring)
    requires Shaped(r)
    ensures Shaped(r')
  {
    r.(slots := r.slots[CplSlot(r) := None], cqTail := Wrap(w, r.cqTail + 1))
  }

  /** Whether the clean-up loop, at position c, moves on. */
  predicate CanClean(r: Ring, c: int)
    requires Shaped(r)
  {
    c != r.tail && r.slots[c % r.Size()].None?
  }

  // Steps of the NIC

  predicate CanFetch(r: Ring) {
    r.headReg != r.hwTail % REGS
  }

  function Fetch(r: Ring): Ring {
    r.(hwTail := r.hwTail + 1)
  }

  predicate CanComplete(r: Ring, p: nat) {
    p < r.hwTail && p !in r.log && (|r.log| - r.cqTailReg) % REGS < r.CqSize()
  }

  function Complete(r: Ring, p: nat): (r': Ring)
    requires Shaped(r)
    ensures Shaped(r')
  {
    r.(log := r.log + [p], cqBuf := r.cqBuf[|r.log| % r.CqSize() := p % REGS])
  }

  // The invariant

  /** The true positions behind the 16-bit doorbell registers. */
  ghost function Announced(r: Ring): int {
    r.head - (r.head - r.headReg) % REGS
  }

  ghost function CqReleased(r: Ring): int {
    r.cqTail - (r.cqTail - r.cqTailReg) % REGS
  }

  ghost predicate Pointers(r: Ring, c: int) {
    && Shaped(r) && r.logSize <= 16 && r.logCqSize <= 15 && r.head - r.clean < REGS
    && r.headReg < REGS && r.cqTailReg < REGS
    && 0 <= r.clean <= c <= r.tail <= r.hwTail <= Announced(r) <= r.head <= r.clean + r.Size()
    && 0 <= CqReleased(r) <= r.cqTail <= r.cqHead <= |r.log| <= CqReleased(r) + r.CqSize()
  }

  /** Completions name fetched positions, each once, and those not yet taken are in the ring memory. */
  ghost predicate Completions(r: Ring) {
    && (forall j :: 0 <= j < |r.log| ==> r.log[j] < r.hwTail)
    && (forall i, j :: 0 <= i < j < |r.log| ==> r.log[i] != r.log[j])
    && (0 <= r.cqTail && |r.cqBuf| == r.CqSize())
    && (forall j :: r.cqTail <= j < |r.log| ==> r.cqBuf[j % r.CqSize()] == r.log[j] % REGS)
  }

  ghost predicate Taken(r: Ring, p: int) {
    0 <= r.cqTail <= |r.log| && p in r.log[..r.cqTail]
  }

  /** Slot by slot: between clean and head a slot is empty exactly when its completion was taken;
      outside it is empty; everything before c is done. */
  ghost predicate Slots(r: Ring, c: int) {
    && Shaped(r)
    && (forall p :: r.clean <= p < r.head ==> (r.slots[p % r.Size()].Some? <==> !Taken(r, p)))
    && (forall p :: r.head <= p < r.clean + r.Size() ==> r.slots[p % r.Size()].None?)
    && (forall p :: 0 <= p < c ==> Taken(r, p))
  }

  /** The invariant of the ring, with a clean-up in progress at position c. */
  ghost predicate Inv(r: Ring, c: int) {
    Pointers(r, c) && Completions(r) && Slots(r, c)
  }

  // Arithmetic of the sizes and registers

  lemma SizeBound(n: nat)
    requires n <= 16
    ensures 0 < Pow2(n) <= REGS
    ensures n <= 15 ==> Pow2(n) <= REGS / 2
  {
    hide Pow2;
    Pow2Of15();
    Pow2Monotone(n, 16);
    if n <= 15 { Pow2Monotone(n, 15); }
  }

  lemma SizeDivides(n: nat, x: int)
    requires n <= 16
    ensures x % REGS % Pow2(n) == x % Pow2(n)
    ensures x % WRAP % Pow2(n) == x % Pow2(n)
  {
    hide Pow2;
    Pow2Of15();
    Pow2Add(n, 16 - n);
    ModMod(x, Pow2(n), Pow2(16 - n));
    assert WRAP == Pow2(n) * (Pow2(16 - n) * REGS);
    ModMod(x, Pow2(n), Pow2(16 - n) * REGS);
  }

  lemma Pow2Of15()
    ensures Pow2(15) == 0x8000 && Pow2(16) == REGS
  {
    assert Pow2(5) == 32;
    Pow2Add(5, 5);
    Pow2Add(10, 5);
  }

  lemma SlotsApart(r: Ring, p: int, q: int)
    requires p < q < p + r.Size() || q < p < q + r.Size()
    ensures p % r.Size() != q % r.Size()
  {
    if p < q { ModDistinct(p, q - p, r.Size()); } else { ModDistinct(q, p - q, r.Size()); }
  }

  /** A 16-bit register tells how far behind the true pointer x it was written. */
  lemma RegisterOf(x: int, reg: nat)
    requires reg < REGS
    ensures (x - (x - reg) % REGS) % REGS == reg
    ensures (x - reg) % REGS + 1 < REGS ==> (x + 1 - reg) % REGS == (x - reg) % REGS + 1
  {
  }

  lemma RegisterWritten(x: int)
    ensures (x - x % REGS) % REGS == 0
  {
  }

  /** Adding the masked difference to a stale pointer recovers the true one. */
  lemma RegisterRecovers(stale: int, now: int)
    requires stale <= now < stale + REGS
    ensures stale + (now % REGS - stale) % REGS == now
  {
  }

  // What does not touch a part of the state keeps its part of the invariant

  lemma SlotsFrame(r: Ring, r': Ring, c: int)
    requires Slots(r, c) && Shaped(r') && r'.logSize == r.logSize
    requires r'.slots == r.slots && r'.head == r.head && r'.clean == r.clean && r'.cqTail == r.cqTail
    requires |r'.log| >= |r.log| && r'.log[..|r.log|] == r.log && 0 <= r.cqTail <= |r.log|
    ensures Slots(r', c)
  {
    hide Pow2;
    assert r'.log[..r.cqTail] == r.log[..r.cqTail];
    forall p ensures Taken(r', p) == Taken(r, p) {}
  }

  // The driver's operations keep the invariant

  /** A slot is filled only when it is empty. */
  lemma FillKeeps(r: Ring, c: int, buf: Buf)
    requires Inv(r, c) && r.head < r.clean + r.Size() && r.head + 1 < r.clean + REGS
    ensures r.slots[r.head % r.Size()].None?
    ensures Inv(Fill(Unbounded, r, buf), c)
    ensures Announced(Fill(Unbounded, r, buf)) == Announced(r)
  {
    hide Pow2, Slots, Completions;
    FillSlots(r, c, buf);
    SizeBound(r.logSize);
    RegisterOf(r.head, r.headReg);
    FillCompletions(r, buf);
  }

  lemma InvShape(r: Ring, c: int)
    requires Inv(r, c)
    ensures Pointers(r, c) && Shaped(r)
  {
  }

  lemma FillCompletions(r: Ring, buf: Buf)
    requires Shaped(r) && Completions(r)
    ensures Completions(Fill(Unbounded, r, buf))
  {
    hide Pow2;
  }

  lemma FillSlots(r: Ring, c: int, buf: Buf)
    requires Inv(r, c) && r.head < r.clean + r.Size()
    ensures r.slots[r.head % r.Size()].None?
    ensures Slots(Fill(Unbounded, r, buf), c)
  {
    hide Pow2;
    var r' := Fill(Unbounded, r, buf);
    forall p | r.clean <= p < r.clean + r.Size() && p != r.head
      ensures r'.slots[p % r.Size()] == r.slots[p % r.Size()]
    {
      SlotsApart(r, p, r.head);
    }
    forall p ensures Taken(r', p) == Taken(r, p) {}
    assert !Taken(r, r.head);
  }

  lemma WriteHeadKeeps(r: Ring, c: int)
    requires Inv(r, c)
    ensures Inv(WriteHead(r), c) && Announced(WriteHead(r)) == r.head
  {
    hide Pow2, Slots, Taken;
    RegisterWritten(r.head);
    SlotsFrame(r, WriteHead(r), c);
  }

  /** The 16-bit register gives back the true pointer, across any number of wraps. */
  lemma ReadTailKeeps(r: Ring, c: int)
    requires Inv(r, c)
    ensures ReadTail(Unbounded, r) == r.(tail := r.hwTail)
    ensures Inv(ReadTail(Unbounded, r), c)
  {
    hide Pow2, Slots, Taken;
    SizeBound(r.logSize);
    RegisterRecovers(r.tail, r.hwTail);
    SlotsFrame(r, ReadTail(Unbounded, r), c);
  }

  lemma ReadCqHeadKeeps(r: Ring, c: int)
    requires Inv(r, c)
    ensures ReadCqHead(Unbounded, r) == r.(cqHead := |r.log|)
    ensures Inv(ReadCqHead(Unbounded, r), c)
  {
    hide Pow2, Slots, Taken;
    SizeBound(r.logCqSize);
    RegisterRecovers(r.cqHead, |r.log|);
    SlotsFrame(r, ReadCqHead(Unbounded, r), c);
  }

  lemma WriteCqTailKeeps(r: Ring, c: int)
    requires Inv(r, c)
    ensures Inv(WriteCqTail(r), c) && CqReleased(WriteCqTail(r)) == r.cqTail
  {
    hide Pow2, Slots, Taken;
    RegisterWritten(r.cqTail);
    SlotsFrame(r, WriteCqTail(r), c);
  }

  /** A completion never meets an empty slot: it empties the slot of the position it completes. */
  lemma PopCplKeeps(r: Ring, c: int)
    requires Inv(r, c) && r.cqHead != r.cqTail
    ensures CplSlot(r) == r.log[r.cqTail] % r.Size()
    ensures r.slots[CplSlot(r)].Some?
    ensures Inv(PopCpl(Unbounded, r), c)
  {
    hide Pow2, Slots, Completions;
    CplSlotIs(r, c);
    PopSlots(r, c);
    SizeBound(r.logCqSize);
    RegisterOf(r.cqTail, r.cqTailReg);
    PopCompletions(r);
  }

  lemma CplSlotIs(r: Ring, c: int)
    requires Inv(r, c) && r.cqHead != r.cqTail
    ensures CplSlot(r) == r.log[r.cqTail] % r.Size()
    ensures c <= r.log[r.cqTail] < r.hwTail && !Taken(r, r.log[r.cqTail])
  {
    hide Pow2;
    SizeDivides(r.logSize, r.log[r.cqTail]);
    assert !Taken(r, r.log[r.cqTail]);
  }

  lemma PopCompletions(r: Ring)
    requires Shaped(r) && Completions(r)
    ensures Completions(PopCpl(Unbounded, r))
  {
    hide Pow2;
  }

  lemma PopSlots(r: Ring, c: int)
    requires Inv(r, c) && r.cqHead != r.cqTail
    requires CplSlot(r) == r.log[r.cqTail] % r.Size()
    requires c <= r.log[r.cqTail] < r.hwTail && !Taken(r, r.log[r.cqTail])
    ensures r.slots[CplSlot(r)].Some?
    ensures Slots(PopCpl(Unbounded, r), c)
  {
    hide Pow2, Completions;
    var r', q := PopCpl(Unbounded, r), r.log[r.cqTail];
    forall p | r.clean <= p < r.clean + r.Size() && p != q
      ensures r'.slots[p % r.Size()] == r.slots[p % r.Size()]
    {
      SlotsApart(r, p, q);
    }
    assert r.log[..r.cqTail + 1] == r.log[..r.cqTail] + [q];
    forall p ensures Taken(r', p) == (Taken(r, p) || p == q) {}
  }

  lemma CleanKeeps(r: Ring, c: int)
    requires Inv(r, c) && CanClean(r, c)
    ensures Inv(r, c + 1)
  {
    hide Pow2;
  }

  /** The clean-up stops exactly at the first position not taken yet, or at the tail. */
  lemma CleanStops(r: Ring, c: int)
    requires Inv(r, c) && !CanClean(r, c)
    ensures forall p :: 0 <= p < c ==> Taken(r, p)
    ensures c == r.tail || !Taken(r, c)
  {
    hide Pow2;
  }

  lemma PublishKeeps(r: Ring, c: int)
    requires Inv(r, c)
    ensures Inv(r.(clean := c), c)
  {
    hide Pow2, Slots, Taken;
    PublishSlots(r, c);
  }

  lemma PublishSlots(r: Ring, c: int)
    requires Slots(r, c) && 0 <= r.clean <= c <= r.head
    ensures Slots(r.(clean := c), c)
  {
    hide Pow2;
    var r' := r.(clean := c);
    forall p ensures Taken(r', p) == Taken(r, p) {}
    forall p | r.head <= p < c + r.Size() ensures r.slots[p % r.Size()].None? {
      if p >= r.clean + r.Size() {
        AddMultiple(p - r.Size(), r.Size(), 1);
        assert Taken(r, p - r.Size());
      }
    }
  }

  // The NIC's steps keep the invariant

  /** The NIC fetches only announced descriptors, although it sees 16-bit pointers. */
  lemma FetchKeeps(r: Ring, c: int)
    requires Inv(r, c) && CanFetch(r)
    ensures r.hwTail < Announced(r)
    ensures Inv(Fetch(r), c)
  {
    hide Pow2, Slots, Taken;
    RegisterOf(r.head, r.headReg);
    SlotsFrame(r, Fetch(r), c);
  }

  lemma CompleteKeeps(r: Ring, c: int, p: nat)
    requires Inv(r, c) && CanComplete(r, p)
    ensures Inv(Complete(r, p), c)
  {
    hide Pow2, Slots, Completions, Taken;
    SizeBound(r.logCqSize);
    assert |r.log| - CqReleased(r) < r.CqSize() by { RegisterOf(r.cqTail, r.cqTailReg); }
    SlotsFrame(r, Complete(r, p), c);
    CompleteCompletions(r, p);
  }

  /** With every completion taken and given back, the NIC may complete any descriptor it has fetched. */
  lemma RoomToComplete(r: Ring, p: nat)
    requires r.cqTailReg == |r.log| % REGS && p < r.hwTail && p !in r.log
    ensures CanComplete(r, p)
  {
    hide Pow2;
    RegisterWritten(|r.log|);
  }

  lemma CompleteCompletions(r: Ring, p: nat)
    requires Shaped(r) && Completions(r) && p < r.hwTail && p !in r.log
    requires |r.log| - r.cqTail < r.CqSize()
    ensures Completions(Complete(r, p))
  {
    hide Pow2;
    var r' := Complete(r, p);
    forall j | r.cqTail <= j < |r.log| ensures r'.cqBuf[j % r.CqSize()] == r.cqBuf[j % r.CqSize()] {
      ModDistinct(j, |r.log| - j, r.CqSize());
    }
  }

  // The 32-bit ring refines the unbounded one

  /** What the ring on 32-bit pointers holds when the ring on integers is r. */
  function Project(r: Ring): Ring {
    r.(head := r.head % WRAP, tail := r.tail % WRAP, clean := r.clean % WRAP,
       cqHead := r.cqHead % WRAP, cqTail := r.cqTail % WRAP)
  }

  /** Pointers less than 2^32 apart: wrapped differences and equality tests are the true ones. */
  lemma WrapDiff(x: int, y: int)
    requires y <= x < y + WRAP
    ensures (x % WRAP - y % WRAP) % WRAP == x - y
    ensures x % WRAP == y % WRAP <==> x == y
  {
  }

  lemma WrapAdd(x: int, d: int)
    ensures (x % WRAP + d) % WRAP == (x + d) % WRAP
  {
    AddMultiple(x % WRAP + d, WRAP, x / WRAP);
  }

  lemma WrapRegister(x: int, reg: int)
    ensures x % WRAP % REGS == x % REGS
    ensures (reg - x % WRAP) % REGS == (reg - x) % REGS
  {
    ModMod(x, REGS, 0x1_0000);
    AddMultiple(reg - x, REGS, x / WRAP * 0x1_0000);
  }

  /** Occupancy, and with it the empty and full tests, agree. */
  lemma UsedRefines(r: Ring, c: int)
    requires Inv(r, c)
    ensures Used(Bits32, Project(r)) == Used(Unbounded, r)
    ensures Project(r).head == Project(r).clean <==> r.head == r.clean
  {
    hide Pow2;
    SizeBound(r.logSize);
    WrapDiff(r.head, r.clean);
  }

  lemma FillRefines(r: Ring, buf: Buf)
    requires Shaped(r) && r.logSize <= 16
    ensures Fill(Bits32, Project(r), buf) == Project(Fill(Unbounded, r, buf))
  {
    hide Pow2;
    SizeDivides(r.logSize, r.head);
    WrapAdd(r.head, 1);
  }

  lemma ReadTailRefines(r: Ring)
    ensures ReadTail(Bits32, Project(r)) == Project(ReadTail(Unbounded, r))
  {
    WrapRegister(r.tail, r.hwTail % REGS);
    WrapAdd(r.tail, (r.hwTail % REGS - r.tail) % REGS);
  }

  lemma ReadCqHeadRefines(r: Ring)
    ensures ReadCqHead(Bits32, Project(r)) == Project(ReadCqHead(Unbounded, r))
  {
    WrapRegister(r.cqHead, |r.log| % REGS);
    WrapAdd(r.cqHead, (|r.log| % REGS - r.cqHead) % REGS);
  }

  lemma DoorbellsRefine(r: Ring)
    ensures WriteHead(Project(r)) == Project(WriteHead(r))
    ensures WriteCqTail(Project(r)) == Project(WriteCqTail(r))
  {
    WrapRegister(r.head, 0);
    WrapRegister(r.cqTail, 0);
  }

  lemma PopCplRefines(r: Ring, c: int)
    requires Inv(r, c)
    ensures Project(r).cqHead != Project(r).cqTail <==> r.cqHead != r.cqTail
    ensures CplSlot(Project(r)) == CplSlot(r)
    ensures PopCpl(Bits32, Project(r)) == Project(PopCpl(Unbounded, r))
  {
    hide Pow2, Slots, Taken;
    SizeBound(r.logCqSize);
    SizeDivides(r.logCqSize, r.cqTail);
    WrapDiff(r.cqHead, r.cqTail);
    WrapAdd(r.cqTail, 1);
  }

  lemma CleanRefines(r: Ring, c: int)
    requires Inv(r, c)
    ensures CanClean(Project(r), c % WRAP) <==> CanClean(r, c)
    ensures Wrap(Bits32, c % WRAP + 1) == (c + 1) % WRAP
  {
    hide Pow2;
    SizeBound(r.logSize);
    SizeDivides(r.logSize, c);
    WrapDiff(r.tail, c);
    WrapAdd(c, 1);
  }

  // Conservation of buffers

  function Bag(o: Option<Buf>): multiset<Buf> {
    match o case Some(b) => multiset{b} case None => multiset{}
  }

  /** The buffers in the slots. */
  function Held(slots: seq<Option<Buf>>): multiset<Buf> {
    if slots == [] then multiset{} else Bag(slots[0]) + Held(slots[1..])
  }

  lemma {:induction false} HeldTake(slots: seq<Option<Buf>>, i: nat)
    requires i < |slots|
    ensures Held(slots) == Held(slots[i := None]) + Bag(slots[i])
  {
    if i > 0 {
      assert slots[i := None][1..] == slots[1..][i - 1 := None];
      HeldTake(slots[1..], i - 1);
      var rest := Held(slots[1..][i - 1 := None]);
      assert Bag(slots[0]) + (rest + Bag(slots[i])) == (Bag(slots[0]) + rest) + Bag(slots[i]);
    } else {
      assert slots[i := None][1..] == slots[1..];
    }
  }

  lemma HeldPut(slots: seq<Option<Buf>>, i: nat, b: Buf)
    requires i < |slots| && slots[i].None?
    ensures Held(slots[i := Some(b)]) == Held(slots) + multiset{b}
  {
    assert slots[i := Some(b)][i := None] == slots;
    HeldTake(slots[i := Some(b)], i);
  }

  lemma {:induction false} HeldNone(slots: seq<Option<Buf>>)
    requires forall i :: 0 <= i < |slots| ==> slots[i].None?
    ensures Held(slots) == multiset{}
  {
    if slots != [] { HeldNone(slots[1..]); }
  }
}
