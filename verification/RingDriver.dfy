/** The driver's code on a ring: the struct the transmit and receive paths share, its pointer fields and
    slot array updated in place, with the completion, clean-up, refill and drain loops. */
module RingDriver {
  import opened Bits
  import opened Common
  import opened Ring
  import T = TxQueue
  import R = RxQueue

  // What the loops compute

  /** Taking completions until there are none or the budget is used up. */
  function TakeCpls(w: Width, r: Ring, budget: nat): (r': Ring)
    requires Shaped(r)
    ensures Shaped(r')
    decreases budget
  {
    if r.cqHead != r.cqTail && budget > 0 then TakeCpls(w, PopCpl(w, r), budget - 1) else r
  }

  /** Taking received pages while the stack has skbs for them, until a slot is found empty. */
  function TakePages(w: Width, r: Ring, budget: nat, skbs: nat): (r': Ring)
    requires Shaped(r)
    ensures Shaped(r')
    decreases budget
  {
    if r.cqHead != r.cqTail && budget > 0 && skbs > 0 && r.slots[CplSlot(r)].Some?
    then TakePages(w, PopCpl(w, r), budget - 1, skbs - 1) else r
  }

  /** Distance the clean-up can still go. */
  function Distance(w: Width, r: Ring, c: int): nat {
    var d := Wrap(w, r.tail - c);
    if d < 0 then 0 else d
  }

  /** Where the clean-up that starts at c stops. */
  function CleanEnd(w: Width, r: Ring, c: int): int
    requires Shaped(r)
    decreases Distance(w, r, c)
  {
    if CanClean(r, c) && Distance(w, r, Wrap(w, c + 1)) < Distance(w, r, c)
    then CleanEnd(w, r, Wrap(w, c + 1)) else c
  }

  /** A whole poll: completions, completion tail, descriptor tail, clean-up. */
  function PollEffect(w: Width, r: Ring, budget: nat): (r': Ring)
    requires Shaped(r)
    ensures Shaped(r')
  {
    var r1 := ReadTail(w, WriteCqTail(TakeCpls(w, ReadCqHead(w, r), budget)));
    r1.(clean := CleanEnd(w, r1, r1.clean))
  }

  /** Filling with the pages at hand until one is missing, a slot is busy, or none is wanted. */
  function FillAll(w: Width, r: Ring, pages: seq<Option<Buf>>, wanted: nat): (r': Ring)
    requires Shaped(r)
    ensures Shaped(r')
    decreases wanted
  {
    if wanted > 0 && pages != [] && pages[0].Some? && r.slots[r.head % r.Size()].None?
    then FillAll(w, Fill(w, r, pages[0].value), pages[1..], wanted - 1) else r
  }

  /** The pages that FillAll puts into the ring. */
  function Placed(w: Width, r: Ring, pages: seq<Option<Buf>>, wanted: nat): multiset<Buf>
    requires Shaped(r)
    decreases wanted
  {
    if wanted > 0 && pages != [] && pages[0].Some? && r.slots[r.head % r.Size()].None?
    then multiset{pages[0].value} + Placed(w, Fill(w, r, pages[0].value), pages[1..], wanted - 1)
    else multiset{}
  }

  function Refilled(w: Width, r: Ring, pages: seq<Option<Buf>>): (r': Ring)
    requires Shaped(r)
    ensures Shaped(r')
  {
    var missing := R.Missing(w, r);
    if missing < 8 then r else WriteHead(FillAll(w, r, pages, missing))
  }

  /** The pages that a refill puts into the ring. */
  function Posted(w: Width, r: Ring, pages: seq<Option<Buf>>): multiset<Buf>
    requires Shaped(r)
  {
    var missing := R.Missing(w, r);
    if missing < 8 then multiset{} else Placed(w, r, pages, missing)
  }

  /** A receive poll before its refill. */
  function RxCleaned(w: Width, r: Ring, budget: nat, skbs: nat): (r': Ring)
    requires Shaped(r)
    ensures Shaped(r')
  {
    var r1 := ReadTail(w, WriteCqTail(TakePages(w, ReadCqHead(w, r), budget, skbs)));
    r1.(clean := CleanEnd(w, r1, r1.clean))
  }

  /** A whole receive poll. */
  function RxPollEffect(w: Width, r: Ring, budget: nat, skbs: nat, pages: seq<Option<Buf>>): (r': Ring)
    requires Shaped(r)
    ensures Shaped(r')
  {
    Refilled(w, RxCleaned(w, r, budget, skbs), pages)
  }

  class MqnicRing {
    const logSize: nat
    const logCqSize: nat
    const info: array<Option<Buf>>
    var headPtr: U32
    var tailPtr: U32
    var cleanTailPtr: U32
    var cqHeadPtr: U32
    var cqTailPtr: U32
    var stopped: bool
    // device registers and memory
    var headReg: nat
    var cqTailReg: nat
    var hwTail: nat
    var log: seq<nat>
    var cqBuf: seq<nat>
    /** The buffers freed or handed up so far. */
    ghost var freed: multiset<Buf>

    ghost predicate Valid()
      reads this, info
    {
      info.Length == Pow2(logSize) && |cqBuf| == Pow2(logCqSize)
    }

    ghost function View(): (r: Ring)
      reads this, info
    {
      Ring(logSize, logCqSize, headPtr, tailPtr, cleanTailPtr, info[..], cqHeadPtr, cqTailPtr,
           headReg, cqTailReg, hwTail, log, cqBuf)
    }

    constructor (logSize: nat, logCqSize: nat)
      ensures Valid() && fresh(info) && !stopped && freed == multiset{}
      ensures View() == Ring(logSize, logCqSize, 0, 0, 0, seq(Pow2(logSize), _ => None), 0, 0, 0, 0, 0, [],
                             seq(Pow2(logCqSize), _ => 0))
    {
      this.logSize, this.logCqSize := logSize, logCqSize;
      info := new Option<Buf>[Pow2(logSize)](_ => None);
      headPtr, tailPtr, cleanTailPtr, cqHeadPtr, cqTailPtr := 0, 0, 0, 0, 0;
      stopped := false;
      headReg, cqTailReg, hwTail, log := 0, 0, 0, [];
      cqBuf := seq(Pow2(logCqSize), _ => 0);
      freed := multiset{};
    }

    predicate IsFull()
      reads this
    {
      (headPtr - cleanTailPtr) % WRAP >= Pow2(logSize) / 2
    }

    /** On a ring that stands for an unbounded one, the read gives the true number of completions. */
    method CqReadHeadPtr()
      modifies this`cqHeadPtr
      ensures View() == ReadCqHead(Bits32, old(View()))
      ensures forall s: Ring, c: int :: Inv(s, c) && old(View()) == Project(s) ==> cqHeadPtr == |s.log| % WRAP
    {
      forall s: Ring, c: int | Inv(s, c) && View() == Project(s)
        ensures ReadCqHead(Bits32, View()).cqHead == |s.log| % WRAP
      {
        ReadCqHeadKeeps(s, c);
        ReadCqHeadRefines(s);
      }
      cqHeadPtr := (cqHeadPtr + (|log| % REGS - cqHeadPtr) % REGS) % WRAP;
    }

    method CqWriteTailPtr()
      modifies this`cqTailReg
      ensures View() == WriteCqTail(old(View())) && cqTailReg == cqTailPtr % REGS
    {
      cqTailReg := cqTailPtr % REGS;
    }

    /** On a ring that stands for an unbounded one, the read gives the true number of fetched
        descriptors. */
    method ReadTailPtr()
      modifies this`tailPtr
      ensures View() == ReadTail(Bits32, old(View()))
      ensures forall s: Ring, c: int :: Inv(s, c) && old(View()) == Project(s) ==> tailPtr == s.hwTail % WRAP
    {
      forall s: Ring, c: int | Inv(s, c) && View() == Project(s)
        ensures ReadTail(Bits32, View()).tail == s.hwTail % WRAP
      {
        ReadTailKeeps(s, c);
        ReadTailRefines(s);
      }
      tailPtr := (tailPtr + (hwTail % REGS - tailPtr) % REGS) % WRAP;
    }

    method WriteHeadPtr()
      modifies this`headReg
      ensures View() == WriteHead(old(View())) && headReg == headPtr % REGS
    {
      headReg := headPtr % REGS;
    }

    /** Take completions, freeing the slot each one names. */
    method ProcessCpls(budget: nat) returns (done: nat)
      requires Valid()
      modifies this`cqTailPtr, this`freed, info
      ensures Valid() && done == Least(budget, (cqHeadPtr - old(cqTailPtr)) % WRAP)
      ensures cqTailPtr == (old(cqTailPtr) + done) % WRAP
      ensures View() == TakeCpls(Bits32, old(View()), budget)
      ensures freed + Held(View().slots) == old(freed + Held(View().slots))
    {
      hide Pow2, TakeCpls, Held, PopCpl;
      done := 0;
      var cqTail: U32 := cqTailPtr;
      while cqHeadPtr != cqTail && done < budget
        invariant Valid() && done <= budget
        invariant done <= (cqHeadPtr - old(cqTailPtr)) % WRAP && cqTail == (old(cqTailPtr) + done) % WRAP
        invariant TakeCpls(Bits32, old(View()), budget) == TakeCpls(Bits32, View().(cqTail := cqTail), budget - done)
        invariant freed + Held(View().slots) == old(freed + Held(View().slots))
        decreases budget - done
      {
        TakeNext(View().(cqTail := cqTail), budget - done);
        CplsLeft(cqHeadPtr, old(cqTailPtr), done);
        cqTail := Pop(cqTail);
        done := done + 1;
      }
      TakeNext(View().(cqTail := cqTail), budget - done);
      CplsLeft(cqHeadPtr, old(cqTailPtr), done);
      cqTailPtr := cqTail;
    }

    /** Take the completion at cqTail. */
    method Pop(cqTail: U32) returns (next: U32)
      requires Valid()
      modifies this`freed, info
      ensures Valid() && next == (cqTail + 1) % WRAP
      ensures View().(cqTail := next) == PopCpl(Bits32, old(View()).(cqTail := cqTail))
      ensures old(info[cqBuf[cqTail % |cqBuf|] % info.Length]).Some? ==> |freed| == |old(freed)| + 1
      ensures freed + Held(View().slots) == old(freed + Held(View().slots))
    {
      hide Pow2, Held;
      FreeDesc(cqBuf[cqTail % Pow2(logCqSize)] % Pow2(logSize));
      next := (cqTail + 1) % WRAP;
    }

    method FreeDesc(index: nat)
      requires Valid() && index < info.Length
      modifies this`freed, info
      ensures Valid()
      ensures info[..] == old(info[..])[index := None] && freed == old(freed) + Bag(old(info[index]))
      ensures freed + Held(info[..]) == old(freed + Held(info[..]))
    {
      HeldTake(info[..], index);
      freed := freed + Bag(info[index]);
      info[index] := None;
      assert info[..] == old(info[..])[index := None];
    }

    /** Advance the clean tail past the slots already freed. */
    method CleanTail()
      requires Valid()
      modifies this`cleanTailPtr
      ensures Valid() && View() == old(View()).(clean := CleanEnd(Bits32, old(View()), old(cleanTailPtr)))
      ensures cleanTailPtr == tailPtr || info[cleanTailPtr % info.Length].Some?
    {
      hide Pow2, CleanEnd, Distance;
      var c: U32 := cleanTailPtr;
      while c != tailPtr
        invariant CleanEnd(Bits32, old(View()), old(cleanTailPtr)) == CleanEnd(Bits32, View(), c)
        invariant View() == old(View())
        decreases Distance(Bits32, View(), c)
      {
        Closer(View(), c);
        CleanNext(View(), c);
        if info[c % Pow2(logSize)].Some? { break; }
        c := (c + 1) % WRAP;
      }
      CleanNext(View(), c);
      cleanTailPtr := c;
    }

    /** The completion poll of the transmit path, run without interruption. */
    method ProcessTxCq(budget: nat) returns (done: nat)
      requires Valid()
      modifies this, info
      ensures Valid() && done == Least(budget, (cqHeadPtr - old(cqTailPtr)) % WRAP)
      ensures cqTailPtr == (old(cqTailPtr) + done) % WRAP && cqTailReg == cqTailPtr % REGS
      ensures View() == PollEffect(Bits32, old(View()), budget)
      ensures freed + Held(View().slots) == old(freed + Held(View().slots))
      ensures stopped == (old(stopped) && IsFull())
      ensures logSize >= 1 ==> stopped == (old(stopped) && 2 * ((headPtr - cleanTailPtr) % WRAP) >= info.Length)
    {
      hide Pow2, TakeCpls, CleanEnd, Held, ReadCqHead, WriteCqTail, ReadTail;
      FullIsHalf();
      CqReadHeadPtr();
      done := ProcessCpls(budget);
      CqWriteTailPtr();
      ReadTailPtr();
      CleanTail();
      if stopped && !IsFull() {
        stopped := false;
      }
      FullIsHalf();
    }

    /** Take the completion at cqTail if its slot has a page and there is an skb for it. */
    method PopPage(cqTail: U32, skb: bool) returns (took: bool, next: U32)
      requires Valid()
      modifies this`freed, info
      ensures Valid()
      ensures var r := old(View()).(cqTail := cqTail);
              && (took <==> skb && r.slots[CplSlot(r)].Some?)
              && (if took then View().(cqTail := next) == PopCpl(Bits32, r) && next == (cqTail + 1) % WRAP
                            && |freed| == |old(freed)| + 1
                  else View() == old(View()) && next == cqTail && freed == old(freed))
      ensures freed + Held(View().slots) == old(freed + Held(View().slots))
    {
      hide Pow2, Held, PopCpl;
      took, next := false, cqTail;
      if info[cqBuf[cqTail % Pow2(logCqSize)] % Pow2(logSize)].None? || !skb {
        return;
      }
      next := Pop(cqTail);
      took := true;
    }

    /** Hand up received pages, given how many skbs the stack has for them. */
    method ProcessRxCpls(budget: nat, skbs: nat) returns (done: nat)
      requires Valid()
      modifies this`cqTailPtr, this`freed, info
      ensures Valid() && done <= budget && done <= skbs && cqTailPtr == (old(cqTailPtr) + done) % WRAP
      ensures View() == TakePages(Bits32, old(View()), budget, skbs)
      ensures |freed| == |old(freed)| + done
      ensures freed + Held(View().slots) == old(freed + Held(View().slots))
    {
      hide Pow2, TakePages, Held, PopCpl, CplSlot;
      done := 0;
      var cqTail: U32 := cqTailPtr;
      while cqHeadPtr != cqTail && done < budget
        invariant Valid() && done <= budget && done <= skbs && cqTail == (old(cqTailPtr) + done) % WRAP
        invariant TakePages(Bits32, old(View()), budget, skbs)
               == TakePages(Bits32, View().(cqTail := cqTail), budget - done, skbs - done)
        invariant |freed| == |old(freed)| + done
        invariant freed + Held(View().slots) == old(freed + Held(View().slots))
        decreases budget - done
      {
        TakeNextPage(View().(cqTail := cqTail), budget - done, skbs - done);
        WrapAdd(old(cqTailPtr) + done, 1);
        var took;
        took, cqTail := PopPage(cqTail, done < skbs);
        if !took { break; }
        done := done + 1;
      }
      TakeNextPage(View().(cqTail := cqTail), budget - done, skbs - done);
      cqTailPtr := cqTail;
    }

    /** The receive poll, run without interruption. */
    method ProcessRxCq(budget: nat, skbs: nat, pages: seq<Option<Buf>>) returns (done: nat)
      requires Valid()
      modifies this, info
      ensures Valid() && done <= budget && done <= skbs
      ensures cqTailPtr == (old(cqTailPtr) + done) % WRAP && cqTailReg == cqTailPtr % REGS
      ensures View() == RxPollEffect(Bits32, old(View()), budget, skbs, pages)
      ensures |freed| == |old(freed)| + done
      ensures freed + Held(View().slots)
           == old(freed + Held(View().slots)) + Posted(Bits32, RxCleaned(Bits32, old(View()), budget, skbs), pages)
    {
      hide Pow2, TakePages, CleanEnd, Held, ReadCqHead, WriteCqTail, ReadTail, Refilled, Posted;
      CqReadHeadPtr();
      done := ProcessRxCpls(budget, skbs);
      CqWriteTailPtr();
      ReadTailPtr();
      CleanTail();
      Refill(pages);
    }

    /** The transmit path.  The poll may publish a clean tail before the queue is tested again. */
    method StartXmit(buf: Buf, mapped: bool, more: bool, published: U32)
      requires Valid()
      modifies this`headPtr, this`cleanTailPtr, this`headReg, this`stopped, this`freed, info
      ensures Valid()
      ensures !mapped ==> View() == old(View()) && stopped == old(stopped) && freed == old(freed) + multiset{buf}
      ensures mapped ==>
                var filled := Fill(Bits32, old(View()), buf);
                var full := T.Full(Bits32, filled);
                && View() == (if !more || full then WriteHead(filled) else filled).(clean := published)
                && stopped == (if full then T.Full(Bits32, View()) else old(stopped))
                && (!more || full ==> headReg == headPtr % REGS)
                && freed == old(freed)
                && (old(View().slots)[old(headPtr) % |old(View().slots)|].None? ==>
                      Held(View().slots) == old(Held(View().slots)) + multiset{buf})
      ensures mapped && logSize >= 1 ==>
                stopped == if 2 * ((headPtr - old(cleanTailPtr)) % WRAP) >= info.Length
                           then 2 * ((headPtr - cleanTailPtr) % WRAP) >= info.Length else old(stopped)
    {
      hide Pow2, Fill, IsFull, T.Full, Held;
      if !mapped {
        freed := freed + multiset{buf};
        return;
      }
      Enqueue(buf);
      var stopQueue := IsFull();
      FullIs();
      FullIsHalf();
      if stopQueue {
        stopped := true;
      }
      if !more || stopQueue {
        WriteHeadPtr();
      }
      cleanTailPtr := published;
      FullIs();
      FullIsHalf();
      if stopQueue && !IsFull() {
        stopped := false;
      }
    }

    /** Put a mapped skb into the slot at the head. */
    method Enqueue(buf: Buf)
      requires Valid()
      modifies this`headPtr, info
      ensures Valid() && View() == Fill(Bits32, old(View()), buf)
      ensures old(View().slots)[old(headPtr) % |old(View().slots)|].None? ==>
                Held(View().slots) == old(Held(View().slots)) + multiset{buf}
    {
      hide Pow2, Held;
      var index := headPtr % Pow2(logSize);
      if info[index].None? { HeldPut(info[..], index, buf); }
      info[index] := Some(buf);
      assert info[..] == old(info[..])[index := Some(buf)];
      headPtr := (headPtr + 1) % WRAP;
    }

    /** Full means half the ring in use. */
    lemma FullIsHalf()
      requires Valid()
      ensures logSize >= 1 ==> (IsFull() <==> 2 * ((headPtr - cleanTailPtr) % WRAP) >= info.Length)
    {
    }

    lemma FullIs()
      ensures IsFull() <==> T.Full(Bits32, View())
    {
    }

    /** Drain the ring when the port goes down: every buffer still held is freed, once.  The ring s is
        the unbounded one this ring stands for. */
    method FreeBuf(ghost s: Ring) returns (cnt: nat)
      requires Valid() && Inv(s, s.clean) && View() == Project(s)
      modifies this`headPtr, this`tailPtr, this`cleanTailPtr, this`freed, info
      ensures Valid() && cnt == s.head - s.clean
      ensures headPtr == tailPtr == cleanTailPtr == 0
      ensures forall i :: 0 <= i < info.Length ==> info[i].None?
      ensures freed == old(freed + Held(info[..]))
    {
      hide Pow2, Held, Inv, Emptied;
      DrainStart(s);
      cnt := FreeWindow(s.clean, s.head);
      DrainEnd(info[..], s, cnt);
      HeldNone(info[..]);
      headPtr, tailPtr, cleanTailPtr := 0, 0, 0;
    }

    /** Free the slots of the positions from clean up to head. */
    method FreeWindow(ghost clean: int, ghost head: int) returns (cnt: nat)
      requires Valid() && logSize <= 16 && clean <= head < clean + WRAP
      requires cleanTailPtr == clean % WRAP && headPtr == head % WRAP
      requires Emptied(info[..], clean, 0, head, clean + Pow2(logSize))
      modifies this`cleanTailPtr, this`freed, info
      ensures Valid() && cnt == head - clean
      ensures Emptied(info[..], clean, cnt, head, clean + Pow2(logSize))
      ensures freed + Held(info[..]) == old(freed + Held(info[..]))
    {
      hide Pow2, Held, Emptied;
      cnt := 0;
      while headPtr != cleanTailPtr
        invariant Valid() && cnt <= head - clean && cleanTailPtr == (clean + cnt) % WRAP
        invariant freed + Held(info[..]) == old(freed + Held(info[..]))
        invariant Emptied(info[..], clean, cnt, head, clean + Pow2(logSize))
        decreases head - clean - cnt
      {
        DrainStep(info[..], clean, cnt, head, clean + Pow2(logSize), logSize);
        FreeNext();
        cnt := cnt + 1;
      }
      WrapDiff(head, clean + cnt);
    }

    method FreeNext()
      requires Valid()
      modifies this`cleanTailPtr, this`freed, info
      ensures Valid() && cleanTailPtr == (old(cleanTailPtr) + 1) % WRAP
      ensures info[..] == old(info[..])[old(cleanTailPtr) % |old(info[..])| := None]
      ensures freed + Held(info[..]) == old(freed + Held(info[..]))
    {
      hide Pow2, Held;
      FreeDesc(cleanTailPtr % Pow2(logSize));
      cleanTailPtr := (cleanTailPtr + 1) % WRAP;
    }

    /** Refill the receive ring, given the outcome of each allocation to come.  With fewer than eight
        descriptors missing nothing happens; with pages for all that are missing, a ring that stands for
        an unbounded one is left full and announced. */
    method Refill(pages: seq<Option<Buf>>)
      requires Valid()
      modifies this`headPtr, this`headReg, info
      ensures Valid() && View() == Refilled(Bits32, old(View()), pages)
      ensures Held(View().slots) == old(Held(View().slots)) + Posted(Bits32, old(View()), pages)
      ensures info.Length - 8 < (old(headPtr) - cleanTailPtr) % WRAP <= info.Length ==> View() == old(View())
      ensures forall s: Ring, c: int :: Inv(s, c) && old(View()) == Project(s) && Plenty(s, pages) ==>
                (headPtr - cleanTailPtr) % WRAP == info.Length && headReg == headPtr % REGS
    {
      hide Pow2, Inv, Project, Plenty, Refilled, Posted, Held;
      FewMissing(View(), pages);
      forall s: Ring, c: int | Inv(s, c) && View() == Project(s) && Plenty(s, pages)
        ensures var r := Refilled(Bits32, View(), pages);
                Used(Bits32, r) == r.Size() && r.headReg == r.head % REGS
      {
        RefillFills(s, c, pages);
      }
      RefillMissing(pages);
    }

    method RefillMissing(pages: seq<Option<Buf>>)
      requires Valid()
      modifies this`headPtr, this`headReg, info
      ensures Valid() && View() == Refilled(Bits32, old(View()), pages)
      ensures Held(View().slots) == old(Held(View().slots)) + Posted(Bits32, old(View()), pages)
    {
      hide Pow2, FillAll, Placed, Held;
      var missing := (Pow2(logSize) - (headPtr - cleanTailPtr) % WRAP) % WRAP;
      assert missing == R.Missing(Bits32, View());
      if missing < 8 {
        return;
      }
      FillMissing(pages, missing);
      WriteHeadPtr();
    }

    method FillMissing(pages: seq<Option<Buf>>, wanted: nat)
      requires Valid()
      modifies this`headPtr, info
      ensures Valid() && View() == FillAll(Bits32, old(View()), pages, wanted)
      ensures Held(View().slots) == old(Held(View().slots)) + Placed(Bits32, old(View()), pages, wanted)
    {
      hide Pow2, FillAll, Placed, Held, Fill;
      var i := 0;
      while i < wanted && i < |pages|
        invariant 0 <= i <= |pages| && i <= wanted
        invariant Valid()
        invariant FillAll(Bits32, old(View()), pages, wanted) == FillAll(Bits32, View(), pages[i..], wanted - i)
        invariant Held(View().slots) + Placed(Bits32, View(), pages[i..], wanted - i)
               == old(Held(View().slots)) + Placed(Bits32, old(View()), pages, wanted)
      {
        FillNext(View(), pages[i..], wanted - i);
        if info[headPtr % Pow2(logSize)].Some? || pages[i].None? { break; }
        assert pages[i..][1..] == pages[i + 1..];
        Enqueue(pages[i].value);
        i := i + 1;
      }
      FillNext(View(), pages[i..], wanted - i);
    }
  }

  function Least(x: int, y: int): int { if x < y then x else y }

  /** Completions left after some were taken. */
  lemma CplsLeft(head: U32, tail: U32, taken: nat)
    requires taken <= (head - tail) % WRAP
    ensures (tail + taken) % WRAP == head <==> taken == (head - tail) % WRAP
    ensures ((tail + taken) % WRAP + 1) % WRAP == (tail + taken + 1) % WRAP
  {
  }

  /** At least eight descriptors are missing, and there is a page for each. */
  ghost predicate Plenty(s: Ring, pages: seq<Option<Buf>>) {
    var missing := s.Size() - (s.head - s.clean);
    s.logSize <= 15 && 8 <= missing <= |pages| && forall i :: 0 <= i < missing ==> pages[i].Some?
  }

  lemma {:induction false} FillsUp(s: Ring, c: int, pages: seq<Option<Buf>>, wanted: nat) returns (t: Ring)
    requires Inv(s, c) && s.logSize <= 15 && s.head + wanted <= s.clean + s.Size()
    requires wanted <= |pages| && forall i :: 0 <= i < wanted ==> pages[i].Some?
    ensures Inv(t, c) && t.head == s.head + wanted && t.clean == s.clean && t.logSize == s.logSize
    ensures FillAll(Bits32, Project(s), pages, wanted) == Project(t)
    decreases wanted
  {
    hide Pow2, Inv, Fill, FillAll;
    InvShape(s, c);
    FillNext(Project(s), pages, wanted);
    if wanted == 0 {
      t := s;
    } else {
      var b := pages[0].value;
      SizeBound(s.logSize);
      FillKeeps(s, c, b);
      FillRefines(s, b);
      SizeDivides(s.logSize, s.head);
      FillMoves(s, b);
      t := FillsUp(Fill(Unbounded, s, b), c, pages[1..], wanted - 1);
    }
  }

  lemma FillMoves(s: Ring, b: Buf)
    requires Shaped(s)
    ensures var t := Fill(Unbounded, s, b);
            t.head == s.head + 1 && t.clean == s.clean && t.logSize == s.logSize
  {
  }

  lemma FewMissing(r: Ring, pages: seq<Option<Buf>>)
    requires Shaped(r)
    ensures r.Size() - 8 < Used(Bits32, r) <= r.Size() ==> Refilled(Bits32, r, pages) == r
  {
    hide Pow2, FillAll;
  }

  /** A refill that has the pages leaves a ring that is full and announced. */
  lemma RefillFills(s: Ring, c: int, pages: seq<Option<Buf>>)
    requires Inv(s, c) && Plenty(s, pages)
    ensures var r := Refilled(Bits32, Project(s), pages);
            Used(Bits32, r) == r.Size() && r.headReg == r.head % REGS
  {
    hide Pow2, Inv, FillAll;
    InvShape(s, c);
    R.MissingRefines(s, c);
    var t := FillsUp(s, c, pages, s.Size() - (s.head - s.clean));
    UsedRefines(t, c);
  }

  lemma Closer(r: Ring, c: U32)
    requires 0 <= r.tail < WRAP && c != r.tail
    ensures Distance(Bits32, r, Wrap(Bits32, c + 1)) < Distance(Bits32, r, c)
  {
  }

  lemma TakeNext(r: Ring, budget: nat)
    requires Shaped(r)
    ensures TakeCpls(Bits32, r, budget)
         == if r.cqHead != r.cqTail && budget > 0 then TakeCpls(Bits32, PopCpl(Bits32, r), budget - 1) else r
  {
  }

  lemma TakeNextPage(r: Ring, budget: nat, skbs: nat)
    requires Shaped(r)
    ensures TakePages(Bits32, r, budget, skbs)
         == if r.cqHead != r.cqTail && budget > 0 && skbs > 0 && r.slots[CplSlot(r)].Some?
            then TakePages(Bits32, PopCpl(Bits32, r), budget - 1, skbs - 1) else r
  {
  }

  lemma CleanNext(r: Ring, c: U32)
    requires Shaped(r) && 0 <= r.tail < WRAP
    ensures CleanEnd(Bits32, r, c)
         == if CanClean(r, c) then CleanEnd(Bits32, r, Wrap(Bits32, c + 1)) else c
  {
    if c != r.tail { Closer(r, c); }
  }

  /** The slots of n positions from clean on, and of the positions from head up to end, are empty. */
  ghost predicate Emptied(slots: seq<Option<Buf>>, clean: int, n: nat, head: int, end: int) {
    && slots != []
    && (forall p :: clean <= p < clean + n ==> slots[p % |slots|].None?)
    && (forall p :: head <= p < end ==> slots[p % |slots|].None?)
  }

  lemma DrainStart(s: Ring)
    requires Inv(s, s.clean)
    ensures s.logSize <= 16 && 0 <= s.clean <= s.head <= s.clean + s.Size() < s.clean + WRAP
    ensures Emptied(s.slots, s.clean, 0, s.head, s.clean + s.Size())
  {
    hide Pow2;
    SizeBound(s.logSize);
  }

  lemma DrainStep(slots: seq<Option<Buf>>, clean: int, n: nat, head: int, end: int, logSize: nat)
    requires Emptied(slots, clean, n, head, end) && |slots| == Pow2(logSize) && logSize <= 16
    ensures (clean + n) % WRAP % |slots| == (clean + n) % |slots|
    ensures ((clean + n) % WRAP + 1) % WRAP == (clean + n + 1) % WRAP
    ensures Emptied(slots[(clean + n) % WRAP % |slots| := None], clean, n + 1, head, end)
  {
    hide Pow2;
    SizeDivides(logSize, clean + n);
    WrapAdd(clean + n, 1);
  }

  lemma DrainEnd(slots: seq<Option<Buf>>, s: Ring, n: nat)
    requires |slots| == s.Size() && n == s.head - s.clean
    requires Emptied(slots, s.clean, n, s.head, s.clean + s.Size())
    ensures forall i :: 0 <= i < |slots| ==> slots[i].None?
  {
    hide Pow2;
    forall i | 0 <= i < |slots| ensures slots[i].None? {
      var p := SlotPosition(s, i);
    }
  }

  /** Every slot is the slot of one position of the window that starts at clean. */
  lemma SlotPosition(r: Ring, i: nat) returns (p: int)
    requires i < r.Size()
    ensures r.clean <= p < r.clean + r.Size() && p % r.Size() == i
  {
    var m := r.Size();
    var d := (i - r.clean) % m;
    p := r.clean + d;
    var q := (i - r.clean) / m;
    assert i - r.clean == q * m + d;
    assert p == i + (-q) * m;
    AddMultiple(i, m, -q);
    DivUnique(i, m, 0, i);
  }

  lemma FillNext(r: Ring, pages: seq<Option<Buf>>, wanted: nat)
    requires Shaped(r)
    ensures FillAll(Bits32, r, pages, wanted)
         == if wanted > 0 && pages != [] && pages[0].Some? && r.slots[r.head % r.Size()].None?
            then FillAll(Bits32, Fill(Bits32, r, pages[0].value), pages[1..], wanted - 1) else r
    ensures Placed(Bits32, r, pages, wanted)
         == if wanted > 0 && pages != [] && pages[0].Some? && r.slots[r.head % r.Size()].None?
            then multiset{pages[0].value} + Placed(Bits32, Fill(Bits32, r, pages[0].value), pages[1..], wanted - 1)
            else multiset{}
  {
  }
}
