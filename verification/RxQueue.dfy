/** The receive queue: one poll at a time takes completions, cleans up and refills the ring with pages,
    while the NIC fetches descriptors and completes them in any order.  Memory allocation may fail. */
module RxQueue {
  import opened Bits
  import opened Common
  import opened Ring

  datatype Poll =
    | Idle
    | Cq(left: nat)
    | Tail
    | Clean(c: int)
    | RefillTest
    | Refill(missing: nat)
    | Doorbell

  /** The queue, and the history of pages put into it and handed up the stack. */
  datatype Rx = Rx(ring: Ring, poll: Poll, filled: multiset<Buf>, delivered: multiset<Buf>)

  /** A poll step is told whether the stack has an skb for it and which page, if any, it gets. */
  datatype Action =
    | PollStart(budget: nat)
    | PollStep(skb: bool, page: Option<Buf>)
    | NicFetch
    | NicComplete(p: nat)

  predicate Enabled(s: Rx, a: Action) {
    match a
    case PollStart(_) => s.poll.Idle?
    case PollStep(_, _) => !s.poll.Idle?
    case NicFetch => CanFetch(s.ring)
    case NicComplete(p) => CanComplete(s.ring, p)
  }

  /** Free descriptors, in the width of the pointers: size - (head - clean). */
  function Missing(w: Width, r: Ring): int {
    Wrap(w, r.Size() - Used(w, r))
  }

  function StepPoll(w: Width, s: Rx, skb: bool, page: Option<Buf>): (t: Rx)
    requires Shaped(s.ring) && !s.poll.Idle?
    ensures Shaped(t.ring)
  {
    var r := s.ring;
    match s.poll
    case Cq(left) =>
      if r.cqHead != r.cqTail && left > 0 && r.slots[CplSlot(r)].Some? && skb then
        s.(ring := PopCpl(w, r), delivered := s.delivered + Bag(r.slots[CplSlot(r)]), poll := Cq(left - 1))
      else
        s.(ring := WriteCqTail(r), poll := Tail)
    case Tail => s.(ring := ReadTail(w, r), poll := Clean(r.clean))
    case Clean(c) =>
      if CanClean(r, c) then s.(poll := Clean(Wrap(w, c + 1)))
      else s.(ring := r.(clean := c), poll := RefillTest)
    case RefillTest => s.(poll := if Missing(w, r) < 8 then Idle else Refill(Missing(w, r)))
    case Refill(missing) =>
      if missing > 0 && r.slots[r.head % r.Size()].None? && page.Some? then
        s.(ring := Fill(w, r, page.value), filled := s.filled + multiset{page.value}, poll := Refill(missing - 1))
      else
        s.(poll := Doorbell)
    case Doorbell => s.(ring := WriteHead(r), poll := Idle)
  }

  function Step(w: Width, s: Rx, a: Action): (t: Rx)
    requires Shaped(s.ring) && Enabled(s, a)
    ensures Shaped(t.ring)
  {
    match a
    case PollStart(budget) => s.(ring := ReadCqHead(w, s.ring), poll := Cq(budget))
    case PollStep(skb, page) => StepPoll(w, s, skb, page)
    case NicFetch => s.(ring := Fetch(s.ring))
    case NicComplete(p) => s.(ring := Complete(s.ring, p))
  }

  function Local(s: Rx): int {
    if s.poll.Clean? then s.poll.c else s.ring.clean
  }

  ghost predicate RxInv(s: Rx) {
    && Inv(s.ring, Local(s)) && s.ring.logSize <= 15
    && (s.poll.RefillTest? ==> Shaped(s.ring) && !CanClean(s.ring, s.ring.clean))
    && (s.poll.Refill? ==> s.ring.head + s.poll.missing <= s.ring.clean + s.ring.Size())
    && (!s.poll.Cq? ==> s.ring.cqTailReg == s.ring.cqTail % REGS)
    && (!s.poll.Refill? && !s.poll.Doorbell? ==> s.ring.headReg == s.ring.head % REGS)
    && s.filled == s.delivered + Held(s.ring.slots)
  }

  lemma CqStepKeeps(s: Rx, skb: bool, page: Option<Buf>)
    requires RxInv(s) && s.poll.Cq?
    ensures RxInv(StepPoll(Unbounded, s, skb, page))
    ensures s.ring.cqHead != s.ring.cqTail ==> s.ring.slots[CplSlot(s.ring)].Some?
  {
    hide Pow2, Inv, Held;
    InvShape(s.ring, Local(s));
    WriteCqTailKeeps(s.ring, Local(s));
    if s.ring.cqHead != s.ring.cqTail {
      PopCplKeeps(s.ring, Local(s));
      HeldTake(s.ring.slots, CplSlot(s.ring));
      var rest, b := Held(PopCpl(Unbounded, s.ring).slots), Bag(s.ring.slots[CplSlot(s.ring)]);
      assert s.delivered + (rest + b) == s.delivered + b + rest;
    }
  }

  lemma RefillStepKeeps(s: Rx, skb: bool, page: Option<Buf>)
    requires RxInv(s) && s.poll.Refill?
    ensures RxInv(StepPoll(Unbounded, s, skb, page))
    ensures s.poll.missing > 0 ==> s.ring.slots[s.ring.head % s.ring.Size()].None?
  {
    hide Pow2, Inv, Held;
    InvShape(s.ring, Local(s));
    SizeBound(s.ring.logSize);
    if s.poll.missing > 0 {
      var b := if page.Some? then page.value else 0;
      FillKeeps(s.ring, Local(s), b);
      HeldPut(s.ring.slots, s.ring.head % s.ring.Size(), b);
      var held := Held(s.ring.slots);
      assert s.delivered + held + multiset{b} == s.delivered + (held + multiset{b});
    }
  }

  lemma PollStepKeeps(s: Rx, skb: bool, page: Option<Buf>)
    requires RxInv(s) && !s.poll.Idle?
    ensures RxInv(StepPoll(Unbounded, s, skb, page))
  {
    hide Pow2, Inv, Held;
    InvShape(s.ring, Local(s));
    match s.poll
    case Cq(left) => CqStepKeeps(s, skb, page);
    case Tail => ReadTailKeeps(s.ring, Local(s));
    case Clean(c) => if CanClean(s.ring, c) { CleanKeeps(s.ring, c); } else { PublishKeeps(s.ring, c); }
    case RefillTest =>
    case Refill(missing) => RefillStepKeeps(s, skb, page);
    case Doorbell => WriteHeadKeeps(s.ring, Local(s));
  }

  lemma StepKeeps(s: Rx, a: Action)
    requires RxInv(s) && Enabled(s, a)
    ensures RxInv(Step(Unbounded, s, a))
  {
    hide Pow2, Inv, Held, StepPoll;
    InvShape(s.ring, Local(s));
    match a
    case PollStart(budget) => ReadCqHeadKeeps(s.ring, Local(s));
    case PollStep(skb, page) => PollStepKeeps(s, skb, page);
    case NicFetch => FetchKeeps(s.ring, Local(s));
    case NicComplete(p) => CompleteKeeps(s.ring, Local(s), p);
  }

  // The C driver's queue refines the unbounded one

  function ProjectRx(s: Rx): Rx {
    s.(ring := Project(s.ring), poll := if s.poll.Clean? then Clean(s.poll.c % WRAP) else s.poll)
  }

  lemma MissingRefines(r: Ring, c: int)
    requires Inv(r, c)
    ensures Missing(Bits32, Project(r)) == Missing(Unbounded, r) == r.Size() - (r.head - r.clean)
  {
    hide Pow2;
    SizeBound(r.logSize);
    UsedRefines(r, c);
  }

  lemma PollStepRefines(s: Rx, skb: bool, page: Option<Buf>)
    requires RxInv(s) && !s.poll.Idle?
    ensures Shaped(ProjectRx(s).ring)
    ensures StepPoll(Bits32, ProjectRx(s), skb, page) == ProjectRx(StepPoll(Unbounded, s, skb, page))
  {
    hide Pow2, Inv, Held, Missing, PopCpl, Fill, WriteCqTail, WriteHead, ReadTail, CanClean, CplSlot;
    var r := s.ring;
    InvShape(r, Local(s));
    match s.poll
    case Cq(left) => PopCplRefines(r, Local(s)); DoorbellsRefine(r);
    case Tail => ReadTailRefines(r);
    case Clean(c) => CleanRefines(r, c);
    case RefillTest => MissingRefines(r, Local(s));
    case Refill(missing) =>
      SizeDivides(r.logSize, r.head);
      if page.Some? { FillRefines(r, page.value); }
    case Doorbell => DoorbellsRefine(r);
  }

  lemma StepRefines(s: Rx, a: Action)
    requires RxInv(s) && Enabled(s, a)
    ensures Shaped(ProjectRx(s).ring) && Enabled(ProjectRx(s), a)
    ensures Step(Bits32, ProjectRx(s), a) == ProjectRx(Step(Unbounded, s, a))
  {
    hide Pow2, Inv, Held, StepPoll, ReadCqHead;
    InvShape(s.ring, Local(s));
    match a
    case PollStart(budget) => ReadCqHeadRefines(s.ring);
    case PollStep(skb, page) => PollStepRefines(s, skb, page);
    case NicFetch =>
    case NicComplete(p) =>
  }

  // Runs

  predicate Legal(w: Width, s: Rx, actions: seq<Action>)
    requires Shaped(s.ring)
    decreases |actions|
  {
    actions == [] || (Enabled(s, actions[0]) && Legal(w, Step(w, s, actions[0]), actions[1..]))
  }

  function Run(w: Width, s: Rx, actions: seq<Action>): (t: Rx)
    requires Shaped(s.ring) && Legal(w, s, actions)
    ensures Shaped(t.ring)
    decreases |actions|
  {
    if actions == [] then s else Run(w, Step(w, s, actions[0]), actions[1..])
  }

  /** The queue when the port comes up: empty, about to be filled for the first time. */
  function Start(logSize: nat, logCqSize: nat): Rx {
    Rx(Ring(logSize, logCqSize, 0, 0, 0, seq(Pow2(logSize), _ => None), 0, 0, 0, 0, 0, [], seq(Pow2(logCqSize), _ => 0)),
       RefillTest, multiset{}, multiset{})
  }

  lemma StartInv(logSize: nat, logCqSize: nat)
    requires logSize <= 15 && logCqSize <= 15
    ensures RxInv(Start(logSize, logCqSize))
  {
    hide Pow2;
    HeldNone(Start(logSize, logCqSize).ring.slots);
  }

  lemma {:induction false} RunRefines(s: Rx, actions: seq<Action>)
    requires RxInv(s)
    ensures Shaped(s.ring) && Shaped(ProjectRx(s).ring)
    ensures Legal(Bits32, ProjectRx(s), actions) <==> Legal(Unbounded, s, actions)
    ensures Legal(Unbounded, s, actions) ==>
              && RxInv(Run(Unbounded, s, actions))
              && Run(Bits32, ProjectRx(s), actions) == ProjectRx(Run(Unbounded, s, actions))
    decreases |actions|
  {
    hide Pow2, RxInv, Step, Enabled;
    RxShape(s);
    if actions != [] {
      var a := actions[0];
      SameEnabled(s, a);
      if Enabled(s, a) {
        StepRefines(s, a);
        StepKeeps(s, a);
        RunRefines(Step(Unbounded, s, a), actions[1..]);
      }
    }
  }

  lemma RxShape(s: Rx)
    requires RxInv(s)
    ensures Shaped(s.ring) && Shaped(ProjectRx(s).ring)
  {
  }

  lemma SameEnabled(s: Rx, a: Action)
    ensures Enabled(ProjectRx(s), a) <==> Enabled(s, a)
  {
  }

  // What holds of the C driver in every run

  ghost predicate Safe(t: Rx)
    requires Shaped(t.ring)
  {
    var r := t.ring;
    && Used(Bits32, r) <= r.Size()
    // the clean-up has stopped at the first slot still in use, or at the tail
    && (t.poll.RefillTest? ==> r.clean == r.tail || r.slots[r.clean % r.Size()].Some?)
    // refilling never meets a slot that still has a page
    && (t.poll.Refill? && t.poll.missing > 0 ==> r.slots[r.head % r.Size()].None?)
    // a completion never meets an empty slot
    && (t.poll.Cq? && r.cqHead != r.cqTail ==> r.slots[CplSlot(r)].Some?)
    // outside the completion loop the NIC has back all completions taken, outside a refill it knows all pages
    && (!t.poll.Cq? ==> r.cqTailReg == r.cqTail % REGS)
    && (!t.poll.Refill? && !t.poll.Doorbell? ==> r.headReg == r.head % REGS)
    // each page put into the ring was delivered once or is still there
    && t.filled == t.delivered + Held(r.slots)
    // the registers give back the NIC's pointers
    && ReadTail(Bits32, r).tail == r.hwTail % WRAP
    && ReadCqHead(Bits32, r).cqHead == |r.log| % WRAP
  }

  lemma InvIsSafe(s: Rx)
    requires RxInv(s)
    ensures Shaped(ProjectRx(s).ring) && Safe(ProjectRx(s))
  {
    hide Pow2, Slots, Completions, Held;
    var r := s.ring;
    UsedRefines(r, Local(s));
    SizeDivides(r.logSize, r.head);
    ReadTailKeeps(r, Local(s));
    ReadTailRefines(r);
    ReadCqHeadKeeps(r, Local(s));
    ReadCqHeadRefines(r);
    PopCplRefines(r, Local(s));
    CleanRefines(r, Local(s));
    DoorbellsRefine(r);
    if s.poll.Refill? { RefillStepKeeps(s, false, None); }
    if s.poll.Cq? { CqStepKeeps(s, false, None); }
  }

  /** Every interleaving of the poll and the NIC, of any length, with any allocation failures. */
  lemma EveryRunSafe(logSize: nat, logCqSize: nat, actions: seq<Action>)
    requires logSize <= 15 && logCqSize <= 15
    requires Legal(Bits32, Start(logSize, logCqSize), actions)
    ensures Safe(Run(Bits32, Start(logSize, logCqSize), actions))
  {
    hide Pow2, RxInv, Safe, Legal, Run;
    var s := Start(logSize, logCqSize);
    StartInv(logSize, logCqSize);
    assert ProjectRx(s) == s;
    RunRefines(s, actions);
    InvIsSafe(Run(Unbounded, s, actions));
  }
}
