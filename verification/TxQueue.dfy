/** The transmit queue as three actors take turns on it: the transmit path (start_xmit, one at a time
    under the queue lock), the completion poll (process_tx_cq, one at a time), and the NIC.  Every
    access to shared state is a step of its own, so the steps of the actors interleave freely. */
module TxQueue {
  import opened Bits
  import opened Common
  import opened Ring

  /** Where the transmit path is: after enqueueing it tests for a full ring, stops the queue, rings the
      doorbell, tests again and may wake the queue. */
  datatype Xmit =
    | XIdle
    | XTest(more: bool)
    | XStop
    | XDoorbell(more: bool, stop: bool)
    | XRetest
    | XWake

  /** Where the poll is: it takes completions within its budget, reads the NIC's tail, cleans up to the
      first busy slot, publishes, and wakes a stopped queue if the ring is not full. */
  datatype Poll =
    | PIdle
    | PCq(left: nat)
    | PTail
    | PClean(c: int)
    | PTestStopped
    | PTestFull
    | PWake

  /** The queue, and the history of buffers handed to the driver and freed by it. */
  datatype Tx = Tx(ring: Ring, stopped: bool, xmit: Xmit, poll: Poll, given: multiset<Buf>, freed: multiset<Buf>)

  datatype Action =
    | Drop(buf: Buf)
    | Enqueue(buf: Buf, more: bool)
    | XmitStep
    | PollStart(budget: nat)
    | PollStep
    | NicFetch
    | NicComplete(p: nat)

  function FullSize(r: Ring): nat {
    r.Size() / 2
  }

  predicate Full(w: Width, r: Ring) {
    Used(w, r) >= FullSize(r)
  }

  /** The network stack hands over a packet only while the queue is not stopped. */
  predicate Enabled(s: Tx, a: Action) {
    match a
    case Drop(_) => s.xmit.XIdle? && !s.stopped
    case Enqueue(_, _) => s.xmit.XIdle? && !s.stopped
    case XmitStep => !s.xmit.XIdle?
    case PollStart(_) => s.poll.PIdle?
    case PollStep => !s.poll.PIdle?
    case NicFetch => CanFetch(s.ring)
    case NicComplete(p) => CanComplete(s.ring, p)
  }

  function StepXmit(w: Width, s: Tx): (t: Tx)
    requires Shaped(s.ring) && !s.xmit.XIdle?
    ensures Shaped(t.ring)
  {
    match s.xmit
    case XTest(more) => s.(xmit := if Full(w, s.ring) then XStop else XDoorbell(more, false))
    case XStop => s.(stopped := true, xmit := XDoorbell(false, true))
    case XDoorbell(more, stop) =>
      s.(ring := if !more || stop then WriteHead(s.ring) else s.ring, xmit := if stop then XRetest else XIdle)
    case XRetest => s.(xmit := if Full(w, s.ring) then XIdle else XWake)
    case XWake => s.(stopped := false, xmit := XIdle)
  }

  function StepPoll(w: Width, s: Tx): (t: Tx)
    requires Shaped(s.ring) && !s.poll.PIdle?
    ensures Shaped(t.ring)
  {
    var r := s.ring;
    match s.poll
    case PCq(left) =>
      if r.cqHead != r.cqTail && left > 0 then
        s.(ring := PopCpl(w, r), freed := s.freed + Bag(r.slots[CplSlot(r)]), poll := PCq(left - 1))
      else
        s.(ring := WriteCqTail(r), poll := PTail)
    case PTail => s.(ring := ReadTail(w, r), poll := PClean(r.clean))
    case PClean(c) =>
      if CanClean(r, c) then s.(poll := PClean(Wrap(w, c + 1)))
      else s.(ring := r.(clean := c), poll := PTestStopped)
    case PTestStopped => s.(poll := if s.stopped then PTestFull else PIdle)
    case PTestFull => s.(poll := if Full(w, r) then PIdle else PWake)
    case PWake => s.(stopped := false, poll := PIdle)
  }

  function Step(w: Width, s: Tx, a: Action): (t: Tx)
    requires Shaped(s.ring) && Enabled(s, a)
    ensures Shaped(t.ring)
  {
    match a
    case Drop(buf) => s.(given := s.given + multiset{buf}, freed := s.freed + multiset{buf})
    case Enqueue(buf, more) => s.(ring := Fill(w, s.ring, buf), given := s.given + multiset{buf}, xmit := XTest(more))
    case XmitStep => StepXmit(w, s)
    case PollStart(budget) => s.(ring := ReadCqHead(w, s.ring), poll := PCq(budget))
    case PollStep => StepPoll(w, s)
    case NicFetch => s.(ring := Fetch(s.ring))
    case NicComplete(p) => s.(ring := Complete(s.ring, p))
  }

  // The invariant

  /** How far the clean-up has got. */
  function Local(s: Tx): int {
    if s.poll.PClean? then s.poll.c else s.ring.clean
  }

  function Occupancy(s: Tx): int {
    s.ring.head - s.ring.clean
  }

  /** Bounds on the occupancy.  A poll that has decided to wake may do so late, when the ring has
      filled up again: that lets one packet too many in, and no more. */
  ghost predicate Bounded(s: Tx) {
    var occ, full := Occupancy(s), FullSize(s.ring);
    && occ <= full + 1
    && (s.poll.PWake? ==> occ <= full)
    && ((s.xmit.XDoorbell? && !s.xmit.stop) || s.xmit.XWake? ==> occ < full)
    && (s.xmit.XTest? || s.xmit.XStop? || (s.xmit.XDoorbell? && !s.xmit.stop) ==> !s.stopped)
    && (!s.stopped && (s.xmit.XIdle? || (s.xmit.XDoorbell? && s.xmit.stop) || s.xmit.XRetest?) ==>
          occ <= full && (s.poll.PWake? ==> occ < full))
  }

  /** Some thread is about to wake the queue, or to test whether it should. */
  predicate WakePending(s: Tx) {
    || (s.xmit.XDoorbell? && s.xmit.stop) || s.xmit.XRetest? || s.xmit.XWake?
    || s.poll.PTestStopped? || s.poll.PTestFull? || s.poll.PWake?
  }

  ghost predicate NoLostWake(s: Tx) {
    s.stopped && Occupancy(s) < FullSize(s.ring) ==> WakePending(s)
  }

  /** The completions taken are given back to the NIC once the completion loop is left. */
  predicate GivenBack(s: Tx) {
    !s.poll.PCq? ==> s.ring.cqTailReg == s.ring.cqTail % REGS
  }

  /** The clean tail is published at the first busy slot or at the tail. */
  ghost predicate Published(s: Tx) {
    s.poll.PTestStopped? || s.poll.PTestFull? || s.poll.PWake? ==>
      Shaped(s.ring) && !CanClean(s.ring, s.ring.clean)
  }

  ghost predicate TxInv(s: Tx) {
    && Inv(s.ring, Local(s)) && GivenBack(s) && Published(s)
    && Bounded(s)
    && NoLostWake(s)
    && s.given == s.freed + Held(s.ring.slots)
  }

  // Every step keeps the invariant

  lemma EnqueueKeeps(s: Tx, buf: Buf, more: bool)
    requires TxInv(s) && Enabled(s, Enqueue(buf, more))
    ensures s.ring.slots[s.ring.head % s.ring.Size()].None?
    ensures TxInv(Step(Unbounded, s, Enqueue(buf, more)))
  {
    hide Pow2, Inv, Held;
    InvShape(s.ring, Local(s));
    HalfRoom(s.ring);
    FillKeeps(s.ring, Local(s), buf);
    HeldPut(s.ring.slots, s.ring.head % s.ring.Size(), buf);
    var held := Held(s.ring.slots);
    assert s.freed + held + multiset{buf} == s.freed + (held + multiset{buf});
  }

  /** The full mark leaves room for one more. */
  lemma HalfRoom(r: Ring)
    ensures FullSize(r) + 1 <= r.Size()
    ensures r.logSize <= 16 ==> FullSize(r) + 1 < REGS
  {
    if r.logSize <= 16 { SizeBound(r.logSize); }
  }

  /** The full mark is half the ring. */
  lemma HalfOf(r: Ring)
    requires r.logSize >= 1
    ensures 2 * FullSize(r) == r.Size()
  {
  }

  lemma XmitStepKeeps(s: Tx)
    requires TxInv(s) && Enabled(s, XmitStep)
    ensures TxInv(Step(Unbounded, s, XmitStep))
  {
    hide Pow2, Inv, Held;
    InvShape(s.ring, Local(s));
    WriteHeadKeeps(s.ring, Local(s));
  }

  lemma PollStartKeeps(s: Tx, budget: nat)
    requires TxInv(s) && Enabled(s, PollStart(budget))
    ensures TxInv(Step(Unbounded, s, PollStart(budget)))
  {
    hide Pow2, Inv, Held;
    InvShape(s.ring, Local(s));
    ReadCqHeadKeeps(s.ring, Local(s));
  }

  lemma PollStepKeeps(s: Tx)
    requires TxInv(s) && Enabled(s, PollStep)
    ensures TxInv(Step(Unbounded, s, PollStep))
  {
    hide Pow2, Inv, Held;
    InvShape(s.ring, Local(s));
    match s.poll
    case PCq(left) =>
      if s.ring.cqHead != s.ring.cqTail && left > 0 {
        PopCplKeeps(s.ring, Local(s));
        HeldTake(s.ring.slots, CplSlot(s.ring));
        var rest, b := Held(PopCpl(Unbounded, s.ring).slots), Bag(s.ring.slots[CplSlot(s.ring)]);
        assert s.freed + (rest + b) == s.freed + b + rest;
      } else {
        WriteCqTailKeeps(s.ring, Local(s));
      }
    case PTail =>
      ReadTailKeeps(s.ring, Local(s));
    case PClean(c) =>
      if CanClean(s.ring, c) { CleanKeeps(s.ring, c); } else { PublishKeeps(s.ring, c); }
    case _ =>
  }

  lemma NicKeeps(s: Tx, a: Action)
    requires TxInv(s) && Enabled(s, a) && (a.NicFetch? || a.NicComplete?)
    ensures TxInv(Step(Unbounded, s, a))
  {
    hide Pow2, Inv, Held;
    InvShape(s.ring, Local(s));
    match a
    case NicFetch => FetchKeeps(s.ring, Local(s));
    case NicComplete(p) => CompleteKeeps(s.ring, Local(s), p);
  }

  lemma StepKeeps(s: Tx, a: Action)
    requires TxInv(s) && Enabled(s, a)
    ensures TxInv(Step(Unbounded, s, a))
  {
    hide Pow2;
    match a
    case Drop(buf) =>
    case Enqueue(buf, more) => EnqueueKeeps(s, buf, more);
    case XmitStep => XmitStepKeeps(s);
    case PollStart(budget) => PollStartKeeps(s, budget);
    case PollStep => PollStepKeeps(s);
    case NicFetch => NicKeeps(s, a);
    case NicComplete(p) => NicKeeps(s, a);
  }

  // Runs

  predicate Legal(w: Width, s: Tx, actions: seq<Action>)
    requires Shaped(s.ring)
    decreases |actions|
  {
    actions == [] || (Enabled(s, actions[0]) && Legal(w, Step(w, s, actions[0]), actions[1..]))
  }

  function Run(w: Width, s: Tx, actions: seq<Action>): (t: Tx)
    requires Shaped(s.ring) && Legal(w, s, actions)
    ensures Shaped(t.ring)
    decreases |actions|
  {
    if actions == [] then s else Run(w, Step(w, s, actions[0]), actions[1..])
  }

  lemma {:induction false} RunSize(w: Width, s: Tx, actions: seq<Action>)
    requires Shaped(s.ring) && Legal(w, s, actions)
    ensures Run(w, s, actions).ring.logSize == s.ring.logSize
    decreases |actions|
  {
    hide Pow2, Step, Enabled;
    if actions != [] {
      StepSize(w, s, actions[0]);
      RunSize(w, Step(w, s, actions[0]), actions[1..]);
    }
  }

  lemma StepSize(w: Width, s: Tx, a: Action)
    requires Shaped(s.ring) && Enabled(s, a)
    ensures Step(w, s, a).ring.logSize == s.ring.logSize
  {
    hide Pow2;
  }

  /** The queue when the port comes up: pointers and registers at zero, all slots empty. */
  function Start(logSize: nat, logCqSize: nat): Tx {
    Tx(Ring(logSize, logCqSize, 0, 0, 0, seq(Pow2(logSize), _ => None), 0, 0, 0, 0, 0, [], seq(Pow2(logCqSize), _ => 0)),
       false, XIdle, PIdle, multiset{}, multiset{})
  }

  lemma StartInv(logSize: nat, logCqSize: nat)
    requires logSize <= 16 && logCqSize <= 15
    ensures TxInv(Start(logSize, logCqSize))
  {
    hide Pow2;
    HeldNone(Start(logSize, logCqSize).ring.slots);
  }

  // The C driver's queue refines the unbounded one

  function ProjectTx(s: Tx): Tx {
    s.(ring := Project(s.ring), poll := if s.poll.PClean? then PClean(s.poll.c % WRAP) else s.poll)
  }

  /** Every step, with every decision it takes, agrees on 32-bit and on unbounded pointers. */
  lemma StepRefines(s: Tx, a: Action)
    requires TxInv(s) && Enabled(s, a)
    ensures Enabled(ProjectTx(s), a)
    ensures Step(Bits32, ProjectTx(s), a) == ProjectTx(Step(Unbounded, s, a))
  {
    hide Pow2, Slots, Completions, Held, Bounded, NoLostWake, Used, StepXmit, StepPoll, Announced, CqReleased;
    var r := s.ring;
    match a
    case Drop(buf) =>
    case Enqueue(buf, more) => FillRefines(r, buf);
    case XmitStep => XmitStepRefines(s);
    case PollStart(budget) => ReadCqHeadRefines(r);
    case PollStep => PollStepRefines(s);
    case NicFetch =>
    case NicComplete(p) =>
  }

  lemma FullRefines(r: Ring, c: int)
    requires Inv(r, c)
    ensures Full(Bits32, Project(r)) <==> Full(Unbounded, r)
  {
    UsedRefines(r, c);
  }

  lemma XmitStepRefines(s: Tx)
    requires TxInv(s) && Enabled(s, XmitStep)
    ensures Shaped(ProjectTx(s).ring) && StepXmit(Bits32, ProjectTx(s)) == ProjectTx(StepXmit(Unbounded, s))
  {
    InvShape(s.ring, Local(s));
    FullRefines(s.ring, Local(s));
    DoorbellsRefine(s.ring);
    hide Pow2, Inv, Held, Bounded, NoLostWake, Full, WriteHead;
  }

  lemma PollStepRefines(s: Tx)
    requires TxInv(s) && Enabled(s, PollStep)
    ensures Shaped(ProjectTx(s).ring) && StepPoll(Bits32, ProjectTx(s)) == ProjectTx(StepPoll(Unbounded, s))
  {
    hide Pow2, Inv, Held, Bounded, NoLostWake, Full, PopCpl, WriteCqTail, ReadTail, CanClean, CplSlot;
    var r := s.ring;
    InvShape(r, Local(s));
    match s.poll
    case PCq(left) => PopCplRefines(r, Local(s)); DoorbellsRefine(r);
    case PTail => ReadTailRefines(r);
    case PClean(c) => CleanRefines(r, c);
    case PTestFull => FullRefines(r, Local(s));
    case _ =>
  }

  lemma {:induction false} RunRefines(s: Tx, actions: seq<Action>)
    requires TxInv(s)
    ensures Legal(Bits32, ProjectTx(s), actions) <==> Legal(Unbounded, s, actions)
    ensures Legal(Unbounded, s, actions) ==>
              && TxInv(Run(Unbounded, s, actions))
              && Run(Bits32, ProjectTx(s), actions) == ProjectTx(Run(Unbounded, s, actions))
    decreases |actions|
  {
    hide Pow2, TxInv, Step, Enabled;
    TxShape(s);
    if actions != [] {
      var a := actions[0];
      SameEnabled(s, a);
      if Enabled(s, a) {
        StepRefines(s, a);
        StepKeeps(s, a);
        RunRefines(Step(Unbounded, s, a), actions[1..]);
      }
    }
  }

  lemma TxShape(s: Tx)
    requires TxInv(s)
    ensures Shaped(s.ring) && Shaped(ProjectTx(s).ring)
  {
  }

  lemma SameEnabled(s: Tx, a: Action)
    ensures Enabled(ProjectTx(s), a) <==> Enabled(s, a)
  {
  }

  // What holds of the C driver in every run

  /** Safety of a state of the C driver, in its own 32-bit terms. */
  ghost predicate Safe(t: Tx)
    requires Shaped(t.ring)
  {
    var r := t.ring;
    // occupancy never exceeds the full mark by more than one, and never the ring
    && Used(Bits32, r) <= FullSize(r) + 1 <= r.Size()
    && (r.logSize >= 1 ==> 2 * Used(Bits32, r) <= r.Size() + 2)
    // a packet is enqueued only into an empty slot
    && (!t.stopped && t.xmit.XIdle? ==> r.slots[r.head % r.Size()].None?)
    // a completion always finds its buffer
    && (t.poll.PCq? && r.cqHead != r.cqTail ==> r.slots[CplSlot(r)].Some?)
    // each buffer handed in was freed once or is held once
    && t.given == t.freed + Held(r.slots)
    // a stopped queue on a ring that is not full has a wake on its way
    && (t.stopped && !Full(Bits32, r) ==> WakePending(t))
    // outside the completion loop the NIC has back all completions taken
    && (!t.poll.PCq? ==> r.cqTailReg == r.cqTail % REGS)
    // after a clean-up the clean tail is at the first slot still in use, or at the tail
    && (t.poll.PTestStopped? ==> r.clean == r.tail || r.slots[r.clean % r.Size()].Some?)
    // the registers give back the NIC's pointers
    && ReadTail(Bits32, r).tail == r.hwTail % WRAP
    && ReadCqHead(Bits32, r).cqHead == |r.log| % WRAP
  }

  lemma OccupancySafe(s: Tx)
    requires TxInv(s)
    ensures var t := ProjectTx(s);
            && Used(Bits32, t.ring) <= FullSize(t.ring) + 1 <= t.ring.Size()
            && (t.ring.logSize >= 1 ==> 2 * Used(Bits32, t.ring) <= t.ring.Size() + 2)
            && (t.stopped && !Full(Bits32, t.ring) ==> WakePending(t))
  {
    hide Pow2, Slots, Completions, Held;
    UsedRefines(s.ring, Local(s));
    HalfRoom(s.ring);
    if s.ring.logSize >= 1 { HalfOf(s.ring); }
  }

  lemma SlotsSafe(s: Tx)
    requires TxInv(s)
    ensures var t := ProjectTx(s);
            var r := t.ring;
            && Shaped(r)
            && (!t.stopped && t.xmit.XIdle? ==> r.slots[r.head % r.Size()].None?)
            && (t.poll.PCq? && r.cqHead != r.cqTail ==> r.slots[CplSlot(r)].Some?)
            && (t.poll.PTestStopped? ==> r.clean == r.tail || r.slots[r.clean % r.Size()].Some?)
  {
    var r := s.ring;
    InvShape(r, Local(s));
    hide Pow2, Inv, Held, CplSlot;
    SizeDivides(r.logSize, r.head);
    if !s.stopped && s.xmit.XIdle? { EnqueueKeeps(s, 0, false); }
    if s.poll.PCq? && r.cqHead != r.cqTail { PopCplKeeps(r, Local(s)); }
    PopCplRefines(r, Local(s));
    if s.poll.PTestStopped? { CleanRefines(r, r.clean); }
  }

  lemma RegistersSafe(s: Tx)
    requires TxInv(s)
    ensures var t := ProjectTx(s);
            && (!t.poll.PCq? ==> t.ring.cqTailReg == t.ring.cqTail % REGS)
            && ReadTail(Bits32, t.ring).tail == t.ring.hwTail % WRAP
            && ReadCqHead(Bits32, t.ring).cqHead == |t.ring.log| % WRAP
  {
    hide Pow2, Inv, Held, Bounded, NoLostWake;
    ReadTailKeeps(s.ring, Local(s));
    ReadTailRefines(s.ring);
    ReadCqHeadKeeps(s.ring, Local(s));
    ReadCqHeadRefines(s.ring);
    DoorbellsRefine(s.ring);
  }

  lemma InvIsSafe(s: Tx)
    requires TxInv(s)
    ensures Shaped(ProjectTx(s).ring) && Safe(ProjectTx(s))
  {
    OccupancySafe(s);
    SlotsSafe(s);
    RegistersSafe(s);
    hide Pow2, Inv, Held, Bounded, NoLostWake, Used, Full, WakePending, FullSize, ReadTail, ReadCqHead, CplSlot;
  }

  /** Every interleaving of the transmit path, the poll and the NIC, of any length. */
  lemma EveryRunSafe(logSize: nat, logCqSize: nat, actions: seq<Action>)
    requires logSize <= 16 && logCqSize <= 15
    requires Legal(Bits32, Start(logSize, logCqSize), actions)
    ensures Safe(Run(Bits32, Start(logSize, logCqSize), actions))
  {
    hide Pow2, TxInv, Safe, Legal, Run;
    var s := Start(logSize, logCqSize);
    StartInv(logSize, logCqSize);
    assert ProjectTx(s) == s;
    RunRefines(s, actions);
    InvIsSafe(Run(Unbounded, s, actions));
  }

  /** Once both threads have come to rest, a queue is stopped only on a ring that is at least half full. */
  lemma RestingQueueNotStuck(logSize: nat, logCqSize: nat, actions: seq<Action>)
    requires logSize <= 16 && logCqSize <= 15
    requires Legal(Bits32, Start(logSize, logCqSize), actions)
    ensures var t := Run(Bits32, Start(logSize, logCqSize), actions);
            t.xmit.XIdle? && t.poll.PIdle? && t.stopped ==>
              Full(Bits32, t.ring) && (logSize >= 1 ==> 2 * Used(Bits32, t.ring) >= t.ring.Size())
  {
    EveryRunSafe(logSize, logCqSize, actions);
    var t := Run(Bits32, Start(logSize, logCqSize), actions);
    RunSize(Bits32, Start(logSize, logCqSize), actions);
    if logSize >= 1 { HalfOf(t.ring); }
  }
}
