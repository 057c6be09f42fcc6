/** The driver's code as runs of the queue machines: what a method of the driver computes in one go is
    what its steps bring about, so what holds in every run of a machine holds of the code. */
module RingRuns {
  import opened Bits
  import opened Common
  import opened Ring
  import opened RingDriver
  import T = TxQueue
  import R = RxQueue

  // The transmit queue

  ghost predicate OnlyPolls(actions: seq<T.Action>) {
    forall i :: 0 <= i < |actions| ==> actions[i].PollStep?
  }

  lemma {:induction false} CqRun(s: T.Tx) returns (actions: seq<T.Action>)
    requires Shaped(s.ring) && s.poll.PCq?
    ensures OnlyPolls(actions) && T.Legal(Bits32, s, actions)
    ensures var t := T.Run(Bits32, s, actions);
            t.ring == WriteCqTail(TakeCpls(Bits32, s.ring, s.poll.left)) && t.poll.PTail?
            && t.stopped == s.stopped && t.xmit == s.xmit
    decreases s.poll.left
  {
    hide Pow2, TakeCpls, PopCpl, CplSlot, WriteCqTail;
    TakeNext(s.ring, s.poll.left);
    var next := T.Step(Bits32, s, T.PollStep);
    if next.poll.PTail? {
      actions := [T.PollStep];
      assert actions[1..] == [];
    } else {
      var rest := CqRun(next);
      actions := [T.PollStep] + rest;
      assert actions[1..] == rest;
    }
  }

  lemma {:induction false} CleanRun(s: T.Tx) returns (actions: seq<T.Action>)
    requires Shaped(s.ring) && s.poll.PClean? && 0 <= s.poll.c < WRAP && 0 <= s.ring.tail < WRAP
    ensures OnlyPolls(actions) && T.Legal(Bits32, s, actions)
    ensures var t := T.Run(Bits32, s, actions);
            t.ring == s.ring.(clean := CleanEnd(Bits32, s.ring, s.poll.c)) && t.poll.PTestStopped?
            && t.stopped == s.stopped && t.xmit == s.xmit
    decreases Distance(Bits32, s.ring, s.poll.c)
  {
    hide Pow2, CleanEnd, Distance;
    var next := T.Step(Bits32, s, T.PollStep);
    CleanNext(s.ring, s.poll.c);
    if next.poll.PTestStopped? {
      actions := [T.PollStep];
      assert actions[1..] == [];
    } else {
      Closer(s.ring, s.poll.c);
      var rest := CleanRun(next);
      actions := [T.PollStep] + rest;
      assert actions[1..] == rest;
    }
  }

  lemma {:induction false} RunAppend(s: T.Tx, a: seq<T.Action>, b: seq<T.Action>)
    requires Shaped(s.ring) && T.Legal(Bits32, s, a) && T.Legal(Bits32, T.Run(Bits32, s, a), b)
    ensures T.Legal(Bits32, s, a + b)
    ensures T.Run(Bits32, s, a + b) == T.Run(Bits32, T.Run(Bits32, s, a), b)
    decreases |a|
  {
    hide T.Step, T.Enabled;
    if a == [] {
      assert a + b == b;
    } else {
      assert (a + b)[1..] == a[1..] + b;
      RunAppend(T.Step(Bits32, s, a[0]), a[1..], b);
    }
  }

  /** What ProcessTxCq computes is what the poll's steps, taken one after the other, bring about. */
  lemma PollEffectIsRun(s: T.Tx, budget: nat) returns (actions: seq<T.Action>)
    requires Shaped(s.ring) && s.poll.PIdle? && 0 <= s.ring.clean < WRAP
    ensures actions != [] && actions[0] == T.PollStart(budget) && OnlyPolls(actions[1..])
    ensures T.Legal(Bits32, s, actions)
    ensures var t := T.Run(Bits32, s, actions);
            && t.ring == PollEffect(Bits32, s.ring, budget) && t.poll.PIdle? && t.xmit == s.xmit
            && t.stopped == (s.stopped && T.Full(Bits32, t.ring))
  {
    hide Pow2, TakeCpls, CleanEnd, T.Legal, T.Run, T.Full;
    var s1 := T.Step(Bits32, s, T.PollStart(budget));
    var a1 := CqRun(s1);
    var s2 := T.Run(Bits32, s1, a1);
    TakeKeeps(s1.ring, budget);
    var s3 := T.Step(Bits32, s2, T.PollStep);
    var a3 := CleanRun(s3);
    var a4 := WakeRun(T.Run(Bits32, s3, a3));
    RunAppend(s3, a3, a4);
    OneStep(s, T.PollStart(budget));
    OneStep(s2, T.PollStep);
    RunAppend(s2, [T.PollStep], a3 + a4);
    RunAppend(s1, a1, [T.PollStep] + (a3 + a4));
    RunAppend(s, [T.PollStart(budget)], a1 + ([T.PollStep] + (a3 + a4)));
    actions := [T.PollStart(budget)] + (a1 + ([T.PollStep] + (a3 + a4)));
    assert actions[1..] == a1 + ([T.PollStep] + (a3 + a4));
  }

  /** The end of the poll: wake a stopped queue if the ring is not full. */
  lemma WakeRun(s: T.Tx) returns (actions: seq<T.Action>)
    requires Shaped(s.ring) && s.poll.PTestStopped?
    ensures OnlyPolls(actions) && T.Legal(Bits32, s, actions)
    ensures T.Run(Bits32, s, actions) == s.(poll := T.PIdle, stopped := s.stopped && T.Full(Bits32, s.ring))
  {
    hide Pow2, T.Legal, T.Run, T.Full;
    actions := RunNone(s);
    actions := Extend(s, actions, T.PollStep);
    if s.stopped {
      actions := Extend(s, actions, T.PollStep);
      if !T.Full(Bits32, s.ring) { actions := Extend(s, actions, T.PollStep); }
    }
  }

  lemma RunNone(s: T.Tx) returns (none: seq<T.Action>)
    requires Shaped(s.ring)
    ensures none == [] && T.Legal(Bits32, s, none) && T.Run(Bits32, s, none) == s
  {
    none := [];
  }

  /** One more step at the end of a run. */
  lemma Extend(s: T.Tx, actions: seq<T.Action>, a: T.Action) returns (more: seq<T.Action>)
    requires Shaped(s.ring) && T.Legal(Bits32, s, actions) && T.Enabled(T.Run(Bits32, s, actions), a)
    ensures more == actions + [a] && T.Legal(Bits32, s, more)
    ensures T.Run(Bits32, s, more) == T.Step(Bits32, T.Run(Bits32, s, actions), a)
  {
    hide Pow2, T.Legal, T.Run, T.Step, T.Enabled;
    OneStep(T.Run(Bits32, s, actions), a);
    RunAppend(s, actions, [a]);
    more := actions + [a];
  }

  /** What StartXmit computes is what the steps of the transmit path bring about, with a poll that
      publishes its clean tail before the second test, or without one. */
  lemma XmitIsRun(s: T.Tx, buf: Buf, more: bool, publish: bool) returns (actions: seq<T.Action>)
    requires Shaped(s.ring) && s.xmit.XIdle? && !s.stopped
    requires publish ==> s.poll.PClean? && !CanClean(Fill(Bits32, s.ring, buf), s.poll.c)
    ensures T.Legal(Bits32, s, actions)
    ensures var filled := Fill(Bits32, s.ring, buf);
            var full := T.Full(Bits32, filled);
            var t := T.Run(Bits32, s, actions);
            && t.ring == (if !more || full then WriteHead(filled) else filled)
                         .(clean := if publish then s.poll.c else s.ring.clean)
            && t.stopped == (full && T.Full(Bits32, t.ring))
            && t.xmit.XIdle? && t.given == s.given + multiset{buf} && t.freed == s.freed
  {
    hide Pow2, T.Legal, T.Run, Fill;
    FillOnly(s.ring, buf);
    actions := RunNone(s);
    actions := Extend(s, actions, T.Enqueue(buf, more));
    actions := Extend(s, actions, T.XmitStep);
    if T.Full(Bits32, Fill(Bits32, s.ring, buf)) {
      actions := Extend(s, actions, T.XmitStep);
    }
    actions := Extend(s, actions, T.XmitStep);
    if publish { actions := Extend(s, actions, T.PollStep); }
    actions := Retest(s, actions);
  }

  lemma FillOnly(r: Ring, buf: Buf)
    requires Shaped(r)
    ensures Fill(Bits32, r, buf).clean == r.clean
  {
  }

  /** The second test of the transmit path, if it is due. */
  lemma Retest(s: T.Tx, before: seq<T.Action>) returns (actions: seq<T.Action>)
    requires Shaped(s.ring) && T.Legal(Bits32, s, before)
    requires var t := T.Run(Bits32, s, before); t.xmit.XRetest? || t.xmit.XIdle?
    ensures T.Legal(Bits32, s, actions)
    ensures var t := T.Run(Bits32, s, before);
            T.Run(Bits32, s, actions)
              == if t.xmit.XIdle? then t else t.(xmit := T.XIdle, stopped := t.stopped && T.Full(Bits32, t.ring))
  {
    hide Pow2, T.Legal, T.Run, T.Full;
    actions := before;
    var t := T.Run(Bits32, s, before);
    if t.xmit.XRetest? {
      actions := Extend(s, actions, T.XmitStep);
      if !T.Full(Bits32, t.ring) { actions := Extend(s, actions, T.XmitStep); }
    }
  }

  /** A poll of the C driver, from a ring that stands for an unbounded one in its invariant, leaves a ring
      that does. */
  lemma PollKeepsInv(s: T.Tx, budget: nat) returns (t: T.Tx)
    requires T.TxInv(s) && s.poll.PIdle?
    ensures T.TxInv(t) && Shaped(Project(s.ring)) && Project(t.ring) == PollEffect(Bits32, Project(s.ring), budget)
    ensures t.poll.PIdle? && t.xmit == s.xmit
    ensures t.stopped == (s.stopped && T.Full(Bits32, Project(t.ring)))
  {
    hide Pow2, T.TxInv, T.Legal, T.Run, PollEffect, T.Full;
    T.TxShape(s);
    var actions := PollEffectIsRun(T.ProjectTx(s), budget);
    T.RunRefines(s, actions);
    t := T.Run(Unbounded, s, actions);
  }

  /** Likewise for the transmit path: the slot it fills was empty, and the skb is accounted for. */
  lemma XmitKeepsInv(s: T.Tx, buf: Buf, more: bool) returns (t: T.Tx)
    requires T.TxInv(s) && s.xmit.XIdle? && !s.stopped
    ensures T.TxInv(t) && t.xmit.XIdle? && t.given == s.given + multiset{buf} && t.freed == s.freed
    ensures Shaped(Project(s.ring)) && s.ring.slots[s.ring.head % s.ring.Size()].None?
    ensures var filled := Fill(Bits32, Project(s.ring), buf);
            && Project(t.ring) == (if !more || T.Full(Bits32, filled) then WriteHead(filled) else filled)
            && t.stopped == T.Full(Bits32, filled)
  {
    hide Pow2, T.TxInv, T.Legal, T.Run, T.Step, Fill;
    T.TxShape(s);
    T.EnqueueKeeps(s, buf, more);
    var p := T.ProjectTx(s);
    FillOnly(p.ring, buf);
    var actions := XmitIsRun(p, buf, more, false);
    T.RunRefines(s, actions);
    t := T.Run(Unbounded, s, actions);
  }

  lemma OneStep(s: T.Tx, a: T.Action)
    requires Shaped(s.ring) && T.Enabled(s, a)
    ensures T.Legal(Bits32, s, [a]) && T.Run(Bits32, s, [a]) == T.Step(Bits32, s, a)
  {
    hide T.Step, T.Enabled;
    assert [a][1..] == [];
  }

  lemma {:induction false} TakeKeeps(r: Ring, budget: nat)
    requires Shaped(r)
    ensures TakeCpls(Bits32, r, budget).clean == r.clean
    decreases budget
  {
    if r.cqHead != r.cqTail && budget > 0 { TakeKeeps(PopCpl(Bits32, r), budget - 1); }
  }

  // The receive queue

  ghost predicate OnlyRxPolls(actions: seq<R.Action>) {
    forall i :: 0 <= i < |actions| ==> actions[i].PollStep?
  }

  lemma {:induction false} RxRunAppend(s: R.Rx, a: seq<R.Action>, b: seq<R.Action>)
    requires Shaped(s.ring) && R.Legal(Bits32, s, a) && R.Legal(Bits32, R.Run(Bits32, s, a), b)
    ensures R.Legal(Bits32, s, a + b)
    ensures R.Run(Bits32, s, a + b) == R.Run(Bits32, R.Run(Bits32, s, a), b)
    decreases |a|
  {
    hide R.Step, R.Enabled;
    if a == [] {
      assert a + b == b;
    } else {
      assert (a + b)[1..] == a[1..] + b;
      RxRunAppend(R.Step(Bits32, s, a[0]), a[1..], b);
    }
  }

  lemma RxOneStep(s: R.Rx, a: R.Action)
    requires Shaped(s.ring) && R.Enabled(s, a)
    ensures R.Legal(Bits32, s, [a]) && R.Run(Bits32, s, [a]) == R.Step(Bits32, s, a)
  {
    hide R.Step, R.Enabled;
    assert [a][1..] == [];
  }

  /** A run that starts with a given step. */
  lemma RxPrepend(s: R.Rx, a: R.Action, rest: seq<R.Action>) returns (actions: seq<R.Action>)
    requires Shaped(s.ring) && R.Enabled(s, a) && R.Legal(Bits32, R.Step(Bits32, s, a), rest)
    ensures actions == [a] + rest && R.Legal(Bits32, s, actions)
    ensures R.Run(Bits32, s, actions) == R.Run(Bits32, R.Step(Bits32, s, a), rest)
  {
    hide R.Step, R.Enabled;
    actions := [a] + rest;
    assert actions[1..] == rest;
  }

  lemma {:induction false} RxCqRun(s: R.Rx, skbs: nat) returns (actions: seq<R.Action>)
    requires Shaped(s.ring) && s.poll.Cq?
    ensures OnlyRxPolls(actions) && R.Legal(Bits32, s, actions)
    ensures var t := R.Run(Bits32, s, actions);
            t.ring == WriteCqTail(TakePages(Bits32, s.ring, s.poll.left, skbs)) && t.poll.Tail?
    decreases s.poll.left
  {
    hide Pow2, TakePages, PopCpl, CplSlot, WriteCqTail, R.Run, R.Legal;
    TakeNextPage(s.ring, s.poll.left, skbs);
    var a := R.PollStep(skbs > 0, None);
    var next := R.Step(Bits32, s, a);
    RxOneStep(s, a);
    if next.poll.Tail? {
      actions := [a];
    } else {
      var rest := RxCqRun(next, skbs - 1);
      actions := RxPrepend(s, a, rest);
    }
  }

  lemma {:induction false} RxCleanRun(s: R.Rx) returns (actions: seq<R.Action>)
    requires Shaped(s.ring) && s.poll.Clean? && 0 <= s.poll.c < WRAP && 0 <= s.ring.tail < WRAP
    ensures OnlyRxPolls(actions) && R.Legal(Bits32, s, actions)
    ensures var t := R.Run(Bits32, s, actions);
            t.ring == s.ring.(clean := CleanEnd(Bits32, s.ring, s.poll.c)) && t.poll.RefillTest?
    decreases Distance(Bits32, s.ring, s.poll.c)
  {
    hide Pow2, CleanEnd, Distance, R.Run, R.Legal;
    var a := R.PollStep(false, None);
    var next := R.Step(Bits32, s, a);
    CleanNext(s.ring, s.poll.c);
    RxOneStep(s, a);
    if next.poll.RefillTest? {
      actions := [a];
    } else {
      Closer(s.ring, s.poll.c);
      var rest := RxCleanRun(next);
      actions := RxPrepend(s, a, rest);
    }
  }

  lemma {:induction false} FillAllIsRun(s: R.Rx, pages: seq<Option<Buf>>) returns (actions: seq<R.Action>)
    requires Shaped(s.ring) && s.poll.Refill?
    ensures OnlyRxPolls(actions) && R.Legal(Bits32, s, actions)
    ensures var t := R.Run(Bits32, s, actions);
            t.ring == FillAll(Bits32, s.ring, pages, s.poll.missing) && t.poll.Doorbell?
    decreases s.poll.missing
  {
    hide Pow2, Fill, FillAll, R.Run, R.Legal;
    FillNext(s.ring, pages, s.poll.missing);
    var a := R.PollStep(false, if pages == [] then None else pages[0]);
    var next := R.Step(Bits32, s, a);
    RxOneStep(s, a);
    if next.poll.Doorbell? {
      actions := [a];
    } else {
      var rest := FillAllIsRun(next, pages[1..]);
      actions := RxPrepend(s, a, rest);
    }
  }

  /** The refill: nothing below eight missing descriptors, else fill and ring the doorbell. */
  lemma RefillIsRun(s: R.Rx, pages: seq<Option<Buf>>) returns (actions: seq<R.Action>)
    requires Shaped(s.ring) && s.poll.RefillTest?
    ensures OnlyRxPolls(actions) && R.Legal(Bits32, s, actions)
    ensures var t := R.Run(Bits32, s, actions); t.ring == Refilled(Bits32, s.ring, pages) && t.poll.Idle?
  {
    hide Pow2, FillAll, R.Run, R.Legal, WriteHead;
    var a := R.PollStep(false, None);
    RxOneStep(s, a);
    if R.Missing(Bits32, s.ring) < 8 {
      actions := [a];
    } else {
      var s1 := R.Step(Bits32, s, a);
      var fill := FillAllIsRun(s1, pages);
      RxOneStep(R.Run(Bits32, s1, fill), a);
      RxRunAppend(s1, fill, [a]);
      actions := RxPrepend(s, a, fill + [a]);
    }
  }

  /** What ProcessRxCq computes is what the receive poll's steps bring about. */
  lemma RxPollIsRun(s: R.Rx, budget: nat, skbs: nat, pages: seq<Option<Buf>>) returns (actions: seq<R.Action>)
    requires Shaped(s.ring) && s.poll.Idle? && 0 <= s.ring.clean < WRAP
    ensures actions != [] && actions[0] == R.PollStart(budget) && OnlyRxPolls(actions[1..])
    ensures R.Legal(Bits32, s, actions)
    ensures var t := R.Run(Bits32, s, actions);
            t.ring == RxPollEffect(Bits32, s.ring, budget, skbs, pages) && t.poll.Idle?
  {
    hide Pow2, TakePages, CleanEnd, Refilled, R.Legal, R.Run;
    var a := R.PollStep(false, None);
    var s1 := R.Step(Bits32, s, R.PollStart(budget));
    var a1 := RxCqRun(s1, skbs);
    var s2 := R.Run(Bits32, s1, a1);
    PagesKeepClean(s1.ring, budget, skbs);
    var s3 := R.Step(Bits32, s2, a);
    var a3 := RxCleanRun(s3);
    var a4 := RefillIsRun(R.Run(Bits32, s3, a3), pages);
    RxRunAppend(s3, a3, a4);
    var b3 := RxPrepend(s2, a, a3 + a4);
    RxRunAppend(s1, a1, b3);
    actions := RxPrepend(s, R.PollStart(budget), a1 + b3);
    assert actions[1..] == a1 + b3;
  }

  lemma {:induction false} PagesKeepClean(r: Ring, budget: nat, skbs: nat)
    requires Shaped(r)
    ensures TakePages(Bits32, r, budget, skbs).clean == r.clean
    decreases budget
  {
    if r.cqHead != r.cqTail && budget > 0 && skbs > 0 && r.slots[CplSlot(r)].Some? {
      PagesKeepClean(PopCpl(Bits32, r), budget - 1, skbs - 1);
    }
  }

  /** A receive poll of the C driver keeps to a ring that stands for an unbounded one in its invariant. */
  lemma RxPollKeepsInv(s: R.Rx, budget: nat, skbs: nat, pages: seq<Option<Buf>>) returns (t: R.Rx)
    requires R.RxInv(s) && s.poll.Idle?
    ensures R.RxInv(t) && t.poll.Idle? && Shaped(Project(s.ring))
    ensures Project(t.ring) == RxPollEffect(Bits32, Project(s.ring), budget, skbs, pages)
  {
    hide Pow2, R.RxInv, R.Legal, R.Run, RxPollEffect;
    R.RxShape(s);
    var actions := RxPollIsRun(R.ProjectRx(s), budget, skbs, pages);
    R.RunRefines(s, actions);
    t := R.Run(Unbounded, s, actions);
  }

  // The NIC can go on completing

  lemma {:induction false} TakesAll(r: Ring, budget: nat)
    requires Shaped(r) && 0 <= r.cqTail < WRAP && 0 <= r.cqHead < WRAP && (r.cqHead - r.cqTail) % WRAP <= budget
    ensures TakeCpls(Bits32, r, budget) == r.(cqTail := r.cqHead, slots := TakeCpls(Bits32, r, budget).slots)
    decreases budget
  {
    hide Pow2, CplSlot;
    if r.cqHead != r.cqTail { TakesAll(PopCpl(Bits32, r), budget - 1); }
  }

  /** A poll that took everything leaves the true tail and every completion given back. */
  ghost predicate Settled(e: Ring, s: Ring) {
    && Shaped(e) && e.log == s.log && e.hwTail == s.hwTail
    && e.cqTail == |s.log| % WRAP && e.cqTailReg == |s.log| % REGS && e.tail == s.hwTail % WRAP
    && !CanClean(e, e.clean)
  }

  /** The rest of a poll, after every completion was taken. */
  lemma TakenSettles(s: Ring, c: int, taken: Ring)
    requires Inv(s, c) && Shaped(taken)
    requires taken == Project(s).(cqHead := |s.log| % WRAP, cqTail := |s.log| % WRAP, slots := taken.slots)
    ensures var r := ReadTail(Bits32, WriteCqTail(taken));
            Settled(r.(clean := CleanEnd(Bits32, r, r.clean)), s)
  {
    TailRead(s, c);
    hide Pow2, Inv, CleanEnd, CanClean;
    WrapRegister(|s.log|, 0);
    CleanedStops(ReadTail(Bits32, WriteCqTail(taken)));
  }

  lemma PollSettles(s: Ring, c: int, budget: nat)
    requires Inv(s, c) && |s.log| - s.cqTail <= budget
    ensures Shaped(Project(s)) && Settled(PollEffect(Bits32, Project(s), budget), s)
  {
    InvShape(s, c);
    hide Pow2, Inv, TakeCpls, CleanEnd, CanClean, ReadCqHead, ReadTail, WriteCqTail, Settled;
    var r := HeadRead(s, c);
    TakesPending(s, c, budget);
    TakenSettles(s, c, TakeCpls(Bits32, r, budget));
  }

  lemma TakesPending(s: Ring, c: int, budget: nat)
    requires Inv(s, c) && |s.log| - s.cqTail <= budget
    ensures var r := Project(s.(cqHead := |s.log|));
            && Shaped(r)
            && TakeCpls(Bits32, r, budget) == r.(cqTail := r.cqHead, slots := TakeCpls(Bits32, r, budget).slots)
  {
    InvShape(s, c);
    hide Pow2, Inv, TakeCpls;
    CompletionsApart(s, c);
    WrapDiff(|s.log|, s.cqTail);
    TakesAll(Project(s.(cqHead := |s.log|)), budget);
  }

  lemma CleanedStops(r: Ring)
    requires Shaped(r) && 0 <= r.tail < WRAP && 0 <= r.clean < WRAP
    ensures var t := r.(clean := CleanEnd(Bits32, r, r.clean)); !CanClean(t, t.clean)
  {
    hide Pow2, CleanEnd;
    CleanEndStops(r, r.clean);
  }

  /** After a transmit poll whose budget covers what was completed, the NIC may complete any descriptor that
      it has fetched and not completed yet. */
  lemma PollReopens(s: T.Tx, budget: nat, p: nat)
    requires T.TxInv(s) && |s.ring.log| - s.ring.cqTail <= budget && p < s.ring.hwTail && p !in s.ring.log
    ensures Shaped(Project(s.ring)) && CanComplete(PollEffect(Bits32, Project(s.ring), budget), p)
  {
    PollSettles(s.ring, T.Local(s), budget);
    hide Pow2, Inv, PollEffect;
    RoomToComplete(PollEffect(Bits32, Project(s.ring), budget), p);
  }

  /** When the NIC has completed all that it fetched, a transmit poll whose budget covers that cleans the
      ring up to the last of it. */
  lemma PollCleans(s: T.Tx, budget: nat)
    requires T.TxInv(s) && s.poll.PIdle? && |s.ring.log| - s.ring.cqTail <= budget && AllCompleted(s.ring)
    ensures Shaped(Project(s.ring))
    ensures PollEffect(Bits32, Project(s.ring), budget).clean == s.ring.hwTail % WRAP
  {
    IdleInv(s);
    PollSettles(s.ring, s.ring.clean, budget);
    hide Pow2, Inv, T.TxInv, PollEffect, T.Full, CanClean;
    var t := PollKeepsInv(s, budget);
    IdleInv(t);
    CleanAtTail(t.ring);
  }

  lemma IdleInv(t: T.Tx)
    requires T.TxInv(t) && t.poll.PIdle?
    ensures Inv(t.ring, t.ring.clean)
  {
  }

  /** All that the NIC has fetched is completed. */
  ghost predicate AllCompleted(r: Ring) {
    forall p :: 0 <= p < r.hwTail ==> p in r.log
  }

  lemma TailRead(s: Ring, c: int)
    requires Inv(s, c)
    ensures ReadTail(Bits32, Project(s)).tail == s.hwTail % WRAP
  {
    hide Pow2, Inv;
    ReadTailKeeps(s, c);
    ReadTailRefines(s);
  }

  lemma {:induction false} CleanEndStops(r: Ring, c: U32)
    requires Shaped(r) && 0 <= r.tail < WRAP
    ensures !CanClean(r, CleanEnd(Bits32, r, c))
    decreases Distance(Bits32, r, c)
  {
    hide Pow2, CleanEnd, Distance;
    CleanNext(r, c);
    if CanClean(r, c) {
      Closer(r, c);
      CleanEndStops(r, Wrap(Bits32, c + 1));
    }
  }

  lemma CleanAtTail(t: Ring)
    requires Inv(t, t.clean) && AllCompleted(t)
    requires t.cqTail % WRAP == |t.log| % WRAP && t.tail % WRAP == t.hwTail % WRAP
    requires Shaped(Project(t)) && !CanClean(Project(t), t.clean % WRAP)
    ensures t.clean == t.hwTail
  {
    CompletionsApart(t, t.clean);
    WrapDiff(|t.log|, t.cqTail);
    InvShape(t, t.clean);
    WrapDiff(t.hwTail, t.tail);
    CleanRefines(t, t.clean);
    CleanStops(t, t.clean);
    assert t.log[..t.cqTail] == t.log;
  }

  lemma HeadRead(s: Ring, c: int) returns (r: Ring)
    requires Inv(s, c)
    ensures r == ReadCqHead(Bits32, Project(s)) == Project(s.(cqHead := |s.log|)) && Shaped(r) && Inv(s.(cqHead := |s.log|), c)
  {
    ReadCqHeadKeeps(s, c);
    ReadCqHeadRefines(s);
    r := Project(s.(cqHead := |s.log|));
  }

  lemma CompletionsApart(s: Ring, c: int)
    requires Inv(s, c)
    ensures 0 <= s.cqTail <= |s.log| < s.cqTail + WRAP
  {
    hide Pow2;
    SizeBound(s.logCqSize);
  }

  lemma {:induction false} TakesAllPages(s: Ring, c: int, budget: nat, skbs: nat)
    requires Inv(s, c) && s.cqHead - s.cqTail <= budget && s.cqHead - s.cqTail <= skbs
    ensures Shaped(Project(s))
    ensures var r := Project(s);
            TakePages(Bits32, r, budget, skbs) == r.(cqTail := r.cqHead, slots := TakePages(Bits32, r, budget, skbs).slots)
    decreases budget
  {
    InvShape(s, c);
    hide Pow2, Inv, TakePages, PopCpl, CplSlot;
    PopCplRefines(s, c);
    TakeNextPage(Project(s), budget, skbs);
    if s.cqHead != s.cqTail {
      PopCplKeeps(s, c);
      PopMoves(s);
      TakesAllPages(PopCpl(Unbounded, s), c, budget - 1, skbs - 1);
    }
  }

  lemma PopMoves(s: Ring)
    requires Shaped(s)
    ensures PopCpl(Unbounded, s) == s.(cqTail := s.cqTail + 1, slots := PopCpl(Unbounded, s).slots)
  {
  }

  lemma RxCleanedSettles(s: Ring, c: int, budget: nat, skbs: nat)
    requires Inv(s, c) && |s.log| - s.cqTail <= budget && |s.log| - s.cqTail <= skbs
    ensures Shaped(Project(s)) && Settled(RxCleaned(Bits32, Project(s), budget, skbs), s)
  {
    InvShape(s, c);
    hide Pow2, Inv, TakePages, CleanEnd, CanClean, ReadCqHead, ReadTail, WriteCqTail, Settled;
    var r := HeadRead(s, c);
    TakesAllPages(s.(cqHead := |s.log|), c, budget, skbs);
    TakenSettles(s, c, TakePages(Bits32, r, budget, skbs));
  }

  lemma RxPollSettles(s: Ring, c: int, budget: nat, skbs: nat, pages: seq<Option<Buf>>)
    requires Inv(s, c) && |s.log| - s.cqTail <= budget && |s.log| - s.cqTail <= skbs
    ensures Shaped(Project(s)) && Settled(RxPollEffect(Bits32, Project(s), budget, skbs, pages), s)
  {
    RxCleanedSettles(s, c, budget, skbs);
    hide Pow2, Inv, CanClean, Refilled, RxCleaned, StillHeld, Project;
    var cleaned := RxCleaned(Bits32, Project(s), budget, skbs);
    RefillLeaves(cleaned, pages);
    StaysBusy(cleaned, Refilled(Bits32, cleaned, pages));
  }

  lemma StaysBusy(r: Ring, t: Ring)
    requires Shaped(r) && Shaped(t) && StillHeld(r, t) && t.tail == r.tail && t.clean == r.clean
    ensures !CanClean(r, r.clean) ==> !CanClean(t, t.clean)
  {
  }

  /** After a receive poll that has the budget and the skbs the NIC may go on completing. */
  lemma RxPollReopens(s: R.Rx, budget: nat, skbs: nat, pages: seq<Option<Buf>>, p: nat)
    requires R.RxInv(s) && p < s.ring.hwTail && p !in s.ring.log
    requires |s.ring.log| - s.ring.cqTail <= budget && |s.ring.log| - s.ring.cqTail <= skbs
    ensures Shaped(Project(s.ring)) && CanComplete(RxPollEffect(Bits32, Project(s.ring), budget, skbs, pages), p)
  {
    RxPollSettles(s.ring, R.Local(s), budget, skbs, pages);
    hide Pow2, Inv, RxPollEffect;
    RoomToComplete(RxPollEffect(Bits32, Project(s.ring), budget, skbs, pages), p);
  }

  /** And a receive poll that has the skbs cleans the ring up to the last descriptor fetched. */
  lemma RxPollCleans(s: R.Rx, budget: nat, skbs: nat, pages: seq<Option<Buf>>)
    requires R.RxInv(s) && s.poll.Idle? && AllCompleted(s.ring)
    requires |s.ring.log| - s.ring.cqTail <= budget && |s.ring.log| - s.ring.cqTail <= skbs
    ensures Shaped(Project(s.ring))
    ensures RxPollEffect(Bits32, Project(s.ring), budget, skbs, pages).clean == s.ring.hwTail % WRAP
  {
    RxIdleInv(s);
    RxPollSettles(s.ring, s.ring.clean, budget, skbs, pages);
    hide Pow2, Inv, R.RxInv, RxPollEffect, CanClean;
    var t := RxPollKeepsInv(s, budget, skbs, pages);
    RxIdleInv(t);
    CleanAtTail(t.ring);
  }

  lemma RxIdleInv(t: R.Rx)
    requires R.RxInv(t) && t.poll.Idle?
    ensures Inv(t.ring, t.ring.clean) && Shaped(t.ring)
  {
  }

  ghost predicate StillHeld(r: Ring, t: Ring) {
    |t.slots| == |r.slots| && forall i :: 0 <= i < |r.slots| && r.slots[i].Some? ==> t.slots[i].Some?
  }

  lemma RefillLeaves(r: Ring, pages: seq<Option<Buf>>)
    requires Shaped(r)
    ensures var t := Refilled(Bits32, r, pages);
            t == r.(head := t.head, headReg := t.headReg, slots := t.slots) && StillHeld(r, t)
  {
    hide Pow2, FillAll;
    if R.Missing(Bits32, r) >= 8 { FillLeaves(r, pages, R.Missing(Bits32, r)); }
  }

  lemma {:induction false} FillLeaves(r: Ring, pages: seq<Option<Buf>>, wanted: nat)
    requires Shaped(r)
    ensures var t := FillAll(Bits32, r, pages, wanted);
            t == r.(head := t.head, headReg := t.headReg, slots := t.slots) && StillHeld(r, t)
    decreases wanted
  {
    hide Pow2;
    if wanted > 0 && pages != [] && pages[0].Some? && r.slots[r.head % r.Size()].None? {
      FillLeaves(Fill(Bits32, r, pages[0].value), pages[1..], wanted - 1);
    }
  }
}
