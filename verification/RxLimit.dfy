/** Why a receive ring has at most 2^15 entries.  The first refill of a ring of 2^16 fills it; the 16-bit
    head register then reads as it did when the ring was empty, and the NIC never fetches anything. */
module RxLimit {
  import opened Bits
  import opened Common
  import opened Ring
  import opened RxQueue
  import opened RingRuns

  /** A ring of 2^16 entries with all of them posted and none fetched, as far as the poll can see. */
  ghost predicate Stuck(s: Rx) {
    var r := s.ring;
    && Shaped(r) && r.Size() == REGS
    && r.head == REGS && r.headReg == 0
    && r.hwTail == r.tail == r.clean == 0 && r.log == []
    && r.cqHead == r.cqTail == r.cqTailReg == 0
    && (s.poll.Clean? ==> s.poll.c == 0) && !s.poll.Refill? && !s.poll.Doorbell?
  }

  /** Refilling an empty ring up to its size. */
  lemma {:induction false} FillUp(s: Rx, page: Buf) returns (actions: seq<Action>)
    requires Shaped(s.ring) && s.ring.Size() == REGS && s.poll.Refill?
    requires 0 <= s.ring.head && s.ring.head + s.poll.missing == REGS
    requires forall p :: s.ring.head <= p < REGS ==> s.ring.slots[p].None?
    ensures Legal(Bits32, s, actions)
    ensures var t := Run(Bits32, s, actions);
            t.poll.Doorbell? && t.ring == s.ring.(head := REGS, slots := t.ring.slots)
    decreases s.poll.missing
  {
    hide Pow2, Legal, Run;
    var a := PollStep(false, Some(page));
    var next := Step(Bits32, s, a);
    RxOneStep(s, a);
    if s.poll.missing == 0 {
      actions := [a];
    } else {
      var rest := FillUp(next, page);
      actions := RxPrepend(s, a, rest);
    }
  }

  lemma FirstRefill(logCqSize: nat, page: Buf) returns (actions: seq<Action>)
    ensures Legal(Bits32, Start(16, logCqSize), actions)
    ensures var t := Run(Bits32, Start(16, logCqSize), actions);
            Stuck(t) && t.poll.Idle? && t.ring.head == REGS
  {
    hide Pow2, Legal, Run;
    Pow2Of15();
    var s := Start(16, logCqSize);
    var a := PollStep(false, None);
    var s1 := Step(Bits32, s, a);
    var fill := FillUp(s1, page);
    var s2 := Run(Bits32, s1, fill);
    RxOneStep(s2, a);
    RxRunAppend(s1, fill, [a]);
    actions := RxPrepend(s, a, fill + [a]);
  }

  lemma StuckStep(s: Rx, a: Action)
    requires Stuck(s) && Enabled(s, a)
    ensures Stuck(Step(Bits32, s, a)) && Step(Bits32, s, a).ring == s.ring
  {
    hide Pow2;
  }

  /** Whatever happens from then on, no descriptor is fetched and the ring stays as it is. */
  lemma {:induction false} StaysStuck(s: Rx, actions: seq<Action>)
    requires Stuck(s) && Legal(Bits32, s, actions)
    ensures Run(Bits32, s, actions).ring == s.ring && !CanFetch(s.ring)
    decreases |actions|
  {
    hide Pow2, Step, Enabled;
    if actions != [] {
      StuckStep(s, actions[0]);
      StaysStuck(Step(Bits32, s, actions[0]), actions[1..]);
    }
  }

  /** With 2^16 entries and no failing allocation, reception never starts. */
  lemma NeverReceives(logCqSize: nat, page: Buf) returns (first: seq<Action>)
    ensures Legal(Bits32, Start(16, logCqSize), first)
    ensures var t := Run(Bits32, Start(16, logCqSize), first);
            t.poll.Idle? && t.ring.head == REGS &&
            forall more :: Legal(Bits32, t, more) ==> Run(Bits32, t, more).ring == t.ring && !CanFetch(t.ring)
  {
    hide Pow2, Legal, Run, Stuck;
    first := FirstRefill(logCqSize, page);
    var t := Run(Bits32, Start(16, logCqSize), first);
    forall more | Legal(Bits32, t, more) ensures Run(Bits32, t, more).ring == t.ring && !CanFetch(t.ring) {
      StaysStuck(t, more);
    }
  }
}
