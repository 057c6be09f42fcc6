/** The firmware of the intrusion detection core: it classifies TCP packets against a flow table, parks
    segments that arrive early, feeds payloads to the matcher, and updates the flow when the matcher has
    finished a packet. */
module Pigasus {
  import opened Bits
  import opened Common

  const MAX_CTX_COUNT: nat := 32
  const REORDER_LIMIT: nat := 16
  const FLOWS: nat := 0x8000
  const TCP_PAYLOAD_OFFSET: nat := 54

  /** A flow table index: the upper half of the hash, halved. */
  type FlowId = x: nat | x < FLOWS

  // Classification

  /** An entry of the flow table; a status of zero marks a clean entry. */
  datatype Flow = Flow(tag: nat, ts: nat, expSeq: U32, status: nat, state: nat)

  datatype Verdict = Fresh | Collision | InOrder | Early | OutOfWindow

  /** Not from the entry's recent past: 16-bit clocks, compared without wrap-around. */
  predicate TimedOut(now: nat, since: nat, limit: nat) {
    now < since || now - since > limit
  }

  function Classify(flow: Flow, tag: nat, now: nat, cur: U32): (v: Verdict) {
    if flow.status == 0 then Fresh
    else if TimedOut(now, flow.ts, 4) then Fresh
    else if tag != flow.tag then Collision
    else if cur == flow.expSeq then InOrder
    else if cur > (flow.expSeq + 30000) % WRAP || cur < flow.expSeq then OutOfWindow
    else Early
  }

  /** The hardware form of the classification and its return codes. */
  function HdrParser(oldTag: nat, oldTs: nat, expSeq: U32, curTag: nat, curTs: nat, curSeq: U32, status: nat): (code: nat) {
    if status == 0 then 1
    else if curTs < oldTs || curTs - oldTs > 4 then 1
    else if curTag != oldTag then 2
    else if curSeq == expSeq then 3
    else if curSeq > (expSeq + 30000) % WRAP || curSeq < expSeq then 0
    else 4
  }

  lemma HardwareAgrees(flow: Flow, tag: nat, now: nat, cur: U32)
    ensures var code := HdrParser(flow.tag, flow.ts, flow.expSeq, tag, now, cur, flow.status);
            && (code == 1 <==> Classify(flow, tag, now, cur).Fresh?)
            && (code == 2 <==> Classify(flow, tag, now, cur).Collision?)
            && (code == 3 <==> Classify(flow, tag, now, cur).InOrder?)
            && (code == 0 <==> Classify(flow, tag, now, cur).OutOfWindow?)
            && (code == 4 <==> Classify(flow, tag, now, cur).Early?)
  {
  }

  /** For a live entry of the same flow, a segment counts as early exactly when it starts less than
      30000 ahead and that window does not run over the end of the sequence space. */
  lemma EarlyExactly(flow: Flow, tag: nat, now: nat, cur: U32)
    requires flow.status != 0 && !TimedOut(now, flow.ts, 4) && tag == flow.tag
    ensures Classify(flow, tag, now, cur).Early? <==>
              0 < (cur - flow.expSeq) % WRAP <= 30000 && flow.expSeq + 30000 < WRAP
  {
  }

  // What is fed and finished, flow entry by flow entry

  /** A payload given to the matcher, up to the sequence number where its flow continues: at a restart of
      the flow, out of the reorder set, or neither; or the matcher done with one, the last of a connection
      if it has FIN. */
  datatype Event =
    | Fed(flow: nat, seqNum: U32, end: U32, restart: bool, released: bool)
    | Done(flow: nat, end: U32, fin: bool)

  type Log = seq<Event>

  /** Where entry f continues: after the payload finished last. */
  ghost function Expected(log: Log, init: seq<U32>, f: nat): U32
    requires f < |init|
  {
    if log == [] then init[f]
    else
      var e := log[|log| - 1];
      if e.Done? && e.flow == f then e.end else Expected(log[..|log| - 1], init, f)
  }

  /** Ends of the payloads of entry f in the matcher. */
  ghost function Open(log: Log, f: nat): multiset<U32> {
    if log == [] then multiset{}
    else
      var e, before := log[|log| - 1], Open(log[..|log| - 1], f);
      if e.flow != f then before
      else if e.Fed? then before + multiset{e.end} else before - multiset{e.end}
  }

  /** End of the payload of entry f fed last. */
  ghost function LastFed(log: Log, f: nat): Option<U32> {
    if log == [] then None
    else
      var e := log[|log| - 1];
      if e.Fed? && e.flow == f then Some(e.end) else LastFed(log[..|log| - 1], f)
  }

  /** The payload of entry f finished last was the last of its connection. */
  ghost predicate FinDone(log: Log, f: nat) {
    log != [] &&
    var e := log[|log| - 1];
    if e.Done? && e.flow == f then e.fin else FinDone(log[..|log| - 1], f)
  }

  ghost predicate EventOk(before: Log, init: seq<U32>, e: Event) {
    && e.flow < |init|
    && (e.Fed? && !e.restart && !e.released ==> !FinDone(before, e.flow))
    && (e.Fed? && !e.restart ==> e.seqNum == Expected(before, init, e.flow))
    && (e.Done? ==> e.end in Open(before, e.flow))
  }

  /** Every payload fed without a restart starts where the payload finished last ended. */
  ghost predicate LogOk(log: Log, init: seq<U32>) {
    forall i :: 0 <= i < |log| ==> EventOk(log[..i], init, log[i])
  }

  lemma LogAppend(log: Log, init: seq<U32>, e: Event)
    requires LogOk(log, init) && EventOk(log, init, e)
    ensures LogOk(log + [e], init)
    ensures forall f: nat :: f < |init| ==>
              Expected(log + [e], init, f) == if e.Done? && e.flow == f then e.end else Expected(log, init, f)
    ensures forall f: nat :: Open(log + [e], f) ==
              if e.flow != f then Open(log, f)
              else if e.Fed? then Open(log, f) + multiset{e.end} else Open(log, f) - multiset{e.end}
    ensures forall f: nat :: FinDone(log + [e], f) <==> if e.Done? && e.flow == f then e.fin else FinDone(log, f)
  {
    assert (log + [e])[..|log|] == log;
    forall i | 0 <= i < |log| + 1 ensures EventOk((log + [e])[..i], init, (log + [e])[i]) {
      if i < |log| { assert (log + [e])[..i] == log[..i]; }
    }
  }

  /** Ends of the payloads of entry f in the matcher, in the order they were fed. */
  ghost function Pending(log: Log, f: nat): seq<U32> {
    if log == [] then []
    else
      var e, before := log[|log| - 1], Pending(log[..|log| - 1], f);
      if e.flow != f then before
      else if e.Fed? then before + [e.end]
      else if before != [] then before[1..] else []
  }

  ghost predicate NextDone(before: Log, e: Event, f: nat) {
    e.Done? && e.flow == f ==> Pending(before, f) != [] && e.end == Pending(before, f)[0]
  }

  /** The matcher finishes the payloads of entry f in the order they were fed. */
  ghost predicate Fifo(log: Log, f: nat) {
    forall i :: 0 <= i < |log| ==> NextDone(log[..i], log[i], f)
  }

  /** At no time two payloads of entry f in the matcher. */
  ghost predicate Serial(log: Log, f: nat) {
    forall i :: 0 <= i <= |log| ==> |Open(log[..i], f)| <= 1
  }

  lemma Prefixes<T>(log: seq<T>, n: nat)
    requires n <= |log|
    ensures forall i :: 0 <= i <= n ==> log[..n][..i] == log[..i]
  {
  }

  lemma FifoPrefix(log: Log, f: nat, n: nat)
    requires Fifo(log, f) && n <= |log|
    ensures Fifo(log[..n], f)
  {
    hide NextDone;
    Prefixes(log, n);
  }

  lemma {:induction false} FifoOpen(log: Log, f: nat)
    requires Fifo(log, f)
    ensures Open(log, f) == multiset(Pending(log, f))
    decreases |log|
  {
    if log != [] {
      var n := |log| - 1;
      var e, q := log[n], Pending(log[..n], f);
      FifoPrefix(log, f, n);
      FifoOpen(log[..n], f);
      assert NextDone(log[..n], e, f);
      if e.Done? && e.flow == f {
        assert q == [q[0]] + q[1..];
      }
    }
  }

  /** The payload fed last is the youngest in the matcher or, with none in there, is where the entry
      stands. */
  lemma {:induction false} FifoState(log: Log, init: seq<U32>, f: nat)
    requires f < |init| && Fifo(log, f)
    ensures LastFed(log, f).None? ==> Pending(log, f) == []
    ensures LastFed(log, f).Some? ==>
              var v, q := LastFed(log, f).value, Pending(log, f);
              if q == [] then Expected(log, init, f) == v else q[|q| - 1] == v
    decreases |log|
  {
    if log != [] {
      var n := |log| - 1;
      FifoPrefix(log, f, n);
      FifoState(log[..n], init, f);
      assert NextDone(log[..n], log[n], f);
      hide Fifo;
    }
  }

  /** After the end of a connection its entry is fed only at a restart, or out of the reorder set. */
  ghost predicate FreshAfterFin(log: Log) {
    forall j :: 0 <= j < |log| && log[j].Fed? && FinDone(log[..j], log[j].flow) ==> log[j].restart || log[j].released
  }

  lemma LogFresh(log: Log, init: seq<U32>)
    requires LogOk(log, init)
    ensures FreshAfterFin(log)
  {
    forall j | 0 <= j < |log| && log[j].Fed? && FinDone(log[..j], log[j].flow)
      ensures log[j].restart || log[j].released
    {
      assert EventOk(log[..j], init, log[j]);
    }
  }

  /** A payload fed in order continues the one fed before it. */
  ghost predicate InSequenceAt(log: Log, f: nat, j: nat)
    requires j < |log|
  {
    log[j].Fed? && log[j].flow == f && !log[j].restart && LastFed(log[..j], f).Some? ==>
      log[j].seqNum == LastFed(log[..j], f).value
  }

  ghost predicate InSequence(log: Log, f: nat) {
    forall j :: 0 <= j < |log| ==> InSequenceAt(log, f, j)
  }

  /** With a matcher that keeps the order, a payload fed in order continues the one fed before it exactly
      when no payload of its entry is in the matcher, or the youngest in there ends where the entry
      stands already. */
  lemma ContiguousIff(log: Log, init: seq<U32>, f: nat, j: nat)
    requires f < |init| && LogOk(log, init) && j < |log| && Fifo(log[..j], f)
    requires log[j].Fed? && log[j].flow == f && !log[j].restart && LastFed(log[..j], f).Some?
    ensures var q := Pending(log[..j], f);
            InSequenceAt(log, f, j) <==> q == [] || q[|q| - 1] == Expected(log[..j], init, f)
    ensures Open(log[..j], f) == multiset(Pending(log[..j], f))
    ensures Open(log[..j], f) == multiset{} ==> InSequenceAt(log, f, j)
  {
    assert EventOk(log[..j], init, log[j]);
    FifoState(log[..j], init, f);
    FifoOpen(log[..j], f);
    var q := Pending(log[..j], f);
    assert q != [] ==> q[0] in multiset(q);
  }

  /** One payload at a time is an order of its own. */
  lemma {:induction false} SerialIsFifo(log: Log, init: seq<U32>, f: nat)
    requires f < |init| && LogOk(log, init) && Serial(log, f)
    ensures Fifo(log, f)
    decreases |log|
  {
    if log != [] {
      var n := |log| - 1;
      var front, e := log[..n], log[n];
      Prefixes(log, n);
      SerialIsFifo(front, init, f);
      FifoOpen(front, f);
      assert EventOk(front, init, e);
      if e.Done? && e.flow == f {
        OnlyOne(Pending(front, f), e.end);
      }
      forall i | 0 <= i < |log| ensures NextDone(log[..i], log[i], f) {
        if i < n { assert front[..i] == log[..i] && front[i] == log[i]; }
      }
    }
  }

  lemma OnlyOne(q: seq<U32>, x: U32)
    requires x in multiset(q) && |multiset(q)| <= 1
    ensures q == [x]
  {
  }

  /** While no two payloads of an entry are in the matcher at once, the payloads fed between restarts
      are contiguous: each starts where the one fed before it ends. */
  lemma Contiguous(log: Log, init: seq<U32>, f: nat)
    requires f < |init| && LogOk(log, init) && Serial(log, f)
    ensures InSequence(log, f)
  {
    hide LogOk, Fifo;
    SerialIsFifo(log, init, f);
    forall j | 0 <= j < |log| ensures InSequenceAt(log, f, j) {
      if log[j].Fed? && log[j].flow == f && !log[j].restart && LastFed(log[..j], f).Some? {
        FifoPrefix(log, f, j);
        ContiguousIff(log, init, f, j);
        assert log[..j + 1][..j] == log[..j];
        assert |Open(log[..j + 1], f)| <= 1;
        RoomForOne(Open(log[..j], f), log[j].end);
      }
    }
  }

  lemma RoomForOne(open: multiset<U32>, x: U32)
    requires |open + multiset{x}| <= 1
    ensures open == multiset{}
  {
    assert |open + multiset{x}| == |open| + 1;
  }

  // Where the packet slots are

  /** A payload in the matcher: its flow entry and where the flow continues after it. */
  datatype Job = Job(flow: nat, end: U32)

  /** A slot is with the load balancer, being handled, parked, or in the matcher (with a job if it is
      TCP). */
  datatype Place = Balancer | Handling | Parked | Matching(job: Option<Job>)

  function Ends(p: Place, f: nat): multiset<U32> {
    if p.Matching? && p.job.Some? && p.job.value.flow == f then multiset{p.job.value.end} else multiset{}
  }

  /** Ends of the payloads of entry f among the slots in the matcher. */
  ghost function AllEnds(places: seq<Place>, f: nat): multiset<U32> {
    if places == [] then multiset{} else Ends(places[0], f) + AllEnds(places[1..], f)
  }

  lemma {:induction false} AllEndsTake(places: seq<Place>, i: nat, f: nat)
    requires i < |places|
    ensures AllEnds(places, f) == AllEnds(places[i := Balancer], f) + Ends(places[i], f)
  {
    if i > 0 {
      assert places[i := Balancer][1..] == places[1..][i - 1 := Balancer];
      AllEndsTake(places[1..], i - 1, f);
      var rest := AllEnds(places[1..][i - 1 := Balancer], f);
      assert Ends(places[0], f) + (rest + Ends(places[i], f)) == Ends(places[0], f) + rest + Ends(places[i], f);
    } else {
      assert places[i := Balancer][1..] == places[1..];
    }
  }

  lemma AllEndsUpdate(places: seq<Place>, i: nat, p: Place, f: nat)
    requires i < |places|
    ensures AllEnds(places, f) == AllEnds(places[i := Balancer], f) + Ends(places[i], f)
    ensures AllEnds(places[i := p], f) == AllEnds(places[i := Balancer], f) + Ends(p, f)
  {
    hide AllEnds, Ends;
    AllEndsTake(places, i, f);
    AllEndsTake(places[i := p], i, f);
    assert places[i := p][i := Balancer] == places[i := Balancer];
  }

  function ParkedCount(places: seq<Place>): nat {
    if places == [] then 0 else (if places[0].Parked? then 1 else 0) + ParkedCount(places[1..])
  }

  lemma {:induction false} ParkedUpdate(places: seq<Place>, i: nat, p: Place)
    requires i < |places|
    ensures ParkedCount(places[i := p])
         == ParkedCount(places) - (if places[i].Parked? then 1 else 0) + (if p.Parked? then 1 else 0)
  {
    if i > 0 {
      assert places[i := p][1..] == places[1..][i - 1 := p];
      ParkedUpdate(places[1..], i - 1, p);
    } else {
      assert places[i := p][1..] == places[1..];
    }
  }

  /** The bitmap holds the parked slots and nothing else. */
  ghost predicate MaskOk(mask: nat, places: seq<Place>) {
    forall i: nat :: Bit(mask, i) <==> i < |places| && places[i].Parked?
  }

  function SetMask(i: nat): nat { Shl(1, i) }

  function ResetMask(i: nat): nat
    requires i < 32
  {
    AllButBit(32, i, 0);
    Pow2(32) - 1 - Pow2(i)
  }

  lemma {:induction false} Unparked(places: seq<Place>)
    ensures ParkedCount(places) == 0 <==> forall i :: 0 <= i < |places| ==> !places[i].Parked?
  {
    if places != [] {
      Unparked(places[1..]);
      assert forall i :: 0 <= i < |places| - 1 ==> places[1..][i] == places[i + 1];
      assert forall i :: 0 < i < |places| ==> places[i] == places[1..][i - 1];
    }
  }

  lemma EmptyMask(mask: nat, places: seq<Place>)
    requires MaskOk(mask, places)
    ensures mask != 0 <==> ParkedCount(places) != 0
  {
    Unparked(places);
    if mask == 0 {
      forall i: nat ensures !Bit(mask, i) { ZeroBit(i); }
    } else {
      var i := SomeBit(mask);
    }
  }

  lemma MaskSet(mask: nat, places: seq<Place>, i: nat)
    requires MaskOk(mask, places) && i < |places|
    ensures MaskOk(Or(mask, SetMask(i)), places[i := Parked])
  {
    forall j: nat ensures Bit(Or(mask, SetMask(i)), j) <==> j < |places| && places[i := Parked][j].Parked? {
      OrBit(mask, SetMask(i), j);
      ShlOne(i);
      PowBit(i, j);
    }
  }

  lemma MaskReset(mask: nat, places: seq<Place>, i: nat, p: Place)
    requires MaskOk(mask, places) && i < |places| <= 32 && !p.Parked?
    ensures MaskOk(And(mask, ResetMask(i)), places[i := p])
  {
    hide Bit, And, Pow2;
    forall j: nat ensures Bit(And(mask, ResetMask(i)), j) <==> j < |places| && places[i := p][j].Parked? {
      AndBit(mask, ResetMask(i), j);
      AllButBit(32, i, j);
    }
  }

  /** The shifted mask stays within 32 bits until the scan is past the last slot. */
  lemma NextMask(slot: nat)
    ensures slot < 31 ==> 2 * Shl(1, slot) % WRAP == Shl(1, slot + 1)
  {
    if slot < 31 {
      ShlOne(slot + 1);
      Pow2Monotone(slot + 1, 31);
      Pow2Of31();
    }
  }

  lemma Pow2Of31()
    ensures Pow2(31) == WRAP / 2
  {
    assert Pow2(5) == 32;
    Pow2Add(5, 5);
    Pow2Add(10, 5);
    Pow2Add(15, 15);
  }

  /** A move of a slot that was not and will not be parked leaves the bitmap right. */
  lemma MaskSame(mask: nat, places: seq<Place>, i: nat, p: Place)
    requires MaskOk(mask, places) && i < |places| && !p.Parked? && !places[i].Parked?
    ensures MaskOk(mask, places[i := p])
  {
  }

  // The invariant, part by part

  datatype Context = Context(
    flowId: FlowId, tag: nat, status: nat, reorderTs: nat, seqNum: U32, payloadLen: U32,
    syn: bool, fin: bool, isTcp: bool, matchCnt: nat, toHost: bool)

  function EndOf(c: Context): U32 {
    (c.seqNum + c.payloadLen + (if c.syn then 1 else 0)) % WRAP
  }

  /** The context of a parked slot is that of a TCP packet; that of a slot in the matcher gives its job. */
  ghost predicate ContextOk(c: Context, p: Place) {
    && (p.Parked? ==> c.isTcp)
    && (p.Matching? ==> p.job == if c.isTcp then Some(Job(c.flowId, EndOf(c))) else None)
  }

  ghost predicate ContextsOk(contexts: seq<Context>, places: seq<Place>) {
    |contexts| == |places| && forall i :: 0 <= i < |places| ==> ContextOk(contexts[i], places[i])
  }

  /** A packet sent back to the load balancer; a dropped one has length zero. */
  datatype Sent = Sent(slot: nat, dropped: bool, toHost: bool)

  /** How often slot i was sent back. */
  function Sends(sent: seq<Sent>, i: nat): nat {
    if sent == [] then 0
    else Sends(sent[..|sent| - 1], i) + if sent[|sent| - 1].slot == i then 1 else 0
  }

  /** Every arrival of a slot was answered by one send, or the slot is still held. */
  ghost predicate TagsOk(arrived: seq<nat>, sent: seq<Sent>, places: seq<Place>) {
    && |arrived| == |places|
    && forall i :: 0 <= i < |places| ==> arrived[i] == Sends(sent, i) + if places[i].Balancer? then 0 else 1
  }

  lemma TagsSend(arrived: seq<nat>, sent: seq<Sent>, places: seq<Place>, s: Sent)
    requires TagsOk(arrived, sent, places) && s.slot < |places| && !places[s.slot].Balancer?
    ensures TagsOk(arrived, sent + [s], places[s.slot := Balancer])
  {
    assert (sent + [s])[..|sent|] == sent;
  }

  /** The log accounts for the expected sequence numbers and for the jobs in the matcher. */
  ghost predicate TableOk(log: Log, init: seq<U32>, flows: seq<Flow>, places: seq<Place>) {
    && |init| == |flows| == FLOWS
    && LogOk(log, init)
    && (forall f :: 0 <= f < FLOWS ==> flows[f].expSeq == Expected(log, init, f))
    && (forall f: nat :: AllEnds(places, f) == Open(log, f))
    && (forall f :: 0 <= f < FLOWS && FinDone(log, f) ==> flows[f].status == 0)
  }

  lemma AtStart(places: seq<Place>, init: seq<U32>, flows: seq<Flow>)
    requires forall i :: 0 <= i < |places| ==> places[i].Balancer?
    requires |init| == |flows| == FLOWS && forall f :: 0 <= f < FLOWS ==> init[f] == flows[f].expSeq
    ensures MaskOk(0, places) && ParkedCount(places) == 0 && TableOk([], init, flows, places)
  {
    forall i: nat ensures !Bit(0, i) { ZeroBit(i); }
    Unparked(places);
    forall f: nat ensures AllEnds(places, f) == multiset{} { NoneMatching(places, f); }
  }

  lemma {:induction false} NoneMatching(places: seq<Place>, f: nat)
    requires forall i :: 0 <= i < |places| ==> places[i].Balancer?
    ensures AllEnds(places, f) == multiset{}
  {
    if places != [] { NoneMatching(places[1..], f); }
  }

  lemma TableSizes(log: Log, init: seq<U32>, flows: seq<Flow>, places: seq<Place>)
    requires TableOk(log, init, flows, places)
    ensures |init| == |flows| == FLOWS
  {
  }

  /** A move that starts and ends outside the matcher. */
  lemma TableMove(log: Log, init: seq<U32>, flows: seq<Flow>, places: seq<Place>, i: nat, p: Place)
    requires TableOk(log, init, flows, places) && i < |places|
    requires !(places[i].Matching? && places[i].job.Some?) && !(p.Matching? && p.job.Some?)
    ensures TableOk(log, init, flows, places[i := p])
  {
    hide LogOk, Expected, Open, FinDone;
    forall f: nat ensures AllEnds(places[i := p], f) == Open(log, f) {
      AllEndsUpdate(places, i, p, f);
    }
  }

  /** A change of the table that keeps the expected sequence numbers. */
  lemma TableTag(log: Log, init: seq<U32>, flows: seq<Flow>, flows': seq<Flow>, places: seq<Place>)
    requires TableOk(log, init, flows, places) && |flows'| == |flows|
    requires forall f :: 0 <= f < |flows| ==> flows'[f].expSeq == flows[f].expSeq && flows'[f].status == flows[f].status
    ensures TableOk(log, init, flows', places)
  {
    hide LogOk, Expected, Open, AllEnds, FinDone;
  }

  lemma TableFeed(log: Log, init: seq<U32>, flows: seq<Flow>, places: seq<Place>, i: nat, c: Context, restart: bool, released: bool)
    requires TableOk(log, init, flows, places) && i < |places| && c.flowId < FLOWS
    requires !places[i].Matching?
    requires !restart ==> c.seqNum == flows[c.flowId].expSeq
    requires restart || released || flows[c.flowId].status != 0
    ensures TableOk(log + [Fed(c.flowId, c.seqNum, EndOf(c), restart, released)], init, flows,
                    places[i := Matching(Some(Job(c.flowId, EndOf(c))))])
  {
    hide LogOk, Expected, Open, EndOf, FinDone;
    var e, p := Fed(c.flowId, c.seqNum, EndOf(c), restart, released), Matching(Some(Job(c.flowId, EndOf(c))));
    LogAppend(log, init, e);
    forall f: nat ensures AllEnds(places[i := p], f) == Open(log + [e], f) {
      AllEndsUpdate(places, i, p, f);
    }
  }

  lemma TableDone(log: Log, init: seq<U32>, flows: seq<Flow>, places: seq<Place>, i: nat, job: Job, fin: bool, flow: Flow)
    requires TableOk(log, init, flows, places) && i < |places| && places[i] == Matching(Some(job))
    requires job.flow < FLOWS && flow.expSeq == job.end && (fin ==> flow.status == 0)
    ensures TableOk(log + [Done(job.flow, job.end, fin)], init, flows[job.flow := flow], places[i := Handling])
  {
    hide LogOk, Expected, Open, AllEnds, FinDone;
    var e := Done(job.flow, job.end, fin);
    DoneEnds(places, i, job, job.flow);
    LogAppend(log, init, e);
    forall f: nat ensures AllEnds(places[i := Handling], f) == Open(log + [e], f) {
      DoneEnds(places, i, job, f);
    }
  }

  lemma DoneEnds(places: seq<Place>, i: nat, job: Job, f: nat)
    requires i < |places| && places[i] == Matching(Some(job))
    ensures AllEnds(places[i := Handling], f)
         == if f == job.flow then AllEnds(places, f) - multiset{job.end} else AllEnds(places, f)
    ensures f == job.flow ==> job.end in AllEnds(places, f)
  {
    hide AllEnds;
    AllEndsUpdate(places, i, Handling, f);
    var rest := AllEnds(places[i := Balancer], f);
    assert AllEnds(places[i := Handling], f) == rest;
    assert rest + multiset{job.end} - multiset{job.end} == rest;
  }

  // The firmware

  datatype Packet = Packet(
    ipType: bool, version4: bool, tcp: bool, flowId: FlowId, tag: nat, seqNum: U32, len: nat, syn: bool, fin: bool)

  function PayloadLen(p: Packet): U32 {
    (p.len - TCP_PAYLOAD_OFFSET) % WRAP
  }

  /** Where the flow continues after the packet; SYN takes one sequence number. */
  function PacketEnd(p: Packet): U32 {
    (p.seqNum + PayloadLen(p) + if p.syn then 1 else 0) % WRAP
  }

  lemma EndOfPacket(p: Packet, c: Context)
    requires c == ContextOf(p, c.isTcp, c.status, c.reorderTs, c.toHost)
    ensures EndOf(c) == PacketEnd(p)
  {
  }

  function ContextOf(p: Packet, tcp: bool, status: nat, ts: nat, toHost: bool): Context {
    Context(p.flowId, p.tag, status, ts, p.seqNum, PayloadLen(p), p.syn, p.fin, tcp, 0, toHost)
  }

  /** What becomes of an arriving packet. */
  datatype Outcome = Dropped | ToHost | FeedTcp(restart: bool) | FeedUdp | Park

  function OutcomeOf(p: Packet, flow: Flow, parked: int, now: nat): Outcome {
    if !p.ipType || !p.version4 then Dropped
    else if !p.tcp then FeedUdp
    else match Classify(flow, p.tag, now, p.seqNum)
      case Fresh => FeedTcp(true)
      case Collision => ToHost
      case InOrder => FeedTcp(false)
      case OutOfWindow => Dropped
      case Early => if parked <= REORDER_LIMIT then Park else Dropped
  }

  /** An output of the matcher: a rule that matched, or zero at the end of the packet, with the state
      of the automaton. */
  datatype Match = Match(slot: nat, rule: nat, status: nat, state: nat)

  /** The flow entry after a packet is finished. */
  function FlowAfter(flow: Flow, c: Context, m: Match, now: nat): Flow {
    var f := if c.fin then flow.(status := 0)
             else if c.matchCnt != 0 then flow.(status := Or(m.status, 0x80), state := m.state)
             else flow.(status := m.status, state := m.state);
    f.(expSeq := EndOf(c), ts := now)
  }

  /** What a finished packet leaves in its flow entry: a connection that has ended leaves a clean entry, one
      with a match keeps bit 7 of the status, and the flow continues after the payload. */
  ghost predicate Written(flow: Flow, was: Flow, c: Context, m: Match, now: nat) {
    && (c.fin ==> flow.status == 0 && flow.state == was.state)
    && (!c.fin ==> flow.state == m.state)
    && (!c.fin && c.matchCnt == 0 ==> flow.status == m.status)
    && (!c.fin && c.matchCnt != 0 ==> forall i: nat :: Bit(flow.status, i) <==> i == 7 || Bit(m.status, i))
    && flow.expSeq == (c.seqNum + c.payloadLen + (if c.syn then 1 else 0)) % 0x1_0000_0000
    && flow.ts == now && flow.tag == was.tag
  }

  lemma FlowWritten(flow: Flow, c: Context, m: Match, now: nat)
    ensures Written(FlowAfter(flow, c, m, now), flow, c, m, now)
  {
    hide Bit, Or;
    forall i: nat ensures Bit(Or(m.status, 0x80), i) <==> i == 7 || Bit(m.status, i) {
      OrBit(m.status, 0x80, i);
      assert Pow2(7) == 0x80;
      PowBit(7, i);
    }
  }

  method WriteBack(flow: Flow, c: Context, m: Match, now: nat) returns (r: Flow)
    ensures r == FlowAfter(flow, c, m, now)
  {
    hide Or;
    r := flow;
    if c.fin {
      r := r.(status := 0);
    } else if c.matchCnt != 0 {
      r := r.(status := Or(m.status, 0x80));
      r := r.(state := m.state);
    } else {
      r := r.(status := m.status, state := m.state);
    }
    if c.syn {
      r := r.(expSeq := (c.seqNum + c.payloadLen + 1) % WRAP);
    } else {
      r := r.(expSeq := (c.seqNum + c.payloadLen) % WRAP);
    }
    r := r.(ts := now);
  }

  /** How many of the outputs are rules matched in slot s. */
  function Hits(ms: seq<Match>, s: nat): nat {
    if ms == [] then 0 else Hits(ms[..|ms| - 1], s) + if ms[|ms| - 1].slot == s then 1 else 0
  }

  /** The contexts after the outputs were counted. */
  function Tally(contexts: seq<Context>, ms: seq<Match>): seq<Context> {
    seq(|contexts|, s requires 0 <= s < |contexts| =>
      var c := contexts[s];
      c.(matchCnt := c.matchCnt + Hits(ms, s), toHost := c.toHost || Hits(ms, s) > 0))
  }

  lemma TallyNone(contexts: seq<Context>, none: seq<Match>)
    requires none == []
    ensures Tally(contexts, none) == contexts
  {
  }

  lemma TallyStep(contexts: seq<Context>, ms: seq<Match>, k: nat)
    requires k < |ms| && ms[k].slot < |contexts|
    ensures var before := Tally(contexts, ms[..k]);
            var c := before[ms[k].slot];
            Tally(contexts, ms[..k + 1]) == before[ms[k].slot := c.(matchCnt := c.matchCnt + 1, toHost := true)]
  {
    assert ms[..k + 1][..k] == ms[..k];
  }

  /** An output about a slot that is in the matcher. */
  predicate Current(m: Match, places: seq<Place>) {
    m.slot < |places| && places[m.slot].Matching?
  }

  /** The outputs before the first end of packet. */
  function Leading(ms: seq<Match>, places: seq<Place>): (k: nat)
    ensures k <= |ms|
    ensures forall i :: 0 <= i < k ==> Current(ms[i], places) && ms[i].rule != 0
    ensures k < |ms| ==> !Current(ms[k], places) || ms[k].rule == 0
  {
    if ms == [] || !Current(ms[0], places) || ms[0].rule == 0 then 0 else 1 + Leading(ms[1..], places)
  }

  lemma LeadingIs(ms: seq<Match>, places: seq<Place>, k: nat)
    requires k <= |ms|
    requires forall i :: 0 <= i < k ==> Current(ms[i], places) && ms[i].rule != 0
    requires k < |ms| ==> !Current(ms[k], places) || ms[k].rule == 0
    ensures Leading(ms, places) == k
  {
  }

  /** The slot whose packet the matcher finishes with these outputs. */
  function Ending(ms: seq<Match>, places: seq<Place>): (slot: Option<nat>)
    ensures slot.Some? ==> slot.value < |places| && places[slot.value].Matching?
  {
    var k := Leading(ms, places);
    if k < |ms| && Current(ms[k], places) then Some(ms[k].slot) else None
  }

  datatype Arrival = Arrival(slot: nat, packet: Packet)

  /** What the main loop finds in one pass: a packet, matcher outputs, and the clocks. */
  datatype Input = Input(arrival: Option<Arrival>, matches: seq<Match>, now: nat, fineNow: nat)

  // What the firmware computes

  /** The firmware's state as a value; parked is the count of parked slots, scan the slot that the reorder
      scan is at. */
  datatype State = State(
    contexts: seq<Context>, flows: seq<Flow>, places: seq<Place>, sent: seq<Sent>, parked: int, scan: nat,
    arrived: seq<nat>, log: Log)

  predicate Sized(s: State) {
    |s.contexts| == |s.arrived| == |s.places| > s.scan && |s.flows| == FLOWS
  }

  function Reset(slotCount: nat, flows: seq<Flow>): State {
    State(seq(slotCount, _ => Context(0, 0, 0, 0, 0, 0, false, false, false, 0, false)), flows,
          seq(slotCount, _ => Balancer), [], 0, 0, seq(slotCount, _ => 0), [])
  }

  /** The packet p, whose context is in place, meets its outcome. */
  function Settle(s: State, slot: nat, p: Packet, o: Outcome, fineNow: nat): (t: State)
    requires Sized(s) && slot < |s.places|
    ensures Sized(t) && |t.places| == |s.places|
  {
    var c := s.contexts[slot];
    match o
    case Dropped => s.(places := s.places[slot := Balancer], sent := s.sent + [Sent(slot, true, c.toHost)])
    case ToHost =>
      s.(places := s.places[slot := Balancer], sent := s.sent + [Sent(slot, false, true)],
         contexts := s.contexts[slot := c.(toHost := true)])
    case FeedTcp(restart) =>
      s.(places := s.places[slot := Matching(Some(Job(p.flowId, PacketEnd(p))))],
         log := s.log + [Fed(p.flowId, p.seqNum, PacketEnd(p), restart, false)],
         flows := if restart then s.flows[p.flowId := s.flows[p.flowId].(tag := p.tag)] else s.flows)
    case FeedUdp => s.(places := s.places[slot := Matching(None)])
    case Park =>
      s.(places := s.places[slot := Parked], parked := s.parked + 1,
         contexts := s.contexts[slot := c.(reorderTs := fineNow)])
  }

  lemma SettleAnywhere(s: State, slot: nat, place: Place, p: Packet, o: Outcome, fineNow: nat)
    requires Sized(s) && slot < |s.places|
    ensures Settle(s.(places := s.places[slot := place]), slot, p, o, fineNow) == Settle(s, slot, p, o, fineNow)
  {
    var t := Settle(s, slot, p, o, fineNow);
    assert s.places[slot := place][slot := t.places[slot]] == t.places;
  }

  /** A packet arrives in a slot: its context is copied, then it meets its outcome. */
  function Arrive(s: State, slot: nat, p: Packet, now: nat, fineNow: nat): (t: State)
    requires Sized(s) && slot < |s.places|
    ensures Sized(t) && |t.places| == |s.places|
  {
    var f, was := s.flows[p.flowId], s.contexts[slot];
    var c := ContextOf(p, p.tcp, if p.tcp then f.status else was.status, was.reorderTs, false);
    Settle(s.(contexts := s.contexts[slot := c], arrived := s.arrived[slot := s.arrived[slot] + 1]),
           slot, p, OutcomeOf(p, f, s.parked, now), fineNow)
  }

  /** What becomes of an arrival, by cases of the packet and its flow entry. */
  lemma ArriveCases(s: State, slot: nat, p: Packet, now: nat, fineNow: nat)
    requires Sized(s) && slot < |s.places|
    ensures var f, t := s.flows[p.flowId], Arrive(s, slot, p, now, fineNow);
            var end := (p.seqNum + p.len - 54 + (if p.syn then 1 else 0)) % 0x1_0000_0000;
            var live := f.status != 0 && f.ts <= now <= f.ts + 4;
            var early := f.expSeq <= p.seqNum <= (f.expSeq + 30000) % 0x1_0000_0000;
            // not IPv4
            && (!p.ipType || !p.version4 ==> Drops(s, t, slot))
            && (p.ipType && p.version4 ==>
                  // not TCP
                  && (!p.tcp ==> t.places[slot] == Matching(None) && t.sent == s.sent && t.log == s.log)
                  // a clean or stale entry starts over
                  && (p.tcp && !live ==>
                        && t.places[slot] == Matching(Some(Job(p.flowId, end))) && t.sent == s.sent
                        && t.log == s.log + [Fed(p.flowId, p.seqNum, end, true, false)]
                        && t.flows == s.flows[p.flowId := f.(tag := p.tag)])
                  // another flow has the entry
                  && (p.tcp && live && p.tag != f.tag ==>
                        && t.places[slot] == Balancer && t.sent == s.sent + [Sent(slot, false, true)] && t.log == s.log)
                  && (p.tcp && live && p.tag == f.tag ==>
                        // in order
                        && (p.seqNum == f.expSeq ==>
                              && t.places[slot] == Matching(Some(Job(p.flowId, end))) && t.sent == s.sent
                              && t.log == s.log + [Fed(p.flowId, p.seqNum, end, false, false)])
                        // out of the window, or no room
                        && (p.seqNum != f.expSeq && (!early || s.parked > 16) ==> Drops(s, t, slot))
                        // early
                        && (p.seqNum != f.expSeq && early && s.parked <= 16 ==>
                              && t.places[slot] == Parked && t.parked == s.parked + 1
                              && t.sent == s.sent && t.log == s.log && t.contexts[slot].reorderTs == fineNow)))
            // the rest stays as it was
            && t.places == s.places[slot := t.places[slot]]
            && (!p.tcp || live || !p.ipType || !p.version4 ==> t.flows == s.flows)
  {
    hide PacketEnd;
    EndIs(p);
  }

  /** The context that an arrival leaves. */
  lemma ArriveContext(s: State, slot: nat, p: Packet, now: nat, fineNow: nat)
    requires Sized(s) && slot < |s.places|
    ensures var t := Arrive(s, slot, p, now, fineNow);
            var c := t.contexts[slot];
            && t.contexts == s.contexts[slot := c]
            && c.flowId == p.flowId && c.seqNum == p.seqNum && c.payloadLen == (p.len - 54) % 0x1_0000_0000
            && c.syn == p.syn && c.fin == p.fin && c.isTcp == p.tcp && c.matchCnt == 0
            && (p.tcp ==> c.status == s.flows[p.flowId].status)
  {
    hide OutcomeOf, PacketEnd;
  }

  predicate Drops(s: State, t: State, slot: nat) {
    && slot < |t.places| && t.places[slot] == Balancer
    && t.sent == s.sent + [Sent(slot, true, false)] && t.log == s.log && t.parked == s.parked
  }

  lemma EndIs(p: Packet)
    ensures PacketEnd(p) == (p.seqNum + p.len - 54 + (if p.syn then 1 else 0)) % 0x1_0000_0000
  {
    var d := p.len - 54;
    var rest := p.seqNum + if p.syn then 1 else 0;
    assert d == d / WRAP * WRAP + d % WRAP;
    AddMultiple(rest + d % WRAP, WRAP, d / WRAP);
  }

  /** The matcher is done with the packet of a slot. */
  function Conclude(s: State, m: Match, now: nat): (t: State)
    requires Sized(s) && m.slot < |s.places|
    ensures Sized(t) && |t.places| == |s.places|
  {
    var c := s.contexts[m.slot];
    var host := c.toHost || c.status > 0x80;
    s.(places := s.places[m.slot := Balancer], sent := s.sent + [Sent(m.slot, false, host)],
       contexts := s.contexts[m.slot := c.(toHost := host)],
       flows := if c.isTcp then s.flows[c.flowId := FlowAfter(s.flows[c.flowId], c, m, now)] else s.flows,
       log := if c.isTcp then s.log + [Done(c.flowId, EndOf(c), c.fin)] else s.log)
  }

  /** The matcher's outputs are counted up to the first end of packet, and that packet is concluded. */
  function Drained(s: State, ms: seq<Match>, now: nat): (t: State)
    requires Sized(s)
    ensures Sized(t) && |t.places| == |s.places|
  {
    var k := Leading(ms, s.places);
    var counted := s.(contexts := Tally(s.contexts, ms[..k]));
    if Ending(ms, s.places).Some? then Conclude(counted, ms[k], now) else counted
  }

  /** A look at a parked slot. */
  function Judge(s: State, slot: nat, now: nat): (t: State)
    requires Sized(s) && slot < |s.places|
    ensures Sized(t) && |t.places| == |s.places|
  {
    var c := s.contexts[slot];
    if c.seqNum == s.flows[c.flowId].expSeq then
      s.(places := s.places[slot := Matching(Some(Job(c.flowId, EndOf(c))))], parked := s.parked - 1,
         log := s.log + [Fed(c.flowId, c.seqNum, EndOf(c), false, true)])
    else if TimedOut(now, c.reorderTs, 3000) then
      s.(places := s.places[slot := Balancer], parked := s.parked - 1,
         sent := s.sent + [Sent(slot, true, c.toHost)])
    else s
  }

  /** What becomes of a parked slot that is looked at. */
  lemma JudgeCases(s: State, slot: nat, now: nat)
    requires Sized(s) && slot < |s.places|
    ensures var c, t := s.contexts[slot], Judge(s, slot, now);
            var due := c.seqNum == s.flows[c.flowId].expSeq;
            var end := (c.seqNum + c.payloadLen + (if c.syn then 1 else 0)) % 0x1_0000_0000;
            && (due ==> && t.places == s.places[slot := Matching(Some(Job(c.flowId, end)))] && t.parked == s.parked - 1
                        && t.log == s.log + [Fed(c.flowId, c.seqNum, end, false, true)] && t.sent == s.sent)
            && (!due && !(c.reorderTs <= now <= c.reorderTs + 3000) ==>
                  && t.places == s.places[slot := Balancer] && t.parked == s.parked - 1
                  && t.sent == s.sent + [Sent(slot, true, c.toHost)] && t.log == s.log)
            && (!due && c.reorderTs <= now <= c.reorderTs + 3000 ==> t == s)
  {
  }

  function Next(slot: nat, slotCount: nat): nat {
    if slot + 1 == slotCount then 0 else slot + 1
  }

  /** One step of the reorder scan, if any slot is parked. */
  function Scanned(s: State, now: nat): (t: State)
    requires Sized(s)
    ensures Sized(t) && |t.places| == |s.places|
  {
    var t := if s.places[s.scan].Parked? then Judge(s, s.scan, now) else s;
    if s.parked == 0 then t else t.(scan := Next(s.scan, |s.places|))
  }

  /** The slot whose arrival a pass accepts.  The load balancer reissues a slot only after it was sent
      back. */
  function Accepted(s: State, input: Input): (slot: Option<nat>)
    ensures slot.Some? <==> input.arrival.Some? && input.arrival.value.slot < |s.places|
                            && s.places[input.arrival.value.slot].Balancer?
    ensures slot.Some? ==> slot.value == input.arrival.value.slot
  {
    if input.arrival.Some? && input.arrival.value.slot < |s.places| && s.places[input.arrival.value.slot].Balancer?
    then Some(input.arrival.value.slot) else None
  }

  function Taken(s: State, input: Input): (t: State)
    requires Sized(s)
    ensures Sized(t) && |t.places| == |s.places|
  {
    if Accepted(s, input).Some?
    then Arrive(s, input.arrival.value.slot, input.arrival.value.packet, input.now, input.fineNow) else s
  }

  function BeforeScan(s: State, input: Input): (t: State)
    requires Sized(s)
    ensures Sized(t) && |t.places| == |s.places|
  {
    Drained(Taken(s, input), input.matches, input.now)
  }

  /** One pass of the main loop. */
  function AfterPass(s: State, input: Input): (t: State)
    requires Sized(s)
    ensures Sized(t) && |t.places| == |s.places|
  {
    Scanned(BeforeScan(s, input), input.fineNow)
  }

  /** The slot that a pass looks at. */
  function LookedAt(s: State, input: Input): Option<nat>
    requires Sized(s)
  {
    var t := BeforeScan(s, input);
    if t.places[t.scan].Parked? then Some(t.scan) else None
  }

  /** Any number of passes. */
  function AfterRun(s: State, inputs: seq<Input>): (t: State)
    requires Sized(s)
    ensures Sized(t) && |t.places| == |s.places|
  {
    if inputs == [] then s
    else AfterPass(AfterRun(s, inputs[..|inputs| - 1]), inputs[|inputs| - 1])
  }

  /** How often a run accepts an arrival of slot i. */
  function Arrivals(s: State, inputs: seq<Input>, i: nat): nat
    requires Sized(s)
  {
    if inputs == [] then 0
    else
      var n := |inputs| - 1;
      Arrivals(s, inputs[..n], i) + if Accepted(AfterRun(s, inputs[..n]), inputs[n]) == Some(i) then 1 else 0
  }

  // What every pass and every run keeps

  /** Nothing sent or fed is ever taken back, and a slot arrives exactly when an arrival is accepted. */
  ghost predicate Extends(s: State, t: State) {
    && |s.places| == |t.places| == |s.arrived| == |t.arrived|
    && s.sent <= t.sent && s.log <= t.log
  }

  /** Every slot is with the load balancer, parked or in the matcher. */
  predicate Resting(s: State) {
    forall i :: 0 <= i < |s.places| ==> !s.places[i].Handling?
  }

  /** The slots parked in s are parked in t, and the scan has not moved. */
  ghost predicate KeepsParked(s: State, t: State) {
    && |s.places| == |t.places| && s.scan == t.scan
    && forall i :: 0 <= i < |s.places| && s.places[i].Parked? ==> t.places[i].Parked?
  }

  lemma TakenExtends(s: State, input: Input)
    requires Sized(s)
    ensures var t := Taken(s, input);
            Extends(s, t) && KeepsParked(s, t) && (Resting(s) ==> Resting(t))
    ensures forall i :: 0 <= i < |s.places| ==>
              Taken(s, input).arrived[i] == s.arrived[i] + if Accepted(s, input) == Some(i) then 1 else 0
  {
    hide OutcomeOf, PacketEnd, ContextOf;
  }

  lemma DrainedExtends(s: State, ms: seq<Match>, now: nat)
    requires Sized(s)
    ensures var t := Drained(s, ms, now);
            Extends(s, t) && KeepsParked(s, t) && (Resting(s) ==> Resting(t)) && t.arrived == s.arrived
  {
    hide FlowAfter, EndOf, Tally, Leading;
  }

  lemma ScannedExtends(s: State, now: nat)
    requires Sized(s)
    ensures var t := Scanned(s, now);
            Extends(s, t) && (Resting(s) ==> Resting(t)) && t.arrived == s.arrived
    ensures forall i :: 0 <= i < |s.places| && i != s.scan ==> Scanned(s, now).places[i] == s.places[i]
    ensures s.parked != 0 ==> Scanned(s, now).scan == Next(s.scan, |s.places|)
  {
    hide EndOf;
  }

  lemma PassExtends(s: State, input: Input)
    requires Sized(s)
    ensures Extends(s, AfterPass(s, input)) && (Resting(s) ==> Resting(AfterPass(s, input)))
    ensures KeepsParked(s, BeforeScan(s, input))
    ensures forall i :: 0 <= i < |s.places| ==>
              AfterPass(s, input).arrived[i] == s.arrived[i] + if Accepted(s, input) == Some(i) then 1 else 0
  {
    hide Taken, Drained, Scanned, Accepted, Resting;
    TakenExtends(s, input);
    DrainedExtends(Taken(s, input), input.matches, input.now);
    ScannedExtends(BeforeScan(s, input), input.fineNow);
  }

  lemma {:induction false} RunExtends(s: State, inputs: seq<Input>)
    requires Sized(s)
    ensures Extends(s, AfterRun(s, inputs)) && (Resting(s) ==> Resting(AfterRun(s, inputs)))
    ensures forall i :: 0 <= i < |s.places| ==>
              AfterRun(s, inputs).arrived[i] == s.arrived[i] + Arrivals(s, inputs, i)
    decreases |inputs|
  {
    hide AfterPass, Accepted;
    if inputs != [] {
      var n := |inputs| - 1;
      RunExtends(s, inputs[..n]);
      PassExtends(AfterRun(s, inputs[..n]), inputs[n]);
    }
  }

  /** What a pass does to the slot it looks at is what becomes of a parked slot at that time. */
  lemma PassJudges(s: State, input: Input, i: nat)
    requires Sized(s) && LookedAt(s, input) == Some(i)
    ensures var t := BeforeScan(s, input);
            && t.scan == i < |t.places| && t.places[i].Parked?
            && AfterPass(s, input).(scan := t.scan) == Judge(t, i, input.fineNow)
  {
    hide Drained, Taken;
  }

  /** An end of packet, after outputs about packets in the matcher, sends its slot back in that pass. */
  lemma PassFinishes(s: State, input: Input, k: nat)
    requires Sized(s) && k < |input.matches|
    requires forall i :: 0 <= i <= k ==> input.matches[i].slot < |s.places|
    requires forall i :: 0 <= i <= k ==> s.places[input.matches[i].slot].Matching?
    requires input.matches[k].rule == 0 && forall i :: 0 <= i < k ==> input.matches[i].rule != 0
    ensures var slot, before := input.matches[k].slot, Taken(s, input);
            var after := BeforeScan(s, input);
            var c := before.contexts[slot];
            && AfterPass(s, input).places[slot] == Balancer
            && after.sent == before.sent + [Sent(slot, false, c.toHost || Hits(input.matches[..k], slot) > 0 || c.status > 0x80)]
            && AfterPass(s, input).flows == after.flows
            && (c.isTcp ==> Written(after.flows[c.flowId], before.flows[c.flowId],
                                    c.(matchCnt := c.matchCnt + Hits(input.matches[..k], slot)), input.matches[k], input.now))
  {
    hide Arrive, FlowAfter, Bit, Hits, Leading;
    var before := Taken(s, input);
    TakenKeepsMatching(s, input);
    assert Current(input.matches[k], before.places);
    LeadingIs(input.matches, before.places, k);
    var c := Tally(before.contexts, input.matches[..k])[input.matches[k].slot];
    FlowWritten(before.flows[c.flowId], c, input.matches[k], input.now);
  }

  lemma TakenKeepsMatching(s: State, input: Input)
    requires Sized(s)
    ensures |Taken(s, input).places| == |s.places|
    ensures forall i :: 0 <= i < |s.places| && s.places[i].Matching? ==> Taken(s, input).places[i].Matching?
  {
    hide OutcomeOf, PacketEnd, ContextOf;
  }

  /** A pass that finds nothing but a packet, with nothing parked, handles the packet. */
  lemma PassArrives(s: State, input: Input)
    requires Sized(s) && Accepted(s, input).Some? && input.matches == []
    requires var t := Arrive(s, input.arrival.value.slot, input.arrival.value.packet, input.now, input.fineNow);
             t.parked == 0 && !t.places[t.scan].Parked?
    ensures AfterPass(s, input) == Arrive(s, input.arrival.value.slot, input.arrival.value.packet, input.now, input.fineNow)
  {
    hide Arrive;
    DrainedNone(Taken(s, input), input.now);
  }

  /** Until the scan gets to it, a parked slot stays parked while the scan comes closer. */
  lemma KeptParked(s: State, input: Input, i: nat)
    requires Sized(s) && i < |s.places| && s.places[i].Parked?
    requires BeforeScan(s, input).parked == ParkedCount(BeforeScan(s, input).places)
    ensures s.scan == i ==> LookedAt(s, input) == Some(i)
    ensures s.scan != i ==> AfterPass(s, input).places[i].Parked?
    ensures AfterPass(s, input).scan == Next(s.scan, |s.places|)
  {
    hide BeforeScan, Scanned;
    PassExtends(s, input);
    Unparked(BeforeScan(s, input).places);
    ScannedExtends(BeforeScan(s, input), input.fineNow);
  }

  /** The outcomes of packets that are not classified: not IPv4, or not TCP. */
  lemma Outcomes(s: State, slot: nat, p: Packet, fineNow: nat)
    requires Sized(s) && slot < |s.places|
    ensures Settle(s, slot, p, Dropped, fineNow)
         == s.(places := s.places[slot := Balancer], sent := s.sent + [Sent(slot, true, s.contexts[slot].toHost)])
    ensures Settle(s, slot, p, FeedUdp, fineNow) == s.(places := s.places[slot := Matching(None)])
  {
  }

  lemma DrainedNone(s: State, now: nat)
    requires Sized(s)
    ensures Drained(s, [], now) == s
  {
    TallyNone(s.contexts, []);
  }

  lemma RunNone(s: State)
    requires Sized(s)
    ensures AfterRun(s, []) == s
  {
  }

  lemma RunNext(s: State, inputs: seq<Input>, n: nat)
    requires Sized(s) && n < |inputs|
    ensures AfterRun(s, inputs[..n + 1]) == AfterPass(AfterRun(s, inputs[..n]), inputs[n])
  {
    assert inputs[..n + 1][..n] == inputs[..n];
  }

  class Firmware {
    const slotCount: nat
    var reorderSlots: nat
    var reorderCount: nat
    var reorderSlot: nat
    var reorderMask: nat
    var contexts: seq<Context>
    var flows: seq<Flow>
    var places: seq<Place>
    var sent: seq<Sent>
    // history
    ghost const init: seq<U32>
    ghost var arrived: seq<nat>
    ghost var log: Log

    ghost predicate Valid()
      reads this
    {
      && 0 < slotCount <= MAX_CTX_COUNT && |places| == slotCount
      && MaskOk(reorderSlots, places)
      && reorderCount == ParkedCount(places) && reorderCount <= REORDER_LIMIT + 1
      && reorderSlot < slotCount && reorderMask == Shl(1, reorderSlot)
      && ContextsOk(contexts, places)
      && TagsOk(arrived, sent, places)
      && TableOk(log, init, flows, places)
    }

    ghost function Snapshot(): State
      reads this
    {
      State(contexts, flows, places, sent, reorderCount, reorderSlot, arrived, log)
    }

    constructor (slotCount: nat, flows: seq<Flow>)
      requires 0 < slotCount <= MAX_CTX_COUNT && |flows| == FLOWS
      ensures Valid() && this.slotCount == slotCount
      ensures Snapshot() == Reset(slotCount, flows)
    {
      hide Bit;
      this.slotCount, this.flows := slotCount, flows;
      reorderSlots, reorderCount, reorderSlot, reorderMask := 0, 0, 0, 1;
      contexts := seq(slotCount, _ => Context(0, 0, 0, 0, 0, 0, false, false, false, 0, false));
      places := seq(slotCount, _ => Balancer);
      arrived := seq(slotCount, _ => 0);
      init := seq(FLOWS, f requires 0 <= f < |flows| => flows[f].expSeq);
      log, sent := [], [];
      new;
      AtStart(places, init, flows);
    }

    /** The packet of a slot goes back to the load balancer. */
    method Send(slot: nat, dropped: bool)
      requires Valid() && slot < slotCount && places[slot].Handling?
      modifies this`places, this`sent
      ensures Valid()
      ensures places == old(places)[slot := Balancer]
      ensures sent == old(sent) + [Sent(slot, dropped, contexts[slot].toHost)]
    {
      hide TableOk, MaskOk, EndOf;
      MaskSame(reorderSlots, places, slot, Balancer);
      ParkedUpdate(places, slot, Balancer);
      TableMove(log, init, flows, places, slot, Balancer);
      TagsSend(arrived, sent, places, Sent(slot, dropped, contexts[slot].toHost));
      hide TagsOk;
      sent := sent + [Sent(slot, dropped, contexts[slot].toHost)];
      places := places[slot := Balancer];
    }

    /** The payload of a slot goes to the matcher. */
    method Feed(slot: nat, ghost restart: bool, ghost released: bool)
      requires Valid() && slot < slotCount && places[slot].Handling?
      requires contexts[slot].isTcp && !restart ==> contexts[slot].seqNum == flows[contexts[slot].flowId].expSeq
      requires contexts[slot].isTcp && !restart && !released ==> flows[contexts[slot].flowId].status != 0
      modifies this`places, this`log
      ensures Valid()
      ensures var c := contexts[slot];
              && places == old(places)[slot := Matching(if c.isTcp then Some(Job(c.flowId, EndOf(c))) else None)]
              && log == if c.isTcp then old(log) + [Fed(c.flowId, c.seqNum, EndOf(c), restart, released)] else old(log)
    {
      hide TableOk, MaskOk, EndOf;
      var c := contexts[slot];
      var p := Matching(if c.isTcp then Some(Job(c.flowId, EndOf(c))) else None);
      MaskSame(reorderSlots, places, slot, p);
      ParkedUpdate(places, slot, p);
      if c.isTcp {
        TableFeed(log, init, flows, places, slot, c, restart, released);
        log := log + [Fed(c.flowId, c.seqNum, EndOf(c), restart, released)];
      } else {
        TableMove(log, init, flows, places, slot, p);
      }
      places := places[slot := p];
    }

    /** A new packet in a slot: copy what the firmware needs of it. */
    method Receive(slot: nat, c: Context)
      requires Valid() && slot < slotCount && places[slot].Balancer?
      modifies this`places, this`contexts, this`arrived
      ensures Valid()
      ensures places == old(places)[slot := Handling] && contexts == old(contexts)[slot := c]
      ensures arrived == old(arrived)[slot := old(arrived)[slot] + 1]
    {
      hide TableOk, MaskOk, EndOf;
      MaskSame(reorderSlots, places, slot, Handling);
      ParkedUpdate(places, slot, Handling);
      TableMove(log, init, flows, places, slot, Handling);
      arrived := arrived[slot := arrived[slot] + 1];
      contexts := contexts[slot := c];
      places := places[slot := Handling];
    }

    method SetContext(slot: nat, c: Context)
      requires Valid() && slot < slotCount && ContextOk(c, places[slot])
      modifies this`contexts
      ensures Valid() && contexts == old(contexts)[slot := c]
    {
      hide TableOk, MaskOk, EndOf;
      contexts := contexts[slot := c];
    }

    /** Enter the tag of a packet that starts over in its flow entry. */
    method Retag(f: nat, tag: nat)
      requires Valid() && f < FLOWS
      modifies this`flows
      ensures Valid() && flows == old(flows)[f := old(flows)[f].(tag := tag)]
    {
      hide MaskOk, EndOf;
      TableTag(log, init, flows, flows[f := flows[f].(tag := tag)], places);
      hide TableOk;
      flows := flows[f := flows[f].(tag := tag)];
    }

    /** An early segment waits in the reorder set. */
    method ParkSlot(slot: nat, ts: nat)
      requires Valid() && slot < slotCount && places[slot].Handling?
      requires contexts[slot].isTcp && reorderCount <= REORDER_LIMIT
      modifies this`places, this`contexts, this`reorderSlots, this`reorderCount
      ensures Valid()
      ensures places == old(places)[slot := Parked] && reorderCount == old(reorderCount) + 1
      ensures contexts == old(contexts)[slot := old(contexts)[slot].(reorderTs := ts)]
    {
      hide TableOk, MaskOk, EndOf;
      MaskSet(reorderSlots, places, slot);
      ParkedUpdate(places, slot, Parked);
      TableMove(log, init, flows, places, slot, Parked);
      contexts := contexts[slot := contexts[slot].(reorderTs := ts)];
      reorderCount := reorderCount + 1;
      reorderSlots := Or(reorderSlots, SetMask(slot));
      places := places[slot := Parked];
    }

    /** Take a slot out of the reorder set. */
    method Unpark(slot: nat)
      requires Valid() && slot < slotCount && places[slot].Parked?
      modifies this`places, this`reorderSlots, this`reorderCount
      ensures Valid()
      ensures places == old(places)[slot := Handling] && reorderCount == old(reorderCount) - 1
    {
      hide TableOk, MaskOk, EndOf, ResetMask;
      MaskReset(reorderSlots, places, slot, Handling);
      ParkedUpdate(places, slot, Handling);
      TableMove(log, init, flows, places, slot, Handling);
      reorderCount := reorderCount - 1;
      reorderSlots := And(reorderSlots, ResetMask(slot));
      places := places[slot := Handling];
    }

    /** Handle a packet that has arrived in a slot. */
    method RxPacket(slot: nat, p: Packet, now: nat, fineNow: nat)
      requires Valid() && slot < slotCount && places[slot].Balancer?
      modifies this`places, this`contexts, this`arrived, this`flows, this`sent, this`log, this`reorderSlots, this`reorderCount
      ensures Valid()
      ensures Sized(old(Snapshot())) && Snapshot() == Arrive(old(Snapshot()), slot, p, now, fineNow)
    {
      hide Valid, Settle;
      Sizes();
      var f := flows[p.flowId];
      var status := if p.tcp then f.status else contexts[slot].status;
      Receive(slot, ContextOf(p, p.tcp, status, contexts[slot].reorderTs, false));
      ghost var s := Snapshot();
      Sizes();
      SettleAnywhere(s.(places := old(places)), slot, Handling, p, OutcomeOf(p, f, reorderCount, now), fineNow);
      Outcomes(s, slot, p, fineNow);
      if p.ipType {
        if !p.version4 {
          Send(slot, true);
          return;
        }
        if p.tcp {
          RxTcp(slot, p, now, fineNow);
        } else {
          Feed(slot, true, false);
        }
      } else {
        Send(slot, true);
      }
    }

    /** Classify a TCP packet against its flow entry. */
    method RxTcp(slot: nat, p: Packet, now: nat, fineNow: nat)
      requires Valid() && slot < slotCount && places[slot].Handling?
      requires p.ipType && p.version4 && p.tcp
      requires var c := contexts[slot]; c == ContextOf(p, true, c.status, c.reorderTs, false)
      modifies this`places, this`contexts, this`flows, this`sent, this`log, this`reorderSlots, this`reorderCount
      ensures Valid()
      ensures Sized(old(Snapshot()))
      ensures Snapshot() == Settle(old(Snapshot()), slot, p, OutcomeOf(p, old(flows)[p.flowId], old(reorderCount), now), fineNow)
    {
      hide Valid, EndOf;
      Sizes();
      EndOfPacket(p, contexts[slot]);
      var f := flows[p.flowId];
      if f.status == 0 {
        Retag(p.flowId, p.tag);
        Feed(slot, true, false);
        return;
      }
      if now < f.ts || now - f.ts > 4 {
        Retag(p.flowId, p.tag);
        Feed(slot, true, false);
        return;
      }
      if p.tag != f.tag {
        SetContext(slot, contexts[slot].(toHost := true));
        Send(slot, false);
        return;
      }
      if p.seqNum == f.expSeq {
        Feed(slot, false, false);
      } else if p.seqNum > (f.expSeq + 30000) % WRAP || p.seqNum < f.expSeq {
        Send(slot, true);
      } else if reorderCount <= REORDER_LIMIT {
        ParkSlot(slot, fineNow);
      } else {
        Send(slot, true);
      }
    }

    /** The matcher is done with a packet: update its flow and send it on. */
    method Finish(m: Match, now: nat)
      requires Valid() && m.slot < slotCount && places[m.slot].Matching?
      modifies this`places, this`contexts, this`flows, this`sent, this`log
      ensures Valid()
      ensures Sized(old(Snapshot())) && Snapshot() == Conclude(old(Snapshot()), m, now)
      ensures var c := old(contexts)[m.slot];
              c.isTcp ==> && flows == old(flows)[c.flowId := flows[c.flowId]]
                          && Written(flows[c.flowId], old(flows)[c.flowId], c, m, now)
      ensures !old(contexts)[m.slot].isTcp ==> flows == old(flows)
    {
      hide Valid, EndOf, FlowAfter, Written;
      Sizes();
      var c := contexts[m.slot];
      FlowWritten(flows[c.flowId], c, m, now);
      UpdateFlow(m, now);
      Sizes();
      assert contexts == contexts[m.slot := c];
      if c.status > 0x80 {
        SetContext(m.slot, c.(toHost := true));
      }
      Send(m.slot, false);
    }

    /** Write back the flow entry of a finished TCP packet. */
    method UpdateFlow(m: Match, now: nat)
      requires Valid() && m.slot < slotCount && places[m.slot].Matching?
      modifies this`places, this`flows, this`log
      ensures Valid()
      ensures places == old(places)[m.slot := Handling] && contexts[m.slot].flowId < FLOWS
      ensures var c := contexts[m.slot];
              && flows == (if c.isTcp then old(flows)[c.flowId := FlowAfter(old(flows)[c.flowId], c, m, now)] else old(flows))
              && log == (if c.isTcp then old(log) + [Done(c.flowId, EndOf(c), c.fin)] else old(log))
    {
      hide TableOk, MaskOk, EndOf;
      var c := contexts[m.slot];
      MaskSame(reorderSlots, places, m.slot, Handling);
      ParkedUpdate(places, m.slot, Handling);
      TableSizes(log, init, flows, places);
      if c.isTcp {
        var flow := WriteBack(flows[c.flowId], c, m, now);
        TableDone(log, init, flows, places, m.slot, Job(c.flowId, EndOf(c)), c.fin, flow);
        flows := flows[c.flowId := flow];
        log := log + [Done(c.flowId, EndOf(c), c.fin)];
      } else {
        TableMove(log, init, flows, places, m.slot, Handling);
      }
      places := places[m.slot := Handling];
    }

    /** Drain the matcher's outputs up to the end of one packet.  The matcher speaks only of slots that
        are in it. */
    method SlotMatch(matches: seq<Match>, now: nat)
      requires Valid()
      modifies this`places, this`contexts, this`flows, this`sent, this`log
      ensures Valid()
      ensures Sized(old(Snapshot())) && Snapshot() == Drained(old(Snapshot()), matches, now)
    {
      hide Valid, Tally, Conclude;
      Sizes();
      var k := 0;
      assert contexts == Tally(contexts, matches[..0]) by { TallyNone(contexts, matches[..0]); }
      while k < |matches| && Current(matches[k], places) && matches[k].rule != 0
        invariant Valid() && 0 <= k <= |matches|
        invariant places == old(places) && sent == old(sent) && flows == old(flows) && log == old(log)
        invariant contexts == Tally(old(contexts), matches[..k])
        invariant forall i :: 0 <= i < k ==> Current(matches[i], places) && matches[i].rule != 0
      {
        Sizes();
        TallyStep(old(contexts), matches, k);
        CountMatch(matches[k].slot);
        k := k + 1;
      }
      Sizes();
      LeadingIs(matches, places, k);
      if k < |matches| && Current(matches[k], places) {
        Finish(matches[k], now);
      }
    }

    /** A rule matched: count it and mark the packet for the host. */
    method CountMatch(slot: nat)
      requires Valid() && slot < slotCount && places[slot].Matching?
      modifies this`contexts
      ensures Valid()
      ensures var c := old(contexts)[slot];
              contexts == old(contexts)[slot := c.(matchCnt := c.matchCnt + 1, toHost := true)]
    {
      hide TableOk, MaskOk;
      var c := contexts[slot];
      contexts := contexts[slot := c.(matchCnt := c.matchCnt + 1, toHost := true)];
    }

    /** Look at a parked slot: feed it if its turn has come, drop it if it has waited too long. */
    method ProcessReorder(slot: nat, now: nat)
      requires Valid() && slot < slotCount && places[slot].Parked?
      modifies this`places, this`sent, this`log, this`reorderSlots, this`reorderCount
      ensures Valid()
      ensures Sized(old(Snapshot())) && Snapshot() == Judge(old(Snapshot()), slot, now)
    {
      ParkedContext(slot);
      hide Valid, EndOf;
      var c := contexts[slot];
      if c.seqNum == flows[c.flowId].expSeq {
        Release(slot);
        return;
      }
      if now < c.reorderTs || now - c.reorderTs > 3000 {
        Unpark(slot);
        Send(slot, true);
      }
    }

    /** Feed a parked segment whose turn has come. */
    method Release(slot: nat)
      requires Valid() && slot < slotCount && places[slot].Parked?
      requires contexts[slot].isTcp && contexts[slot].flowId < |flows|
      requires contexts[slot].seqNum == flows[contexts[slot].flowId].expSeq
      modifies this`places, this`log, this`reorderSlots, this`reorderCount
      ensures Valid() && reorderCount == old(reorderCount) - 1
      ensures var c := contexts[slot];
              && places == old(places)[slot := Matching(Some(Job(c.flowId, EndOf(c))))]
              && log == old(log) + [Fed(c.flowId, c.seqNum, EndOf(c), false, true)]
    {
      hide Valid, EndOf;
      Sizes();
      Unpark(slot);
      Feed(slot, false, true);
    }

    lemma ParkedContext(slot: nat)
      requires Valid() && slot < slotCount && places[slot].Parked?
      ensures |contexts| == |places| == slotCount && |flows| == FLOWS
      ensures contexts[slot].isTcp && Sized(Snapshot())
    {
    }

    /** One step of the scan over the reorder set. */
    method Scan(fineNow: nat) returns (looked: Option<nat>)
      requires Valid()
      modifies this`places, this`sent, this`log, this`reorderSlots, this`reorderCount, this`reorderSlot, this`reorderMask
      ensures Valid()
      ensures Sized(old(Snapshot())) && Snapshot() == Scanned(old(Snapshot()), fineNow)
      ensures looked == if old(places)[old(reorderSlot)].Parked? then Some(old(reorderSlot)) else None
    {
      hide Valid, Judge;
      Sizes();
      ParkedMask();
      looked := None;
      if reorderSlots != 0 {
        if And(reorderSlots, reorderMask) != 0 {
          looked := Some(reorderSlot);
          ProcessReorder(reorderSlot, fineNow);
        }
        Sizes();
        Advance();
      }
    }

    /** Move the scan to the next slot, around at the last one. */
    method Advance()
      requires Valid()
      modifies this`reorderSlot, this`reorderMask
      ensures Valid() && reorderSlot == Next(old(reorderSlot), slotCount)
    {
      hide TableOk, MaskOk, ContextsOk, TagsOk, ParkedCount;
      NextMask(reorderSlot);
      reorderMask := 2 * reorderMask % WRAP;
      reorderSlot := reorderSlot + 1;
      if reorderSlot == slotCount {
        reorderSlot := 0;
        reorderMask := 1;
      }
    }

    lemma ParkedMask()
      requires Valid()
      ensures reorderSlot < slotCount == |places|
      ensures And(reorderSlots, reorderMask) != 0 <==> places[reorderSlot].Parked?
      ensures reorderSlots != 0 <==> reorderCount != 0
    {
      hide TableOk, ContextsOk, TagsOk;
      TestBit(reorderSlots, reorderSlot);
      EmptyMask(reorderSlots, places);
    }

    /** One pass of the main loop: an arrival, the matcher's outputs, and one step of the scan. */
    method Pass(input: Input) returns (looked: Option<nat>)
      requires Valid()
      modifies this
      ensures Valid()
      ensures Sized(old(Snapshot())) && Snapshot() == AfterPass(old(Snapshot()), input)
      ensures looked == LookedAt(old(Snapshot()), input)
      ensures BeforeScan(old(Snapshot()), input).parked == ParkedCount(BeforeScan(old(Snapshot()), input).places)
      ensures Extends(old(Snapshot()), Snapshot()) && (Resting(old(Snapshot())) ==> Resting(Snapshot()))
      ensures forall i :: 0 <= i < slotCount ==>
                arrived[i] == old(arrived)[i] + if Accepted(old(Snapshot()), input) == Some(i) then 1 else 0
    {
      hide Valid, Arrive, Drained, Scanned;
      Sizes();
      PassExtends(Snapshot(), input);
      if input.arrival.Some? {
        var Arrival(slot, p) := input.arrival.value;
        if slot < slotCount && places[slot].Balancer? {
          RxPacket(slot, p, input.now, input.fineNow);
        }
      }
      Sizes();
      DrainedNone(Snapshot(), input.now);
      if input.matches != [] {
        SlotMatch(input.matches, input.now);
      }
      Sizes();
      looked := Scan(input.fineNow);
      Sizes();
    }

    /** The main loop, for any number of passes.  Nothing sent is forgotten; every slot has arrived as often
        as an arrival was accepted; in every flow that had one payload at a time in the matcher the
        payloads were contiguous; and a slot that is parked is looked at within slotCount passes. */
    method Run(inputs: seq<Input>, ghost watched: nat) returns (trace: seq<Option<nat>>)
      requires Valid()
      modifies this
      ensures Valid()
      ensures Sized(old(Snapshot())) && Snapshot() == AfterRun(old(Snapshot()), inputs)
      ensures |trace| == |inputs| && forall k :: 0 <= k < |trace| ==>
                trace[k] == LookedAt(AfterRun(old(Snapshot()), inputs[..k]), inputs[k])
      ensures Extends(old(Snapshot()), Snapshot()) && (Resting(old(Snapshot())) ==> Resting(Snapshot()))
      ensures forall i :: 0 <= i < slotCount ==> arrived[i] == old(arrived)[i] + Arrivals(old(Snapshot()), inputs, i)
      ensures forall f: nat :: f < FLOWS && Serial(log, f) ==> InSequence(log, f)
      ensures FreshAfterFin(log)
      ensures |inputs| >= slotCount && watched < slotCount && old(places)[watched].Parked? ==>
                exists k :: 0 <= k < slotCount && trace[k] == Some(watched)
    {
      hide Valid, AfterPass, LookedAt, AfterRun, Serial, InSequence, FreshAfterFin, Resting, BeforeScan, Extends, Accepted, ParkedCount, Arrivals;
      Sizes();
      ghost var s := Snapshot();
      ghost var wait := Wait(reorderSlot, watched);
      RunNone(s);
      trace := [];
      for n := 0 to |inputs|
        invariant Valid() && |trace| == n
        invariant Snapshot() == AfterRun(s, inputs[..n])
        invariant forall k :: 0 <= k < n ==> trace[k] == LookedAt(AfterRun(s, inputs[..k]), inputs[k])
        invariant watched < slotCount && old(places)[watched].Parked? && n <= wait ==>
                    |places| == slotCount && places[watched].Parked? && Wait(reorderSlot, watched) == wait - n
        invariant watched < slotCount && old(places)[watched].Parked? && n > wait ==> trace[wait] == Some(watched)
      {
        Sizes();
        RunNext(s, inputs, n);
        ghost var before := Snapshot();
        var looked := Pass(inputs[n]);
        Sizes();
        if watched < slotCount && before.places[watched].Parked? {
          KeptParked(before, inputs[n], watched);
        }
        trace := trace + [looked];
      }
      assert inputs[..|inputs|] == inputs;
      RunExtends(s, inputs);
      LogInSequence();
    }

    lemma Accounts()
      requires Valid()
      ensures |arrived| == |places| == slotCount && ParkedCount(places) <= REORDER_LIMIT + 1
      ensures forall i :: 0 <= i < slotCount ==> arrived[i] == Sends(sent, i) + if places[i].Balancer? then 0 else 1
    {
      hide TableOk, MaskOk, ContextsOk;
    }

    lemma LogInSequence()
      requires Valid()
      ensures forall f: nat :: f < FLOWS && Serial(log, f) ==> InSequence(log, f)
      ensures FreshAfterFin(log)
    {
      hide Serial, InSequence, LogOk, FreshAfterFin;
      LogFresh(log, init);
      forall f: nat | f < FLOWS && Serial(log, f) ensures InSequence(log, f) {
        Contiguous(log, init, f);
      }
    }

    /** Passes until the scan, now at slot s, gets to slot i. */
    function Wait(s: nat, i: nat): int {
      if s <= i then i - s else i - s + slotCount
    }

    lemma Sizes()
      requires Valid()
      ensures 0 < slotCount <= MAX_CTX_COUNT && reorderSlot < slotCount
      ensures |places| == |contexts| == |arrived| == slotCount && |flows| == FLOWS && Sized(Snapshot())
      ensures reorderCount == ParkedCount(places)
    {
    }
  }

  /** From reset, for any number of passes: every accepted arrival of a slot was answered by one send or its
      slot is still held, parked or in the matcher; and the reorder set keeps to its limit. */
  method RunFromReset(slotCount: nat, flows: seq<Flow>, inputs: seq<Input>) returns (fw: Firmware)
    requires 0 < slotCount <= 32 && |flows| == 0x8000
    ensures fresh(fw) && fw.Valid()
    ensures var s := Reset(slotCount, flows);
            && Sized(s) && fw.Snapshot() == AfterRun(s, inputs) && Resting(fw.Snapshot())
            && |fw.places| == slotCount
            && (forall i :: 0 <= i < slotCount ==>
                  Arrivals(s, inputs, i) == Sends(fw.sent, i) + if fw.places[i].Balancer? then 0 else 1)
            && ParkedCount(fw.places) <= 17
            && (forall f: nat :: f < FLOWS && Serial(fw.log, f) ==> InSequence(fw.log, f))
            && FreshAfterFin(fw.log)
  {
    hide AfterRun, Serial, InSequence, FreshAfterFin, Arrivals, Sends;
    fw := new Firmware(slotCount, flows);
    var _ := fw.Run(inputs, 0);
    fw.Accounts();
  }

  /** A duplicate that arrives while the first copy is still in the matcher is fed again, and does not
      continue it. */
  method DuplicateNotContiguous() returns (fw: Firmware)
    ensures fresh(fw) && fw.Valid()
    ensures fw.log == [Fed(0, 1000, 1100, false, false), Fed(0, 1000, 1100, false, false)]
    ensures !InSequence(fw.log, 0) && !Serial(fw.log, 0)
  {
    hide TableOk, MaskOk, ContextsOk, TagsOk, Shl, Bit;
    var live, clean := Flow(7, 0, 1000, 1, 0), Flow(0, 0, 0, 0, 0);
    fw := new Firmware(2, seq(FLOWS, f => if f == 0 then live else clean));
    var segment := Packet(true, true, true, 0, 7, 1000, 154, false, false);
    fw.RxPacket(0, segment, 0, 0);
    fw.RxPacket(1, segment, 0, 0);
    DuplicateLog(fw.log);
  }

  lemma DuplicateLog(log: Log)
    requires log == [Fed(0, 1000, 1100, false, false), Fed(0, 1000, 1100, false, false)]
    ensures !InSequence(log, 0) && !Serial(log, 0)
  {
    assert log[..1] == [log[0]] && log[..1][..0] == [] && log[..2] == log;
    assert !InSequenceAt(log, 0, 1);
    assert Open(log[..1], 0) == multiset{} + multiset{log[0].end};
    assert |Open(log[..2], 0)| == 2;
  }
}
