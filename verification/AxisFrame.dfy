/** AXI-Stream frames: a frame's words are packed into beats of a fixed number of lanes with a keep
    mask each, and parsed back; the sink checks the keep masks beat by beat. */
module AxisFrame {
  import opened Bits
  import opened Common
  import opened Lanes

  // Frames

  function KeepOf(n: nat): (k: nat) {
    Pow2(n) - 1
  }

  function BeatSize(data: seq<nat>, lanes: nat): (n: nat)
    ensures n <= |data| && n <= lanes && (data != [] && lanes > 0 ==> n > 0)
  {
    if |data| <= lanes then |data| else lanes
  }

  /** The words of the beats: all full but the last. */
  function Chunks(data: seq<nat>, lanes: nat): (cs: seq<seq<nat>>)
    requires lanes > 0
    decreases |data|
  {
    if data == [] then []
    else
      var n := BeatSize(data, lanes);
      [data[..n]] + Chunks(data[n..], lanes)
  }

  function BuiltData(data: seq<nat>, lanes: nat, wl: nat): (tdata: seq<nat>)
    requires lanes > 0
  {
    var cs := Chunks(data, lanes);
    seq(|cs|, i requires 0 <= i < |cs| => Pack(cs[i], wl))
  }

  function BuiltKeep(data: seq<nat>, lanes: nat): (tkeep: seq<nat>)
    requires lanes > 0
  {
    var cs := Chunks(data, lanes);
    seq(|cs|, i requires 0 <= i < |cs| => KeepOf(|cs[i]|))
  }

  /** The words of the kept lanes of a beat, from lane j on. */
  function KeptWords(v: nat, keep: nat, j: nat, lanes: nat, wl: nat): (ws: seq<nat>)
    requires j <= lanes
    decreases lanes - j
  {
    if j == lanes then []
    else (if And(keep, Shl(1, j)) != 0 then [Lane(v, j, wl)] else []) + KeptWords(v, keep, j + 1, lanes, wl)
  }

  function Parsed(tdata: seq<nat>, tkeep: seq<nat>, lanes: nat, wl: nat): (data: seq<nat>)
    requires |tdata| == |tkeep|
  {
    if tdata == [] then []
    else KeptWords(tdata[0], tkeep[0], 0, lanes, wl) + Parsed(tdata[1..], tkeep[1..], lanes, wl)
  }

  lemma {:induction false} KeptWordsOfPack(words: seq<nat>, j: nat, lanes: nat, wl: nat)
    requires Fit(words, wl) && j <= lanes && |words| <= lanes
    ensures KeptWords(Pack(words, wl), KeepOf(|words|), j, lanes, wl) == if j < |words| then words[j..] else []
    decreases lanes - j
  {
    hide And, Shl, Pack, Lane, Bit, Pow2;
    if j < lanes {
      KeptWordsOfPack(words, j + 1, lanes, wl);
      TestBit(KeepOf(|words|), j);
      OnesBit(|words|, j);
      if j < |words| {
        LaneOfPack(words, wl, j);
        assert [words[j]] + words[j + 1..] == words[j..];
      }
    }
  }

  lemma BuildStep(f: seq<nat>, lanes: nat, wl: nat)
    requires lanes > 0 && f != []
    ensures var n := BeatSize(f, lanes);
            && BuiltData(f, lanes, wl) == [Pack(f[..n], wl)] + BuiltData(f[n..], lanes, wl)
            && BuiltKeep(f, lanes) == [KeepOf(n)] + BuiltKeep(f[n..], lanes)
  {
    var n := BeatSize(f, lanes);
    assert Chunks(f, lanes) == [f[..n]] + Chunks(f[n..], lanes);
  }

  lemma ParsedCons(v: nat, keep: nat, tdata: seq<nat>, tkeep: seq<nat>, lanes: nat, wl: nat)
    requires |tdata| == |tkeep|
    ensures Parsed([v] + tdata, [keep] + tkeep, lanes, wl)
         == KeptWords(v, keep, 0, lanes, wl) + Parsed(tdata, tkeep, lanes, wl)
  {
    assert ([v] + tdata)[1..] == tdata && ([keep] + tkeep)[1..] == tkeep;
  }

  lemma {:induction false} RoundTripFit(data: seq<nat>, lanes: nat, wl: nat)
    requires lanes > 0 && Fit(data, wl)
    ensures Parsed(BuiltData(data, lanes, wl), BuiltKeep(data, lanes), lanes, wl) == data
    decreases |data|
  {
    if data == [] {
      assert BuiltData(data, lanes, wl) == [];
    } else {
      hide BuiltData, BuiltKeep, KeptWords, Pack, KeepOf, Parsed;
      var n := BeatSize(data, lanes);
      KeptWordsOfPack(data[..n], 0, lanes, wl);
      RoundTripFit(data[n..], lanes, wl);
      BuildStep(data, lanes, wl);
      ParsedCons(Pack(data[..n], wl), KeepOf(n), BuiltData(data[n..], lanes, wl), BuiltKeep(data[n..], lanes), lanes, wl);
      assert data[..n] + data[n..] == data;
    }
  }

  lemma {:induction false} KeptWordsFit(v: nat, keep: nat, j: nat, lanes: nat, wl: nat)
    requires j <= lanes
    ensures Fit(KeptWords(v, keep, j, lanes, wl), wl)
    decreases lanes - j
  {
    if j < lanes {
      LaneBit(v, j, wl, 0);
      KeptWordsFit(v, keep, j + 1, lanes, wl);
    }
  }

  lemma {:induction false} ParsedFit(tdata: seq<nat>, tkeep: seq<nat>, lanes: nat, wl: nat)
    requires |tdata| == |tkeep|
    ensures Fit(Parsed(tdata, tkeep, lanes, wl), wl)
  {
    if tdata != [] {
      KeptWordsFit(tdata[0], tkeep[0], 0, lanes, wl);
      ParsedFit(tdata[1..], tkeep[1..], lanes, wl);
    }
  }

  /** Parsing what was built gives the frame's data back exactly when every word fits its lane. */
  lemma RoundTrip(data: seq<nat>, lanes: nat, wl: nat)
    requires lanes > 0
    ensures Parsed(BuiltData(data, lanes, wl), BuiltKeep(data, lanes), lanes, wl) == data <==> Fit(data, wl)
  {
    if Fit(data, wl) {
      RoundTripFit(data, lanes, wl);
    } else {
      ParsedFit(BuiltData(data, lanes, wl), BuiltKeep(data, lanes), lanes, wl);
    }
  }

  /** A sideband of a frame: none, one value for every beat, or a value for each. */
  datatype Side = Absent | Every(value: nat) | Each(values: seq<nat>)

  /** A sideband with a value for each beat has enough of them. */
  predicate Covers(side: Side, n: nat) {
    side.Each? ==> n <= |side.values|
  }

  function SideAt(side: Side, i: nat): nat
    requires Covers(side, i + 1)
  {
    match side
    case Absent => 0
    case Every(v) => v
    case Each(vs) => vs[i]
  }

  /** The sideband signals of n beats. */
  function SideOf(side: Side, n: nat): (vs: seq<nat>)
    requires Covers(side, n)
    ensures |vs| == n
    ensures side.Absent? ==> forall i :: 0 <= i < n ==> vs[i] == 0
    ensures side.Every? ==> forall i :: 0 <= i < n ==> vs[i] == side.value
    ensures side.Each? ==> vs == side.values[..n]
  {
    seq(n, i requires 0 <= i < n => SideAt(side, i))
  }

  /** An explicit keep list takes the place of the masks that build makes. */
  function KeepOr(keep: Option<seq<nat>>, made: seq<nat>): (tkeep: seq<nat>)
    requires keep.Some? ==> |made| <= |keep.value|
    ensures |tkeep| == |made|
    ensures forall i :: 0 <= i < |made| ==> tkeep[i] == if keep.Some? then keep.value[i] else made[i]
  {
    if keep.Some? then keep.value[..|made|] else made
  }

  lemma BuildNone(lanes: nat, wl: nat)
    requires lanes > 0
    ensures BuiltData([], lanes, wl) == [] && BuiltKeep([], lanes) == []
  {
  }

  /** The last beat's user signal, unless zero, takes the place of the frame's. */
  function WithLast(tuser: seq<nat>, lastCycleUser: nat): (r: seq<nat>)
    requires lastCycleUser != 0 ==> tuser != []
    ensures |r| == |tuser|
    ensures forall i :: 0 <= i < |tuser| && (i < |tuser| - 1 || lastCycleUser == 0) ==> r[i] == tuser[i]
    ensures lastCycleUser != 0 ==> r[|tuser| - 1] == lastCycleUser
  {
    if lastCycleUser != 0 then tuser[|tuser| - 1 := lastCycleUser] else tuser
  }

  datatype Beats = Beats(tdata: seq<nat>, tkeep: seq<nat>, tid: seq<nat>, tdest: seq<nat>, tuser: seq<nat>)

  class Frame {
    var lanes: nat
    var wl: nat
    var data: seq<nat>
    var keep: Option<seq<nat>>
    var id: Side
    var dest: Side
    var user: Side
    var lastCycleUser: nat

    constructor (lanes: nat, wl: nat, data: seq<nat>, id: Side, dest: Side, user: Side)
      ensures this.lanes == lanes && this.wl == wl && this.data == data
      ensures keep == None && this.id == id && this.dest == dest && this.user == user && lastCycleUser == 0
    {
      this.lanes, this.wl, this.data := lanes, wl, data;
      this.keep, this.id, this.dest, this.user, this.lastCycleUser := None, id, dest, user, 0;
    }

    /** Every list has an entry for each of n beats, and a signal for the last beat has a beat. */
    predicate Builds(n: nat)
      reads this
    {
      && (keep.Some? ==> n <= |keep.value|) && Covers(id, n) && Covers(dest, n) && Covers(user, n)
      && (lastCycleUser != 0 ==> n > 0)
    }

    /** False where a list is too short and the original raises an exception. */
    method Build() returns (ok: bool, beats: Beats)
      requires lanes > 0
      ensures var n := |BuiltKeep(data, lanes)|;
              && (ok <==> Builds(n))
              && (ok ==> beats == Beats(BuiltData(data, lanes, wl), KeepOr(keep, BuiltKeep(data, lanes)),
                                        SideOf(id, n), SideOf(dest, n), WithLast(SideOf(user, n), lastCycleUser)))
    {
      hide SideAt, SideOf, KeepOr, Covers, BuiltData, BuiltKeep, WithLast;
      var tdata, made := BuildLanes();
      var tkeep, tid, tdest, tuser;
      ok, tkeep, tid, tdest, tuser := BuildSides(made);
      if !ok || (lastCycleUser != 0 && made == []) {
        return false, Beats([], [], [], [], []);
      }
      tuser := WithLast(tuser, lastCycleUser);
      return true, Beats(tdata, tkeep, tid, tdest, tuser);
    }

    method BuildLanes() returns (tdata: seq<nat>, tkeep: seq<nat>)
      requires lanes > 0
      ensures tdata == BuiltData(data, lanes, wl) && tkeep == BuiltKeep(data, lanes)
    {
      hide BuiltData, BuiltKeep, Pow2;
      BuildNone(lanes, wl);
      var f := data;
      tdata, tkeep := [], [];
      while |f| > 0
        invariant BuiltData(data, lanes, wl) == tdata + BuiltData(f, lanes, wl)
        invariant BuiltKeep(data, lanes) == tkeep + BuiltKeep(f, lanes)
        decreases |f|
      {
        BuildStep(f, lanes, wl);
        var v, k, rest := BuildBeat(f);
        tdata := tdata + [v];
        tkeep := tkeep + [k];
        f := rest;
      }
    }

    /** The other signals of each beat, given the masks made for the lanes. */
    method BuildSides(made: seq<nat>) returns (ok: bool, tkeep: seq<nat>, tid: seq<nat>, tdest: seq<nat>, tuser: seq<nat>)
      ensures var n := |made|;
              && (ok <==> (keep.Some? ==> n <= |keep.value|) && Covers(id, n) && Covers(dest, n) && Covers(user, n))
              && (ok ==> tkeep == KeepOr(keep, made) && tid == SideOf(id, n) && tdest == SideOf(dest, n) && tuser == SideOf(user, n))
    {
      tkeep, tid, tdest, tuser := [], [], [], [];
      for i := 0 to |made|
        invariant keep.Some? ==> i <= |keep.value|
        invariant Covers(id, i) && Covers(dest, i) && Covers(user, i)
        invariant tkeep == KeepOr(keep, made[..i])
        invariant tid == SideOf(id, i) && tdest == SideOf(dest, i) && tuser == SideOf(user, i)
      {
        if keep.Some? && i >= |keep.value| { return false, [], [], [], []; }
        if !Covers(id, i + 1) || !Covers(dest, i + 1) || !Covers(user, i + 1) { return false, [], [], [], []; }
        tkeep := tkeep + [if keep.Some? then keep.value[i] else made[i]];
        tid := tid + [SideAt(id, i)];
        tdest := tdest + [SideAt(dest, i)];
        tuser := tuser + [SideAt(user, i)];
      }
      assert made[..|made|] == made;
      return true, tkeep, tid, tdest, tuser;
    }

    /** Pop words into the lanes of one beat until the lanes or the words run out. */
    method BuildBeat(f: seq<nat>) returns (v: nat, keep: nat, rest: seq<nat>)
      requires lanes > 0 && f != []
      ensures var n := BeatSize(f, lanes);
              v == Pack(f[..n], wl) && keep == KeepOf(n) && rest == f[n..]
    {
      hide Or, Shl, Pow2;
      v, keep, rest := 0, 0, f;
      KeepNone();
      var j: nat := 0;
      while j < lanes
        invariant j <= BeatSize(f, lanes)
        invariant rest == f[j..] && rest != []
        invariant v == Pack(f[..j], wl) && keep == KeepOf(j)
      {
        PackNext(f, j, wl);
        v := Or(v, Shl(rest[0], j * wl));
        keep := Or(keep, Shl(1, j));
        rest := rest[1..];
        j := j + 1;
        if |rest| == 0 { break; }
      }
    }

    /** False for mismatched lists, and for no beats at all, where the original raises an exception. */
    method Parse(beats: Beats) returns (ok: bool)
      modifies this`data, this`keep, this`id, this`dest, this`user, this`lastCycleUser
      ensures var n := |beats.tdata|;
              ok <==> n == |beats.tkeep| == |beats.tid| == |beats.tdest| == |beats.tuser| && n > 0
      ensures ok ==> data == Parsed(beats.tdata, beats.tkeep, lanes, wl) && keep == Some(beats.tkeep)
      ensures ok ==> id == Each(beats.tid) && dest == Each(beats.tdest) && user == Each(beats.tuser)
      ensures ok ==> lastCycleUser == beats.tuser[|beats.tuser| - 1]
    {
      hide Parsed;
      var Beats(tdata, tkeep, tid, tdest, tuser) := beats;
      if |tdata| != |tkeep| || |tdata| != |tid| || |tdata| != |tdest| || |tdata| != |tuser| {
        return false;
      }
      ParseLanes(tdata, tkeep);
      keep, id, dest, user := Some(tkeep), Each(tid), Each(tdest), Each(tuser);
      if tdata == [] {
        return false;
      }
      lastCycleUser := tuser[|tuser| - 1];
      return true;
    }

    method ParseLanes(tdata: seq<nat>, tkeep: seq<nat>)
      requires |tdata| == |tkeep|
      modifies this`data
      ensures data == Parsed(tdata, tkeep, lanes, wl)
    {
      hide KeptWords;
      data := [];
      for i := 0 to |tdata|
        invariant Parsed(tdata, tkeep, lanes, wl) == data + Parsed(tdata[i..], tkeep[i..], lanes, wl)
      {
        assert tdata[i..][1..] == tdata[i + 1..] && tkeep[i..][1..] == tkeep[i + 1..];
        ParseBeat(tdata[i], tkeep[i]);
      }
    }

    /** Append the kept words of one beat. */
    method ParseBeat(v: nat, keep: nat)
      modifies this`data
      ensures data == old(data) + KeptWords(v, keep, 0, lanes, wl)
    {
      hide And, Lane;
      for j := 0 to lanes
        invariant old(data) + KeptWords(v, keep, 0, lanes, wl) == data + KeptWords(v, keep, j, lanes, wl)
      {
        if And(keep, Shl(1, j)) != 0 {
          data := data + [Lane(v, j, wl)];
        }
      }
    }
  }

  lemma KeepNone()
    ensures KeepOf(0) == 0
  {
  }

  lemma PackNext(f: seq<nat>, j: nat, wl: nat)
    requires j < |f|
    ensures Pack(f[..j + 1], wl) == Or(Pack(f[..j], wl), Shl(f[j], j * wl))
    ensures KeepOf(j + 1) == Or(KeepOf(j), Shl(1, j))
  {
    assert f[..j + 1][..j] == f[..j];
    ShlOne(j);
    OrDisjoint(KeepOf(j), 1, j);
  }

  /** A frame through the two methods: the data comes back exactly when every word fits its lane, and the
      sidebands come back beat by beat. */
  method SendAndReceive(data: seq<nat>, lanes: nat, wl: nat, id: Side, dest: Side, user: Side)
    returns (ok: bool, received: Frame)
    requires lanes > 0
    ensures var n := |BuiltKeep(data, lanes)|;
            && (ok <==> data != [] && Covers(id, n) && Covers(dest, n) && Covers(user, n))
            && (ok ==> (received.data == data <==> Fit(data, wl)))
            && (ok ==> received.id == Each(SideOf(id, n)) && received.dest == Each(SideOf(dest, n))
                       && received.user == Each(SideOf(user, n)))
  {
    hide SideAt;
    var source := new Frame(lanes, wl, data, id, dest, user);
    var beats;
    ok, beats := source.Build();
    received := new Frame(lanes, wl, [], Absent, Absent, Absent);
    if ok {
      ok := received.Parse(beats);
    }
    RoundTrip(data, lanes, wl);
    if data != [] { BuildStep(data, lanes, wl); }
  }

  // The sink's checks

  /** The set bits of the mask are exactly those from lo up to hi. */
  ghost predicate Run(keep: nat, lo: nat, hi: nat) {
    lo < hi && forall i: nat :: Bit(keep, i) <==> lo <= i < hi
  }

  lemma {:induction false} ShrNext(x: nat, n: nat)
    ensures Shr(x, n + 1) == Shr(x, n) / 2
    decreases n
  {
    if n > 0 { ShrNext(x / 2, n - 1); }
  }

  /** The sink's test of one keep mask: shift out zeros, then ones; nothing may remain. */
  method Contiguous(keep: nat) returns (ok: bool)
    ensures ok <==> exists lo: nat, hi: nat :: Run(keep, lo, hi)
  {
    if keep == 0 {
      forall lo: nat, hi: nat ensures !Run(keep, lo, hi) { ZeroBit(lo); }
      return false;
    }
    var b := keep;
    ghost var lo: nat := 0;
    while b % 2 == 0
      invariant b != 0 && b == Shr(keep, lo)
      invariant forall i: nat :: i < lo ==> !Bit(keep, i)
      decreases b
    {
      ShrNext(keep, lo);
      ShrBit(keep, lo, 0);
      b := b / 2;
      lo := lo + 1;
    }
    ShrBit(keep, lo, 0);
    ghost var hi: nat := lo;
    while b % 2 == 1
      invariant lo <= hi && b == Shr(keep, hi)
      invariant forall i: nat :: lo <= i < hi ==> Bit(keep, i)
      decreases b
    {
      ShrNext(keep, hi);
      ShrBit(keep, hi, 0);
      b := b / 2;
      hi := hi + 1;
    }
    ok := b == 0;
    ShrBit(keep, hi, 0);
    if ok {
      forall i: nat | i >= hi ensures !Bit(keep, i) {
        ShrBit(keep, hi, i - hi);
        ZeroBit(i - hi);
      }
      assert Run(keep, lo, hi);
    } else {
      ghost var i := SomeBit(b);
      ShrBit(keep, hi, i);
      assert Bit(keep, lo) && !Bit(keep, hi) && Bit(keep, hi + i);
    }
  }

  /** The sink's four checks on beat i of a frame. */
  ghost predicate Acceptable(tkeep: seq<nat>, i: nat, lanes: nat)
    requires i < |tkeep| && lanes > 0
  {
    && tkeep[i] != 0
    && (exists lo: nat, hi: nat :: Run(tkeep[i], lo, hi))
    && (i > 0 ==> Bit(tkeep[i], 0))
    && (i < |tkeep| - 1 ==> Bit(tkeep[i], lanes - 1))
  }

  /** The sink on the keep masks of one frame. */
  method CheckFrame(tkeep: seq<nat>, lanes: nat) returns (ok: bool)
    requires lanes > 0
    ensures ok <==> forall i :: 0 <= i < |tkeep| ==> Acceptable(tkeep, i, lanes)
  {
    var first := true;
    for i := 0 to |tkeep|
      invariant first <==> i == 0
      invariant forall j :: 0 <= j < i ==> Acceptable(tkeep, j, lanes)
    {
      var last := i == |tkeep| - 1;
      var contiguous := Contiguous(tkeep[i]);
      TestBit(tkeep[i], 0);
      TestBit(tkeep[i], lanes - 1);
      if tkeep[i] == 0 || !contiguous
         || (!first && And(tkeep[i], Shl(1, 0)) == 0)
         || (!last && And(tkeep[i], Shl(1, lanes - 1)) == 0) {
        assert !Acceptable(tkeep, i, lanes);
        return false;
      }
      first := false;
    }
    return true;
  }

  /** The kept lanes of a frame, beat after beat, are one run: from lane lo of the first beat up to lane hi
      of the last. */
  ghost predicate OneRun(tkeep: seq<nat>, lanes: nat, lo: nat, hi: nat) {
    && lo < lanes && 0 < hi <= lanes && (|tkeep| == 1 ==> lo < hi)
    && forall i, j: nat :: 0 <= i < |tkeep| ==>
         (Bit(tkeep[i], j) <==> j < lanes && (i > 0 || lo <= j) && (i < |tkeep| - 1 || j < hi))
  }

  /** The sink's checks beat by beat accept exactly the frames whose kept lanes are one run. */
  lemma AcceptedIsOneRun(tkeep: seq<nat>, lanes: nat)
    requires tkeep != [] && lanes > 0 && forall i :: 0 <= i < |tkeep| ==> tkeep[i] < Pow2(lanes)
    ensures (forall i :: 0 <= i < |tkeep| ==> Acceptable(tkeep, i, lanes)) <==> exists lo: nat, hi: nat :: OneRun(tkeep, lanes, lo, hi)
  {
    hide Bit, Pow2;
    if forall i :: 0 <= i < |tkeep| ==> Acceptable(tkeep, i, lanes) {
      var n := |tkeep| - 1;
      var lo, firstEnd := RunOf(tkeep, 0, lanes);
      var lastStart, hi := RunOf(tkeep, n, lanes);
      if n == 0 { SameRun(tkeep[0], lo, firstEnd, lastStart, hi); }
      forall i, j: nat | 0 <= i < |tkeep|
        ensures Bit(tkeep[i], j) <==> j < lanes && (i > 0 || lo <= j) && (i < n || j < hi)
      {
        var a, b := RunOf(tkeep, i, lanes);
        if i == 0 { SameRun(tkeep[0], a, b, lo, firstEnd); }
        if i == n { SameRun(tkeep[n], a, b, lastStart, hi); }
      }
      assert OneRun(tkeep, lanes, lo, hi);
    }
    if lo: nat, hi: nat :| OneRun(tkeep, lanes, lo, hi) {
      forall i | 0 <= i < |tkeep| ensures Acceptable(tkeep, i, lanes) {
        var a, b := if i > 0 then 0 else lo, if i < |tkeep| - 1 then lanes else hi;
        assert Run(tkeep[i], a, b);
        assert Bit(tkeep[i], a);
        ZeroBit(a);
      }
    }
  }

  lemma RunOf(tkeep: seq<nat>, i: nat, lanes: nat) returns (lo: nat, hi: nat)
    requires lanes > 0 && i < |tkeep| && Acceptable(tkeep, i, lanes) && tkeep[i] < Pow2(lanes)
    ensures Run(tkeep[i], lo, hi) && hi <= lanes && (i > 0 ==> lo == 0) && (i < |tkeep| - 1 ==> hi == lanes)
  {
    hide Bit, Pow2;
    lo, hi :| Run(tkeep[i], lo, hi);
    assert Bit(tkeep[i], hi - 1);
    if hi > lanes { SmallBit(tkeep[i], lanes, hi - 1); }
  }

  lemma SameRun(keep: nat, a: nat, b: nat, c: nat, d: nat)
    requires Run(keep, a, b) && Run(keep, c, d)
    ensures a == c && b == d
  {
    hide Bit;
    assert Bit(keep, a) && Bit(keep, c) && Bit(keep, b - 1) && Bit(keep, d - 1);
  }

  lemma {:induction false} BeatsFull(data: seq<nat>, lanes: nat, i: nat)
    requires lanes > 0 && i < |Chunks(data, lanes)|
    ensures 0 < |Chunks(data, lanes)[i]| <= lanes
    ensures i < |Chunks(data, lanes)| - 1 ==> |Chunks(data, lanes)[i]| == lanes
    decreases i
  {
    var n := BeatSize(data, lanes);
    if i > 0 { BeatsFull(data[n..], lanes, i - 1); }
  }

  /** Every frame that is built passes the sink's checks. */
  lemma BuiltAcceptable(data: seq<nat>, lanes: nat, i: nat)
    requires lanes > 0 && i < |BuiltKeep(data, lanes)|
    ensures Acceptable(BuiltKeep(data, lanes), i, lanes)
  {
    BeatsFull(data, lanes, i);
    var n := |Chunks(data, lanes)[i]|;
    forall j: nat ensures Bit(KeepOf(n), j) <==> j < n { OnesBit(n, j); }
    assert Run(KeepOf(n), 0, n);
    assert Bit(KeepOf(n), 0);
    ZeroBit(0);
  }
}
