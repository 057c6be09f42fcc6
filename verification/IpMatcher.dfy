/** The generator of the IP prefix matcher: it splits a list of prefixes on their first nine bits into
    a two-level table, emits the tables as wildcard patterns, and emits the clocked matcher that reads
    them.  Prefixes and addresses are bit strings, most significant bit first. */
module IpMatcher {

  type Prefix = seq<bool>

  const ADDRESS_BITS: nat := 32
  const FIRST_LEVEL_BITS: nat := 9

  // Sorting: longest first, as a stable sort leaves it

  ghost predicate LongestFirst(xs: seq<Prefix>) {
    forall i, j :: 0 <= i < j < |xs| ==> |xs[i]| >= |xs[j]|
  }

  function Insert(x: Prefix, xs: seq<Prefix>): (r: seq<Prefix>)
    requires LongestFirst(xs)
    ensures LongestFirst(r)
    ensures forall y :: y in r <==> y == x || y in xs
  {
    if xs == [] then [x]
    else if |x| >= |xs[0]| then [x] + xs
    else
      var tail := Insert(x, xs[1..]);
      assert forall i :: 0 <= i < |tail| ==> tail[i] == x || tail[i] in xs[1..];
      [xs[0]] + tail
  }

  function SortByLength(xs: seq<Prefix>): (r: seq<Prefix>)
    ensures LongestFirst(r)
    ensures forall y :: y in r <==> y in xs
  {
    if xs == [] then [] else Insert(xs[0], SortByLength(xs[1..]))
  }

  /** The prefixes of length n, in their order. */
  function OfLength(xs: seq<Prefix>, n: nat): seq<Prefix> {
    if xs == [] then [] else (if |xs[0]| == n then [xs[0]] else []) + OfLength(xs[1..], n)
  }

  lemma OfLengthCons(x: Prefix, xs: seq<Prefix>, n: nat)
    ensures OfLength([x] + xs, n) == (if |x| == n then [x] else []) + OfLength(xs, n)
  {
    assert ([x] + xs)[1..] == xs;
  }

  lemma {:induction false} InsertIsStable(x: Prefix, xs: seq<Prefix>, n: nat)
    requires LongestFirst(xs)
    ensures OfLength(Insert(x, xs), n) == (if |x| == n then [x] else []) + OfLength(xs, n)
  {
    hide OfLength;
    if xs == [] || |x| >= |xs[0]| {
      OfLengthCons(x, xs, n);
      assert [x] + xs == Insert(x, xs);
    } else {
      InsertIsStable(x, xs[1..], n);
      OfLengthCons(xs[0], Insert(x, xs[1..]), n);
      OfLengthCons(xs[0], xs[1..], n);
      assert [xs[0]] + xs[1..] == xs;
    }
  }

  lemma {:induction false} InsertAdds(x: Prefix, xs: seq<Prefix>)
    requires LongestFirst(xs)
    ensures multiset(Insert(x, xs)) == multiset{x} + multiset(xs)
  {
    if xs != [] && |x| < |xs[0]| {
      InsertAdds(x, xs[1..]);
      assert [xs[0]] + xs[1..] == xs;
    }
  }

  /** The sort drops nothing, adds nothing, and keeps prefixes of the same length in their order. */
  lemma {:induction false} SortIsStable(xs: seq<Prefix>, n: nat)
    ensures OfLength(SortByLength(xs), n) == OfLength(xs, n)
    ensures multiset(SortByLength(xs)) == multiset(xs)
  {
    if xs != [] {
      SortIsStable(xs[1..], n);
      InsertIsStable(xs[0], SortByLength(xs[1..]), n);
      InsertAdds(xs[0], SortByLength(xs[1..]));
      assert xs == [xs[0]] + xs[1..];
    }
  }

  // The splitter

  /** The two levels: full matches of the first bits, and for each remaining head the tails under it.
      A head-length prefix that has longer ones under it is reported as an error and left out. */
  datatype Levels = Levels(first: seq<Prefix>, second: map<Prefix, seq<Prefix>>, errors: seq<Prefix>)

  ghost predicate Extended(xs: seq<Prefix>, k: Prefix) {
    exists y :: y in xs && |y| > |k| && k <= y
  }

  /** What the levels hold of the prefixes xs, split after n bits. */
  ghost predicate Splits(levels: Levels, xs: seq<Prefix>, n: nat) {
    && (forall x :: x in levels.first <==> x in xs && |x| == n && !Extended(xs, x))
    && (forall x :: x in levels.errors <==> x in xs && |x| == n && Extended(xs, x))
    && (forall k :: k in levels.second <==> HasTable(xs, k, n))
    && (forall k, t :: k in levels.second ==> (t in levels.second[k] <==> if |k| < n then t == [] else t != [] && k + t in xs))
  }

  /** A table is made for a head that is extended, and for every prefix too short for a head. */
  ghost predicate HasTable(xs: seq<Prefix>, k: Prefix, n: nat) {
    if |k| < n then k in xs else |k| == n && Extended(xs, k)
  }

  /** A prefix that ends at the split extends nothing: it is placed by what came before it. */
  lemma AddShort(levels: Levels, xs: seq<Prefix>, x: Prefix, n: nat)
    requires Splits(levels, xs, n) && |x| == n
    ensures x in levels.second ==> Splits(levels.(errors := levels.errors + [x]), xs + [x], n)
    ensures x !in levels.second ==> Splits(levels.(first := levels.first + [x]), xs + [x], n)
  {
    forall k: Prefix | |k| == n ensures Extended(xs + [x], k) <==> Extended(xs, k) {}
    forall k: Prefix, t: Prefix | |k| == n && t != [] ensures k + t in xs + [x] <==> k + t in xs {}
  }

  /** A longer prefix comes before every one that ends at the split. */
  lemma AddLong(levels: Levels, xs: seq<Prefix>, x: Prefix, n: nat)
    requires Splits(levels, xs, n) && |x| > n
    requires forall y :: y in xs ==> |y| > n
    ensures var k := x[..n];
            var tails := if k in levels.second then levels.second[k] + [x[n..]] else [x[n..]];
            Splits(levels.(second := levels.second[k := tails]), xs + [x], n)
  {
    var k := x[..n];
    assert k <= x;
    forall h: Prefix | |h| == n
      ensures Extended(xs + [x], h) <==> Extended(xs, h) || h == k
    {
      if h == k { assert x in xs + [x] && |x| > |h| && h <= x; }
      if y :| y in xs && |y| > |h| && h <= y { assert y in xs + [x]; }
    }
    forall h: Prefix, t: Prefix | |h| == n
      ensures h + t in xs + [x] <==> h + t in xs || (h == k && t == x[n..])
    {
      if h + t == x { assert x[..n] == h && x[n..] == t; }
    }
    forall t: Prefix | k !in levels.second && t != [] ensures k + t !in xs {
      if k + t in xs { assert Extended(xs, k); }
    }
  }

  /** A prefix shorter than a head becomes a head of its own, with an empty tail. */
  lemma AddTiny(levels: Levels, xs: seq<Prefix>, x: Prefix, n: nat)
    requires Splits(levels, xs, n) && |x| < n
    ensures var tails := if x in levels.second then levels.second[x] + [[]] else [[]];
            Splits(levels.(second := levels.second[x := tails]), xs + [x], n)
  {
    forall k: Prefix | |k| >= n ensures Extended(xs + [x], k) <==> Extended(xs, k) {}
    forall k: Prefix, t: Prefix | |k| == n ensures k + t in xs + [x] <==> k + t in xs {}
  }

  lemma SameElements(levels: Levels, xs: seq<Prefix>, ys: seq<Prefix>, n: nat)
    requires Splits(levels, xs, n) && forall x :: x in xs <==> x in ys
    ensures Splits(levels, ys, n)
  {
    forall k ensures Extended(xs, k) <==> Extended(ys, k) {}
  }

  /** One step of the splitter's loop, after the prefixes xs. */
  method Place(levels: Levels, x: Prefix, offset: nat, ghost xs: seq<Prefix>) returns (r: Levels)
    requires Splits(levels, xs, offset)
    requires forall y :: y in xs ==> |y| >= |x|
    ensures Splits(r, xs + [x], offset)
  {
    hide Splits, Extended;
    var k, tail := if |x| < offset then x else x[..offset], if |x| < offset then [] else x[offset..];
    if |x| < offset {
      AddTiny(levels, xs, x, offset);
    } else if |x| == offset {
      assert k == x;
      AddShort(levels, xs, x, offset);
    } else {
      AddLong(levels, xs, x, offset);
    }
    if k in levels.second {
      if |x| != offset {
        r := levels.(second := levels.second[k := levels.second[k] + [tail]]);
      } else {
        r := levels.(errors := levels.errors + [x]);
      }
    } else {
      if |x| == offset {
        r := levels.(first := levels.first + [x]);
      } else {
        r := levels.(second := levels.second[k := [tail]]);
      }
    }
  }

  method Splitter(prefixes: seq<Prefix>, offset: nat) returns (levels: Levels)
    ensures Splits(levels, prefixes, offset)
  {
    hide Splits, LongestFirst;
    var sorted := SortByLength(prefixes);
    levels := Levels([], map[], []);
    NothingSplit(offset);
    for i := 0 to |sorted|
      invariant Splits(levels, sorted[..i], offset)
    {
      EarlierNotShorter(sorted, i);
      assert sorted[..i + 1] == sorted[..i] + [sorted[i]];
      levels := Place(levels, sorted[i], offset, sorted[..i]);
    }
    assert sorted[..|sorted|] == sorted;
    SameElements(levels, sorted, prefixes, offset);
  }

  lemma EarlierNotShorter(sorted: seq<Prefix>, i: nat)
    requires LongestFirst(sorted) && i < |sorted|
    ensures forall y :: y in sorted[..i] ==> |y| >= |sorted[i]|
  {
  }

  lemma NothingSplit(n: nat)
    ensures Splits(Levels([], map[], []), [], n)
  {
  }

  // The emitted tables

  datatype Symbol = Zero | One | Any

  type Pattern = seq<Symbol>

  function Digit(b: bool): Symbol {
    if b then One else Zero
  }

  /** A case label of the given width: the tail followed by wildcards. */
  function PatternOf(tail: Prefix, width: nat): (p: Pattern)
    requires |tail| <= width
    ensures |p| == width
  {
    seq(width, i requires 0 <= i => if i < |tail| then Digit(tail[i]) else Any)
  }

  predicate Matches(p: Pattern, bits: seq<bool>)
    requires |p| == |bits|
  {
    forall i :: 0 <= i < |p| ==> p[i] == Any || p[i] == Digit(bits[i])
  }

  /** A pattern matches exactly when the tail it was made of is a prefix of the bits. */
  lemma MatchesPrefix(tail: Prefix, width: nat, bits: seq<bool>)
    requires |tail| <= width == |bits|
    ensures Matches(PatternOf(tail, width), bits) <==> tail <= bits
  {
    var p := PatternOf(tail, width);
    if Matches(p, bits) {
      forall i | 0 <= i < |tail| ensures tail[i] == bits[i] { assert p[i] == Digit(bits[i]); }
    }
  }

  datatype Table = Table(width: nat, patterns: seq<Pattern>)

  /** The value of a case statement: the first pattern that matches sets it, the default clears it. */
  predicate Lookup(patterns: seq<Pattern>, bits: seq<bool>)
    requires forall i :: 0 <= i < |patterns| ==> |patterns[i]| == |bits|
  {
    patterns != [] && (Matches(patterns[0], bits) || Lookup(patterns[1..], bits))
  }

  function Longest(tails: seq<Prefix>): (n: nat)
    ensures forall t :: t in tails ==> |t| <= n
  {
    if tails == [] then 0
    else if |tails[0]| > Longest(tails[1..]) then |tails[0]| else Longest(tails[1..])
  }

  function Patterns(tails: seq<Prefix>, width: nat): (ps: seq<Pattern>)
    requires forall t :: t in tails ==> |t| <= width
    ensures forall i :: 0 <= i < |ps| ==> |ps[i]| == width
  {
    if tails == [] then [] else [PatternOf(tails[0], width)] + Patterns(tails[1..], width)
  }

  function TableOf(tails: seq<Prefix>): (t: Table) {
    Table(Longest(tails), Patterns(tails, Longest(tails)))
  }

  lemma {:induction false} LongestAppend(tails: seq<Prefix>, t: Prefix)
    ensures Longest(tails + [t]) == if |t| > Longest(tails) then |t| else Longest(tails)
  {
    if tails != [] {
      assert (tails + [t])[1..] == tails[1..] + [t];
      LongestAppend(tails[1..], t);
    }
  }

  lemma {:induction false} PatternsAppend(tails: seq<Prefix>, t: Prefix, width: nat)
    requires |t| <= width && forall u :: u in tails ==> |u| <= width
    ensures Patterns(tails + [t], width) == Patterns(tails, width) + [PatternOf(t, width)]
  {
    if tails != [] {
      assert (tails + [t])[1..] == tails[1..] + [t];
      PatternsAppend(tails[1..], t, width);
    }
  }

  method EmitTable(tails: seq<Prefix>) returns (table: Table)
    ensures table == TableOf(tails)
  {
    var width := 0;
    for i := 0 to |tails|
      invariant width == Longest(tails[..i])
    {
      assert tails[..i + 1] == tails[..i] + [tails[i]];
      LongestAppend(tails[..i], tails[i]);
      if |tails[i]| > width { width := |tails[i]|; }
    }
    assert tails[..|tails|] == tails;
    var patterns := [];
    for i := 0 to |tails|
      invariant patterns == Patterns(tails[..i], width)
    {
      assert tails[..i + 1] == tails[..i] + [tails[i]];
      PatternsAppend(tails[..i], tails[i], width);
      patterns := patterns + [PatternOf(tails[i], width)];
    }
    table := Table(width, patterns);
  }

  /** A table finds exactly the bit strings that one of its tails is a prefix of. */
  lemma {:induction false} LookupIsPrefix(tails: seq<Prefix>, width: nat, bits: seq<bool>)
    requires |bits| == width && forall t :: t in tails ==> |t| <= width
    ensures Lookup(Patterns(tails, width), bits) <==> exists t :: t in tails && t <= bits
  {
    if tails != [] {
      MatchesPrefix(tails[0], width, bits);
      LookupIsPrefix(tails[1..], width, bits);
      assert forall t :: t in tails <==> t == tails[0] || t in tails[1..];
    }
  }

  // The emitted matcher

  type Address = a: seq<bool> | |a| == ADDRESS_BITS witness seq(32, _ => false)

  datatype Design = Design(first: seq<Prefix>, tables: map<Prefix, Table>)

  ghost predicate ValidDesign(d: Design) {
    forall k :: k in d.tables ==>
      && FIRST_LEVEL_BITS + d.tables[k].width <= ADDRESS_BITS
      && forall i :: 0 <= i < |d.tables[k].patterns| ==> |d.tables[k].patterns[i]| == d.tables[k].width
  }

  /** The slice of the address wired to a table, and what the table says of it. */
  predicate TableOutput(t: Table, a: Address)
    requires FIRST_LEVEL_BITS + t.width <= ADDRESS_BITS
    requires forall i :: 0 <= i < |t.patterns| ==> |t.patterns[i]| == t.width
  {
    Lookup(t.patterns, a[FIRST_LEVEL_BITS..FIRST_LEVEL_BITS + t.width])
  }

  /** The top case statement: table heads first, then full first-level matches. */
  predicate TopCase(d: Design, a: Address, outputs: map<Prefix, bool>)
    requires outputs.Keys == d.tables.Keys
  {
    var head := a[..FIRST_LEVEL_BITS];
    if head in d.tables then outputs[head] else head in d.first
  }

  /** What the two levels together say of an address. */
  predicate Answer(d: Design, a: Address)
    requires ValidDesign(d)
  {
    TopCase(d, a, map k | k in d.tables :: TableOutput(d.tables[k], a))
  }

  ghost predicate Covered(xs: seq<Prefix>, dropped: seq<Prefix>, a: Address) {
    exists x :: x in xs && x !in dropped && x <= a
  }

  method Generate(prefixes: seq<Prefix>) returns (design: Design, errors: seq<Prefix>)
    requires forall x :: x in prefixes ==> 9 <= |x| <= 32
    ensures ValidDesign(design)
    ensures forall a: Address :: Answer(design, a) <==> Covered(prefixes, errors, a)
    ensures forall x :: x in errors <==> x in prefixes && |x| == 9 && Extended(prefixes, x)
  {
    var levels := Splitter(prefixes, FIRST_LEVEL_BITS);
    var tables := WriteTables(levels.second);
    design := Design(levels.first, tables);
    errors := levels.errors;
    forall k | k in levels.second ensures Longest(levels.second[k]) <= ADDRESS_BITS - FIRST_LEVEL_BITS {
      LongestBound(levels.second[k], ADDRESS_BITS - FIRST_LEVEL_BITS);
    }
    forall a: Address ensures Answer(design, a) <==> Covered(prefixes, errors, a) {
      AnswerIsCovered(levels, prefixes, a);
    }
  }

  /** One table per head, in any order of the heads. */
  method WriteTables(second: map<Prefix, seq<Prefix>>) returns (tables: map<Prefix, Table>)
    ensures tables == map k | k in second :: TableOf(second[k])
  {
    tables := map[];
    var heads := second.Keys;
    while heads != {}
      invariant heads <= second.Keys
      invariant tables == map k | k in second && k !in heads :: TableOf(second[k])
      decreases |heads|
    {
      SomeElement(heads);
      var k :| k in heads;
      var table := EmitTable(second[k]);
      tables := tables[k := table];
      heads := heads - {k};
    }
  }

  lemma SomeElement(s: set<Prefix>)
    requires s != {}
    ensures exists k :: k in s
  {
    if forall k :: k !in s { assert false; }
  }

  lemma {:induction false} LongestBound(tails: seq<Prefix>, n: nat)
    requires forall t :: t in tails ==> |t| <= n
    ensures Longest(tails) <= n
  {
    if tails != [] { LongestBound(tails[1..], n); }
  }

  ghost function DesignOf(levels: Levels): Design {
    Design(levels.first, map k | k in levels.second :: TableOf(levels.second[k]))
  }

  lemma AnswerIsCovered(levels: Levels, xs: seq<Prefix>, a: Address)
    requires forall x :: x in xs ==> FIRST_LEVEL_BITS <= |x| <= ADDRESS_BITS
    requires Splits(levels, xs, FIRST_LEVEL_BITS) && ValidDesign(DesignOf(levels))
    ensures Answer(DesignOf(levels), a) <==> Covered(xs, levels.errors, a)
  {
    var head := a[..FIRST_LEVEL_BITS];
    if head in levels.second {
      assert DesignOf(levels).tables[head] == TableOf(levels.second[head]);
      UnderHead(levels, xs, a, head, levels.second[head]);
    } else {
      if head in levels.first { assert head <= a; }
      if x :| x in xs && x !in levels.errors && x <= a {
        FirstOrUnder(levels, xs, a, x);
      }
    }
  }

  /** A prefix that covers an address and was not dropped is in the first level, or its head has a table. */
  lemma FirstOrUnder(levels: Levels, xs: seq<Prefix>, a: Address, x: Prefix)
    requires Splits(levels, xs, FIRST_LEVEL_BITS)
    requires x in xs && x !in levels.errors && x <= a && |x| >= FIRST_LEVEL_BITS
    ensures a[..FIRST_LEVEL_BITS] in levels.first || a[..FIRST_LEVEL_BITS] in levels.second
  {
    var head := a[..FIRST_LEVEL_BITS];
    HeadAndTail(x, a, FIRST_LEVEL_BITS);
    if |x| > FIRST_LEVEL_BITS { assert Extended(xs, head); } else { assert x == head; }
  }

  lemma UnderHead(levels: Levels, xs: seq<Prefix>, a: Address, head: Prefix, tails: seq<Prefix>)
    requires Splits(levels, xs, FIRST_LEVEL_BITS)
    requires head == a[..FIRST_LEVEL_BITS] && head in levels.second && tails == levels.second[head]
    requires FIRST_LEVEL_BITS + Longest(tails) <= ADDRESS_BITS
    requires forall x :: x in xs ==> FIRST_LEVEL_BITS <= |x|
    ensures TableOutput(TableOf(tails), a) <==> Covered(xs, levels.errors, a)
  {
    hide Splits, Longest, Patterns, Lookup;
    var bits := a[FIRST_LEVEL_BITS..FIRST_LEVEL_BITS + Longest(tails)];
    LookupIsPrefix(tails, Longest(tails), bits);
    if Covered(xs, levels.errors, a) {
      var x :| x in xs && x !in levels.errors && x <= a;
      TailListed(levels, xs, a, head, x);
      HeadAndTail(x, a, FIRST_LEVEL_BITS);
      assert x[FIRST_LEVEL_BITS..] <= bits;
    }
    if t :| t in tails && t <= bits {
      PrefixListed(levels, xs, a, head, t, Longest(tails));
    }
  }

  lemma PrefixListed(levels: Levels, xs: seq<Prefix>, a: Address, head: Prefix, t: Prefix, width: nat)
    requires Splits(levels, xs, FIRST_LEVEL_BITS)
    requires head == a[..FIRST_LEVEL_BITS] && head in levels.second && t in levels.second[head]
    requires FIRST_LEVEL_BITS + width <= ADDRESS_BITS
    requires t <= a[FIRST_LEVEL_BITS..FIRST_LEVEL_BITS + width]
    ensures Covered(xs, levels.errors, a)
  {
    assert head + t <= a;
    assert head + t in xs && head + t !in levels.errors;
  }

  lemma TailListed(levels: Levels, xs: seq<Prefix>, a: Address, head: Prefix, x: Prefix)
    requires Splits(levels, xs, FIRST_LEVEL_BITS)
    requires head == a[..FIRST_LEVEL_BITS] && head in levels.second
    requires x in xs && x !in levels.errors && x <= a && |x| >= FIRST_LEVEL_BITS
    ensures x[FIRST_LEVEL_BITS..] in levels.second[head]
  {
    HeadAndTail(x, a, FIRST_LEVEL_BITS);
    assert |x| == FIRST_LEVEL_BITS ==> x == head;
    if |x| == FIRST_LEVEL_BITS {
      assert false;
    }
  }

  lemma HeadAndTail(x: Prefix, a: Address, n: nat)
    requires n <= |x| && x <= a
    ensures x == a[..n] + x[n..] && a[..n] <= x
    ensures forall m :: |x| <= m <= |a| ==> x[n..] <= a[n..m]
  {
  }

  // The clocked matcher

  datatype Inputs = Inputs(addr: Address, valid: bool, rst: bool)

  datatype Registers = Registers(addrR: Address, validR: bool, found: bool, done: bool, outputs: map<Prefix, bool>)

  /** One rising clock edge. */
  function Edge(d: Design, r: Registers, i: Inputs): (r': Registers)
    requires ValidDesign(d) && r.outputs.Keys == d.tables.Keys
    ensures r'.outputs.Keys == d.tables.Keys
  {
    Registers(
      i.addr,
      i.valid && !i.rst,
      (r.found || TopCase(d, r.addrR, r.outputs)) && !i.valid && !i.rst,
      (r.done || r.validR) && !i.valid && !i.rst,
      map k | k in d.tables :: !i.rst && TableOutput(d.tables[k], i.addr))
  }

  function Edges(d: Design, r: Registers, inputs: seq<Inputs>): (r': Registers)
    requires ValidDesign(d) && r.outputs.Keys == d.tables.Keys
    ensures r'.outputs.Keys == d.tables.Keys
    decreases |inputs|
  {
    if inputs == [] then r
    else Edge(d, Edges(d, r, inputs[..|inputs| - 1]), inputs[|inputs| - 1])
  }

  /** A reset clears the answer, and without a new query nothing is done from then on. */
  lemma {:induction false} QuietAfterReset(d: Design, r: Registers, inputs: seq<Inputs>)
    requires ValidDesign(d) && r.outputs.Keys == d.tables.Keys
    requires inputs != [] && inputs[0].rst && forall i :: 0 < i < |inputs| ==> !inputs[i].valid
    ensures var last := Edges(d, r, inputs);
            && !last.done && !last.validR
            && (inputs[|inputs| - 1].rst ==> !last.found && forall k :: k in d.tables ==> !last.outputs[k])
    decreases |inputs|
  {
    var n := |inputs| - 1;
    if n > 0 { QuietAfterReset(d, r, inputs[..n]); }
  }

  /** A query: valid on the first edge and on no later one, without a reset. */
  predicate Query(inputs: seq<Inputs>) {
    && inputs != []
    && forall i :: 0 <= i < |inputs| ==> (inputs[i].valid <==> i == 0) && !inputs[i].rst
  }

  ghost predicate AnsweredBefore(d: Design, inputs: seq<Inputs>, n: nat)
    requires ValidDesign(d) && n <= |inputs|
  {
    exists i :: 0 <= i < n && Answer(d, inputs[i].addr)
  }

  /** From any state of the registers: done rises with the second edge, and the match flag gathers the
      answers for every address presented up to the edge before. */
  lemma {:induction false} QueryRun(d: Design, r: Registers, inputs: seq<Inputs>)
    requires ValidDesign(d) && r.outputs.Keys == d.tables.Keys && Query(inputs)
    ensures var last := Edges(d, r, inputs);
            && last.addrR == inputs[|inputs| - 1].addr
            && (last.validR <==> |inputs| == 1)
            && (TopCase(d, last.addrR, last.outputs) <==> Answer(d, last.addrR))
            && (last.done <==> |inputs| >= 2)
            && (last.found <==> AnsweredBefore(d, inputs, |inputs| - 1))
    decreases |inputs|
  {
    var n := |inputs|;
    var front := inputs[..n - 1];
    var prev := Edges(d, r, front);
    var last := Edges(d, r, inputs);
    assert last.outputs == map k | k in d.tables :: TableOutput(d.tables[k], last.addrR);
    if n >= 2 {
      QueryRun(d, r, front);
      assert AnsweredBefore(d, inputs, n - 1) <==>
             AnsweredBefore(d, front, n - 2) || Answer(d, inputs[n - 2].addr);
    }
  }

  /** With the address held, two edges after the pulse and until the next one, the matcher is done and
      reports whether a listed prefix covers the address. */
  lemma {:induction false} HeldQuery(d: Design, xs: seq<Prefix>, dropped: seq<Prefix>, r: Registers, inputs: seq<Inputs>, a: Address)
    requires ValidDesign(d) && r.outputs.Keys == d.tables.Keys
    requires forall b: Address :: Answer(d, b) <==> Covered(xs, dropped, b)
    requires Query(inputs) && |inputs| >= 2 && forall i :: 0 <= i < |inputs| ==> inputs[i].addr == a
    ensures Edges(d, r, inputs).done
    ensures Edges(d, r, inputs).found <==> Covered(xs, dropped, a)
  {
    QueryRun(d, r, inputs);
    assert inputs[0].addr == a;
  }
}
