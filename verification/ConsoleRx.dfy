/** The console's input pump: chains popped from the receive queue are filled from a byte source that
    may deliver part of a read, nothing yet, its end, or an error. Only lengths are modelled: data that
    arrives after a partly filled descriptor goes to the next one. */
module ConsoleRx {
  import opened ConsoleEvents
  import opened VirtQueue
  import opened Wrappers

  /** A chain's writable descriptors, by length. */
  datatype Chain = Chain(head: nat, writable: seq<nat>)

  datatype Outcome = Delivers(most: nat) | WouldBlock | Fails

  datatype IoResult = Ok(n: nat) | Err

  // ---- the input, on values ----

  /** What the coming reads of a non-empty buffer will do; afterwards nothing arrives any more. As
      history, `ended` says whether such a read has met the end of the input, and `probed` whether
      there was a read into an empty buffer. */
  datatype Source = Source(taken: nat, outcomes: seq<Outcome>, ended: bool, probed: bool)

  /** A read of at most `len` bytes; None if it would block. A read of no bytes returns 0 and has no
      other effect. */
  function Read(s: Source, len: nat): (Source, Option<IoResult>) {
    if len == 0 then (s.(probed := true), Some(Ok(0)))
    else if s.outcomes == [] then (s, None)
    else
      var s1 := s.(outcomes := s.outcomes[1..]);
      match s.outcomes[0]
      case WouldBlock => (s1, None)
      case Fails => (s1, Some(Err))
      case Delivers(most) =>
        var n := if most < len then most else len;
        (s1.(taken := s.taken + n, ended := s.ended || n == 0), Some(Ok(n)))
  }

  /** `try_access` over one descriptor: reads until it is full or a read delivers nothing. An error
      forgets how much was already read. */
  function ReadDesc(s: Source, len: nat): (Source, IoResult)
    decreases len
  {
    match Read(s, len)
    case (s1, None) => (s1, Ok(0))
    case (s1, Some(Err)) => (s1, Err)
    case (s1, Some(Ok(n))) =>
      if n == 0 || n >= len then (s1, Ok(n))
      else
        var (s2, r) := ReadDesc(s1, len - n);
        (s2, if r.Err? then Err else Ok(n + r.n))
  }

  /** A chain's descriptors in order, up to the first one that receives nothing, and the bytes that
      are counted for it. */
  function ReadChain(s: Source, writable: seq<nat>): (Source, nat)
    decreases writable
  {
    if writable == [] then (s, 0)
    else
      var (s1, r) := ReadDesc(s, writable[0]);
      if r == Ok(0) then (s1, 0)
      else
        var (s2, n) := ReadChain(s1, writable[1..]);
        (s2, n + if r.Ok? then r.n else 0)
  }

  predicate NoErrors(outcomes: seq<Outcome>) {
    Fails !in outcomes
  }

  function Capacity(lens: seq<nat>): nat {
    if lens == [] then 0 else lens[0] + Capacity(lens[1..])
  }

  /** The bytes that arrive before the input pauses, ends or fails. */
  function Arriving(outcomes: seq<Outcome>): nat {
    if outcomes == [] then 0
    else match outcomes[0]
         case Delivers(most) => if most == 0 then 0 else most + Arriving(outcomes[1..])
         case _ => 0
  }

  /** Whether it is an error that ends the stretch of arriving bytes. */
  predicate FailsNext(outcomes: seq<Outcome>) {
    outcomes != [] && match outcomes[0]
                      case Delivers(most) => most > 0 && FailsNext(outcomes[1..])
                      case WouldBlock => false
                      case Fails => true
  }

  /** A descriptor is filled as far as bytes arrive, unless an error comes first. */
  lemma {:induction false} DescIsFilled(s: Source, len: nat)
    ensures var (s', r) := ReadDesc(s, len);
            && (r.Err? <==> FailsNext(s.outcomes) && Arriving(s.outcomes) < len)
            && (r.Ok? ==> r.n == (if Arriving(s.outcomes) < len then Arriving(s.outcomes) else len)
                          && s'.taken == s.taken + r.n)
            && (NoErrors(s.outcomes) ==> NoErrors(s'.outcomes) && r.Ok?)
    decreases len
  {
    if len > 0 && s.outcomes != [] && s.outcomes[0].Delivers? && 0 < s.outcomes[0].most < len {
      DescIsFilled(Read(s, len).0, len - s.outcomes[0].most);
    }
  }

  /** Without read errors the count of a chain is what was taken from the input for it. */
  lemma {:induction false} ChainIsCounted(s: Source, writable: seq<nat>)
    requires NoErrors(s.outcomes)
    ensures var (s', n) := ReadChain(s, writable);
            NoErrors(s'.outcomes) && s'.taken == s.taken + n && n <= Capacity(writable)
    decreases writable
  {
    hide ReadDesc, FailsNext, Arriving, NoErrors;
    if writable != [] {
      DescIsFilled(s, writable[0]);
      ChainIsCounted(ReadDesc(s, writable[0]).0, writable[1..]);
    }
  }

  /** Whatever errors there are, nothing is counted for a chain that was not taken from the input for it. */
  lemma {:induction false} CountedIsTaken(s: Source, writable: seq<nat>)
    ensures ReadChain(s, writable).1 <= ReadChain(s, writable).0.taken - s.taken
    decreases writable
  {
    hide ReadDesc;
    if writable != [] {
      DescCountedIsTaken(s, writable[0]);
      CountedIsTaken(ReadDesc(s, writable[0]).0, writable[1..]);
    }
  }

  lemma {:induction false} DescCountedIsTaken(s: Source, len: nat)
    ensures var (s', r) := ReadDesc(s, len); s.taken + (if r.Ok? then r.n else 0) <= s'.taken
    decreases len
  {
    if len > 0 && s.outcomes != [] && s.outcomes[0].Delivers? && 0 < s.outcomes[0].most < len {
      DescCountedIsTaken(Read(s, len).0, len - s.outcomes[0].most);
    }
  }

  /** An error in the middle of a descriptor: its two bytes were taken and are not counted, and the next
      descriptor is filled. */
  lemma FailedReadIsSkipped()
    ensures ReadChain(Source(0, [Delivers(2), Fails, Delivers(3)], false, false), [5, 3])
         == (Source(5, [], false, false), 3)
  {
    var s := Source(0, [Delivers(2), Fails, Delivers(3)], false, false);
    var s1, s2 := Source(2, [Fails, Delivers(3)], false, false), Source(2, [Delivers(3)], false, false);
    assert s.outcomes[1..] == s1.outcomes && s1.outcomes[1..] == s2.outcomes && s2.outcomes[1..] == [];
    assert ReadDesc(s1, 3) == (s2, Err);
    assert ReadDesc(s, 5) == (s2, Err);
    assert ReadDesc(s2, 3) == (Source(5, [], false, false), Ok(3));
    assert [5, 3][1..] == [3] && [3][1..] == [];
    assert ReadChain(Source(5, [], false, false), []) == (Source(5, [], false, false), 0);
    assert ReadChain(s2, [3]) == (Source(5, [], false, false), 3);
  }

  // ---- the end of the input ----

  /** When the program takes the input to be at its end: its `eof` flag. */
  predicate AtEnd(s: Source) {
    s.ended || s.probed
  }

  /** Descriptor `i` is read from: each one before it has received something or failed. */
  predicate Reaches(s: Source, writable: seq<nat>, i: nat)
    decreases writable
  {
    i < |writable| &&
    (i > 0 ==>
       var (s1, r) := ReadDesc(s, writable[0]);
       r != Ok(0) && Reaches(s1, writable[1..], i - 1))
  }

  predicate ReachesEmpty(s: Source, writable: seq<nat>) {
    exists i :: 0 <= i < |writable| && writable[i] == 0 && Reaches(s, writable, i)
  }

  /** Whether it is the end of the input that ends the stretch of arriving bytes. */
  predicate EndsNext(outcomes: seq<Outcome>) {
    outcomes != [] && outcomes[0].Delivers? && (outcomes[0].most > 0 ==> EndsNext(outcomes[1..]))
  }

  lemma {:induction false} DescProbes(s: Source, len: nat)
    ensures ReadDesc(s, len).0.probed <==> s.probed || len == 0
    ensures ReadDesc(s, len).0.ended <==> s.ended || (Arriving(s.outcomes) < len && EndsNext(s.outcomes))
    decreases len
  {
    if len > 0 && s.outcomes != [] && s.outcomes[0].Delivers? && 0 < s.outcomes[0].most < len {
      DescProbes(Read(s, len).0, len - s.outcomes[0].most);
    }
  }

  /** The flag has two causes: the end of the input, and a zero-length descriptor that is reached. */
  lemma {:induction false} ChainProbes(s: Source, writable: seq<nat>)
    ensures ReadChain(s, writable).0.probed <==> s.probed || ReachesEmpty(s, writable)
    decreases writable
  {
    hide ReadDesc;
    if writable != [] {
      var (s1, r) := ReadDesc(s, writable[0]);
      DescProbes(s, writable[0]);
      if writable[0] == 0 {
        EmptyReceivesNothing(s);
        assert Reaches(s, writable, 0);
      } else {
        ChainProbes(s1, writable[1..]);
        ReachesNext(s, writable);
      }
    }
  }

  lemma EmptyReceivesNothing(s: Source)
    ensures ReadDesc(s, 0) == (s.(probed := true), Ok(0))
  {
  }

  lemma ReachesNext(s: Source, writable: seq<nat>)
    requires writable != [] && writable[0] != 0
    ensures ReachesEmpty(s, writable) <==>
              ReadDesc(s, writable[0]).1 != Ok(0) && ReachesEmpty(ReadDesc(s, writable[0]).0, writable[1..])
  {
    hide ReadDesc;
    var (s1, r) := ReadDesc(s, writable[0]);
    if ReachesEmpty(s, writable) {
      var i :| 0 <= i < |writable| && writable[i] == 0 && Reaches(s, writable, i);
      assert writable[1..][i - 1] == 0 && Reaches(s1, writable[1..], i - 1);
    }
    if r != Ok(0) && ReachesEmpty(s1, writable[1..]) {
      var i :| 0 <= i < |writable[1..]| && writable[1..][i] == 0 && Reaches(s1, writable[1..], i);
      assert writable[i + 1] == 0 && Reaches(s, writable, i + 1);
    }
  }

  /** From an input that is not at its end, the flag is truthful after a chain exactly if the input
      has ended or no zero-length descriptor was reached. */
  lemma EndIsTruthfulIff(s: Source, writable: seq<nat>)
    requires !AtEnd(s)
    ensures var s' := ReadChain(s, writable).0;
            (AtEnd(s') ==> s'.ended) <==> s'.ended || !ReachesEmpty(s, writable)
  {
    ChainProbes(s, writable);
  }

  /** A chain's report is truthful on every input exactly if it has no zero-length descriptor. */
  lemma AlwaysTruthfulIff(writable: seq<nat>)
    ensures (forall s: Source :: !AtEnd(s) ==> (AtEnd(ReadChain(s, writable).0) ==> ReadChain(s, writable).0.ended))
       <==> 0 !in writable
  {
    if 0 in writable {
      var s := FalseReport(writable, 0);
      assert !AtEnd(s) && AtEnd(ReadChain(s, writable).0) && !ReadChain(s, writable).0.ended;
    } else {
      forall s: Source | !AtEnd(s) ensures AtEnd(ReadChain(s, writable).0) ==> ReadChain(s, writable).0.ended {
        ChainProbes(s, writable);
      }
    }
  }

  /** An input that fills every descriptor before a zero-length one, and still has bytes to come. */
  lemma {:induction false} FalseReport(writable: seq<nat>, taken: nat) returns (s: Source)
    requires 0 in writable
    ensures s.taken == taken && !AtEnd(s) && NoErrors(s.outcomes)
    ensures var s' := ReadChain(s, writable).0; s'.probed && !s'.ended && s'.outcomes == [Delivers(1)]
    decreases writable
  {
    if writable[0] == 0 {
      s := Source(taken, [Delivers(1)], false, false);
    } else {
      var later := FalseReport(writable[1..], taken + writable[0]);
      s := Source(taken, [Delivers(writable[0])] + later.outcomes, false, false);
      assert s.outcomes[1..] == later.outcomes;
      assert ReadDesc(s, writable[0]) == (later, Ok(writable[0]));
    }
  }

  // ---- a run, as the chains it visits ----

  /** A chain popped from the queue, and the input when its turn came. */
  datatype Visit = Visit(chain: Chain, before: Source) {
    function After(): Source { ReadChain(before, chain.writable).0 }

    function Received(): nat { ReadChain(before, chain.writable).1 }

    /** A chain that received nothing is put back; any other is returned. */
    predicate Returned() { Received() > 0 }

    /** Returned, and the pump goes on. */
    predicate GoesOn() { Returned() && !AtEnd(After()) }

    /** Returned with the input taken to be at its end. */
    predicate Closes() { Returned() && AtEnd(After()) }
  }

  /** The visits lead the input from one state to another. */
  predicate Leads(first: Source, visits: seq<Visit>, last: Source) {
    if visits == [] then first == last
    else
      var v := visits[|visits| - 1];
      Leads(first, visits[..|visits| - 1], v.before) && v.After() == last
  }

  function ReturnedChains(visits: seq<Visit>): seq<Chain> {
    if visits == [] then []
    else
      var v := visits[|visits| - 1];
      ReturnedChains(visits[..|visits| - 1]) + if v.Returned() then [v.chain] else []
  }

  /** One used entry for each returned chain, with the bytes it received. */
  function UsedFor(visits: seq<Visit>): seq<Used> {
    if visits == [] then []
    else
      var v := visits[|visits| - 1];
      UsedFor(visits[..|visits| - 1]) + if v.Returned() then [Used(v.chain.head, v.Received() % U32_SIZE)] else []
  }

  /** What a stretch of visits does to the input and the used ring, and which chains it returns. */
  predicate Run(first: Source, visits: seq<Visit>, last: Source, returned: seq<Chain>, entries: seq<Used>) {
    Leads(first, visits, last) && ReturnedChains(visits) == returned && UsedFor(visits) == entries
  }

  lemma NoVisits(s: Source)
    ensures Run(s, [], s, [], [])
  {
  }

  /** The used entries are those of the returned chains, in order, and each reports, below 2^32, the bytes
      that its chain received. */
  lemma {:induction false} ReportedLength(visits: seq<Visit>, i: nat) returns (v: Visit)
    requires i < |UsedFor(visits)|
    ensures |ReturnedChains(visits)| == |UsedFor(visits)| && v in visits && v.Returned()
    ensures v.chain == ReturnedChains(visits)[i] && UsedFor(visits)[i].head == v.chain.head
    ensures v.Received() < 0x1_0000_0000 ==> UsedFor(visits)[i].len == v.Received()
  {
    hide ReadChain;
    var init, last := visits[..|visits| - 1], visits[|visits| - 1];
    OneEntryEach(init);
    if i < |UsedFor(init)| {
      v := ReportedLength(init, i);
    } else {
      v := last;
    }
  }

  lemma {:induction false} OneEntryEach(visits: seq<Visit>)
    ensures |ReturnedChains(visits)| == |UsedFor(visits)|
  {
    hide ReadChain;
    if visits != [] {
      OneEntryEach(visits[..|visits| - 1]);
    }
  }

  lemma AddVisit(visits: seq<Visit>, v: Visit)
    ensures ReturnedChains(visits + [v]) == ReturnedChains(visits) + if v.Returned() then [v.chain] else []
    ensures UsedFor(visits + [v])
         == UsedFor(visits) + if v.Returned() then [Used(v.chain.head, v.Received() % U32_SIZE)] else []
    ensures forall first, last ::
              Leads(first, visits + [v], last) <==> Leads(first, visits, v.before) && v.After() == last
  {
    hide ReadChain;
    assert (visits + [v])[..|visits|] == visits;
  }

  lemma {:induction false} RunsJoin(first: Source, a: seq<Visit>, mid: Source, b: seq<Visit>, last: Source)
    requires Leads(first, a, mid) && Leads(mid, b, last)
    ensures Leads(first, a + b, last)
    ensures ReturnedChains(a + b) == ReturnedChains(a) + ReturnedChains(b)
    ensures UsedFor(a + b) == UsedFor(a) + UsedFor(b)
  {
    if b == [] {
      assert a + b == a;
    } else {
      hide Leads, ReturnedChains, UsedFor, ReadChain;
      var init, v := b[..|b| - 1], b[|b| - 1];
      assert b == init + [v] && a + b == (a + init) + [v];
      AddVisit(init, v);
      AddVisit(a + init, v);
      RunsJoin(first, a, mid, init, v.before);
      Regroup(ReturnedChains(a), ReturnedChains(init), if v.Returned() then [v.chain] else []);
      Regroup(UsedFor(a), UsedFor(init), if v.Returned() then [Used(v.chain.head, v.Received() % U32_SIZE)] else []);
    }
  }

  lemma OneMoreVisit(first: Source, visits: seq<Visit>, v: Visit, returned: seq<Chain>, entries: seq<Used>)
    requires Run(first, visits, v.before, returned, entries)
    ensures v.Returned() ==> Run(first, visits + [v], v.After(), returned + [v.chain],
                                 entries + [Used(v.chain.head, v.Received() % U32_SIZE)])
    ensures !v.Returned() ==> Run(first, visits + [v], v.After(), returned, entries)
  {
    hide ReadChain, Leads, ReturnedChains, UsedFor;
    AddVisit(visits, v);
  }

  // ---- what holds of every run ----

  function TotalLen(used: seq<Used>): nat {
    if used == [] then 0 else TotalLen(used[..|used| - 1]) + used[|used| - 1].len
  }

  /** Chains are smaller than the 32-bit length of a used entry. */
  predicate LengthsFit(visits: seq<Visit>) {
    forall v :: v in visits ==> Capacity(v.chain.writable) < U32_SIZE
  }

  lemma VisitIsCounted(v: Visit)
    requires NoErrors(v.before.outcomes)
    ensures NoErrors(v.After().outcomes)
    ensures v.After().taken == v.before.taken + v.Received() && v.Received() <= Capacity(v.chain.writable)
  {
    ChainIsCounted(v.before, v.chain.writable);
  }

  /** Without read errors a chain is put back exactly if no byte arrives, or it has no room at its
      start: no writable descriptor, or an empty one first. */
  lemma PutBackIff(v: Visit)
    requires NoErrors(v.before.outcomes)
    ensures !v.Returned() <==>
              v.chain.writable == [] || v.chain.writable[0] == 0 || Arriving(v.before.outcomes) == 0
  {
    hide ReadDesc, FailsNext, Arriving;
    var writable := v.chain.writable;
    if writable == [] {
      assert ReadChain(v.before, writable).1 == 0;
    } else {
      DescIsFilled(v.before, writable[0]);
      var (s1, r) := ReadDesc(v.before, writable[0]);
      assert ReadChain(v.before, writable).1 == if r.n == 0 then 0 else ReadChain(s1, writable[1..]).1 + r.n;
    }
  }

  lemma OneMoreUsed(used: seq<Used>, u: Used)
    ensures TotalLen(used + [u]) == TotalLen(used) + u.len
  {
    assert (used + [u])[..|used|] == used;
  }

  /** Without read errors the bytes taken from the input are those reported on the used ring, and no
      used entry is empty. */
  lemma {:induction false} BytesAreReported(first: Source, visits: seq<Visit>, last: Source)
    requires Leads(first, visits, last) && NoErrors(first.outcomes) && LengthsFit(visits)
    ensures NoErrors(last.outcomes) && last.taken == first.taken + TotalLen(UsedFor(visits))
    ensures forall u :: u in UsedFor(visits) ==> u.len > 0
  {
    if visits != [] {
      var init, v := visits[..|visits| - 1], visits[|visits| - 1];
      assert v in visits && forall x :: x in init ==> x in visits;
      hide ReadChain, Capacity, NoErrors, TotalLen;
      BytesAreReported(first, init, v.before);
      VisitIsCounted(v);
      OneMoreUsed(UsedFor(init), Used(v.chain.head, v.Received() % U32_SIZE));
      assert UsedFor(init) + [] == UsedFor(init);
    }
  }

  /** The pump's flag has been raised by the end of the input, or by a visit that reached a
      zero-length descriptor. */
  lemma {:induction false} RunProbes(first: Source, visits: seq<Visit>, last: Source)
    requires Leads(first, visits, last)
    ensures last.probed <==>
              first.probed || exists i :: 0 <= i < |visits| && ReachesEmpty(visits[i].before, visits[i].chain.writable)
  {
    if visits != [] {
      hide ReadChain, ReachesEmpty;
      var n := |visits| - 1;
      var init, v := visits[..n], visits[n];
      assert forall i :: 0 <= i < n ==> visits[i] == init[i];
      RunProbes(first, init, v.before);
      ChainProbes(v.before, v.chain.writable);
    }
  }

  /** Over a whole run the flag is truthful exactly if the input has ended or no visit reached a
      zero-length descriptor. */
  lemma RunIsTruthfulIff(first: Source, visits: seq<Visit>, last: Source)
    requires Leads(first, visits, last) && !AtEnd(first)
    ensures (AtEnd(last) ==> last.ended) <==>
              last.ended || forall i :: 0 <= i < |visits| ==> !ReachesEmpty(visits[i].before, visits[i].chain.writable)
  {
    RunProbes(first, visits, last);
  }

  /** If no chain has a zero-length descriptor, the flag means the end of the input. */
  lemma RunIsTruthful(first: Source, visits: seq<Visit>, last: Source)
    requires Leads(first, visits, last) && !first.probed
    requires forall v :: v in visits ==> 0 !in v.chain.writable
    ensures AtEnd(last) <==> last.ended
  {
    RunProbes(first, visits, last);
    forall i | 0 <= i < |visits| ensures !ReachesEmpty(visits[i].before, visits[i].chain.writable) {
      assert visits[i] in visits;
    }
  }

  // ---- the input object ----

  class PortInput {
    var taken: nat
    var outcomes: seq<Outcome>
    ghost var ended: bool
    ghost var probed: bool

    ghost function State(): Source
      reads this
    {
      Source(taken, outcomes, ended, probed)
    }

    constructor (outcomes: seq<Outcome>)
      ensures State() == Source(0, outcomes, false, false)
    {
      taken, ended, probed := 0, false, false;
      this.outcomes := outcomes;
    }

    method ReadVolatile(len: nat) returns (r: Option<IoResult>)
      modifies this
      ensures (State(), r) == Read(old(State()), len)
    {
      if len == 0 {
        probed := true;
        return Some(Ok(0));
      }
      if outcomes == [] {
        return None;
      }
      var outcome := outcomes[0];
      outcomes := outcomes[1..];
      match outcome
      case WouldBlock => return None;
      case Fails => return Some(Err);
      case Delivers(most) =>
        var n := if most < len then most else len;
        taken, ended := taken + n, ended || n == 0;
        return Some(Ok(n));
    }
  }

  /** What one read leaves to do for a descriptor that is filled up to `total`. */
  function FilledSoFar(s: Source, total: nat, len: nat): (Source, IoResult) {
    var (s', r) := ReadDesc(s, len);
    (s', if r.Err? then Err else Ok(total + r.n))
  }

  lemma NothingRead(s: Source, len: nat)
    ensures FilledSoFar(s, 0, len) == ReadDesc(s, len)
  {
  }

  lemma OneMoreRead(s: Source, total: nat, len: nat)
    ensures var (s1, r) := Read(s, len);
            FilledSoFar(s, total, len) ==
              match r
              case None => (s1, Ok(total))
              case Some(Err) => (s1, Err)
              case Some(Ok(n)) =>
                if n == 0 || n >= len then (s1, Ok(total + n)) else FilledSoFar(s1, total + n, len - n)
    ensures var (s1, r) := Read(s, len);
            AtEnd(s1) <==> AtEnd(s) || r == Some(Ok(0))
    ensures var r := Read(s, len).1; r.Some? && r.value.Ok? ==> r.value.n <= len
  {
  }

  /** `try_access` over one descriptor, and the flag its callback raises. */
  method ReadToDesc(len: nat, input: PortInput, eof0: bool) returns (r: IoResult, eof: bool)
    requires eof0 == AtEnd(input.State())
    modifies input
    ensures (input.State(), r) == ReadDesc(old(input.State()), len)
    ensures eof == AtEnd(input.State())
  {
    hide FilledSoFar, Read, AtEnd;
    eof := eof0;
    var total := 0;
    ghost var first := input.State();
    NothingRead(first, len);
    while true
      invariant total < len || total == len == 0
      invariant eof == AtEnd(input.State())
      invariant ReadDesc(first, len) == FilledSoFar(input.State(), total, len - total)
      decreases len - total
    {
      OneMoreRead(input.State(), total, len - total);
      var read := input.ReadVolatile(len - total);
      var n := 0;
      match read {
        case None =>
        case Some(Err) =>
          return Err, eof;
        case Some(Ok(k)) =>
          if k == 0 {
            eof := true;
          }
          n := k;
      }
      if n == 0 {
        return Ok(total), eof;
      }
      total := total + n;
      if total == len {
        return Ok(total), eof;
      }
    }
  }

  method ProcessRxChain(chain: Chain, input: PortInput, eof0: bool) returns (bytesRead: nat, eof: bool)
    requires eof0 == AtEnd(input.State())
    modifies input
    ensures (input.State(), bytesRead) == ReadChain(old(input.State()), chain.writable)
    ensures eof == AtEnd(input.State())
  {
    hide ReadDesc;
    bytesRead, eof := 0, eof0;
    var i := 0;
    ghost var all := ReadChain(input.State(), chain.writable);
    while i < |chain.writable|
      invariant i <= |chain.writable|
      invariant eof == AtEnd(input.State())
      invariant all == var (s, n) := ReadChain(input.State(), chain.writable[i..]); (s, bytesRead + n)
    {
      assert chain.writable[i..][1..] == chain.writable[i + 1..];
      var r;
      r, eof := ReadToDesc(chain.writable[i], input, eof);
      match r {
        case Ok(n) =>
          if n == 0 {
            break;
          }
          bytesRead := bytesRead + n;
        case Err =>
      }
      i := i + 1;
    }
  }

  // ---- the event loop ----

  datatype End = Stopped | Waiting | Closed

  datatype DrainEnd = RingEmpty | PutBack | InputEnded

  /** All visits but the last are of chains that are returned without the input being at its end. */
  predicate AllGoOn(visits: seq<Visit>) {
    forall i :: 0 <= i < |visits| ==> visits[i].GoesOn()
  }

  /** Every visit is of the next chain that has not been returned, counting from `from`. */
  predicate VisitsOf(visits: seq<Visit>, stream: seq<Chain>, from: nat) {
    forall i :: 0 <= i < |visits| ==> IsNext(visits[..i], visits[i], stream, from)
  }

  predicate IsNext(earlier: seq<Visit>, v: Visit, stream: seq<Chain>, from: nat) {
    var at := from + |ReturnedChains(earlier)|;
    at < |stream| && v.chain == stream[at]
  }

  /** Why a drain stopped: the ring was empty, the next chain received nothing and was put back, or a
      chain was returned with the input taken to be at its end. Every visit before that went on. */
  ghost predicate DrainedUntil(queue: Queue<Chain>, stop: DrainEnd, visits: seq<Visit>)
    reads queue`next, queue`avail
  {
    match stop
    case RingEmpty => queue.next == |queue.avail| && AllGoOn(visits)
    case PutBack =>
      && queue.next < |queue.avail| && visits != [] && AllGoOn(visits[..|visits| - 1])
      && visits[|visits| - 1].chain == queue.avail[queue.next] && !visits[|visits| - 1].Returned()
    case InputEnded =>
      visits != [] && AllGoOn(visits[..|visits| - 1]) && visits[|visits| - 1].Closes()
  }

  lemma NothingDrained(stream: seq<Chain>, from: nat)
    ensures AllGoOn([]) && VisitsOf([], stream, from)
  {
  }

  lemma OneMoreDrained(first: Source, visits: seq<Visit>, v: Visit, returned: seq<Chain>, entries: seq<Used>,
                       stream: seq<Chain>, from: nat)
    requires Run(first, visits, v.before, returned, entries)
    requires AllGoOn(visits) && VisitsOf(visits, stream, from)
    requires from + |returned| < |stream| && v.chain == stream[from + |returned|]
    ensures v.GoesOn() ==> AllGoOn(visits + [v])
    ensures VisitsOf(visits + [v], stream, from)
  {
    assert IsNext(visits, v, stream, from);
    hide ReadChain, Run, IsNext;
    var longer := visits + [v];
    forall i | 0 <= i < |longer| ensures IsNext(longer[..i], longer[i], stream, from) {
      assert longer[..i] == if i < |visits| then visits[..i] else visits;
    }
  }

  lemma UntilEmpty(queue: Queue<Chain>, visits: seq<Visit>)
    requires queue.next == |queue.avail| && AllGoOn(visits)
    ensures DrainedUntil(queue, RingEmpty, visits)
  {
  }

  lemma UntilPutBack(queue: Queue<Chain>, earlier: seq<Visit>, v: Visit)
    requires queue.next < |queue.avail| && v.chain == queue.avail[queue.next] && !v.Returned() && AllGoOn(earlier)
    ensures DrainedUntil(queue, PutBack, earlier + [v])
  {
    assert (earlier + [v])[..|earlier + [v]| - 1] == earlier;
  }

  lemma UntilClosed(queue: Queue<Chain>, earlier: seq<Visit>, v: Visit)
    requires v.Closes() && AllGoOn(earlier)
    ensures DrainedUntil(queue, InputEnded, earlier + [v])
  {
    assert (earlier + [v])[..|earlier + [v]| - 1] == earlier;
  }

  /** Pops until the ring is empty, a chain receives nothing, or a chain is returned with the input
      taken to be at its end. */
  method DrainRx(queue: Queue<Chain>, input: PortInput, eof0: bool)
    returns (signal: bool, eof: bool, stop: DrainEnd, ghost visits: seq<Visit>, ghost entries: seq<Used>)
    requires queue.Valid() && eof0 == AtEnd(input.State())
    modifies queue`avail, queue`next, queue`arrivals, queue`used, queue`unsignalled, queue`popsWhileOn, input
    ensures queue.Valid() && queue.Stream() == old(queue.Stream()) && old(queue.avail) <= queue.avail
    ensures queue.next >= old(queue.next) && queue.used == old(queue.used) + entries
    ensures Run(old(input.State()), visits, input.State(), queue.Stream()[old(queue.next)..queue.next], entries)
    ensures VisitsOf(visits, queue.Stream(), old(queue.next))
    ensures queue.unsignalled == old(queue.unsignalled) + |entries| && (signal <==> entries != [])
    ensures eof == AtEnd(input.State())
    ensures DrainedUntil(queue, stop, visits) && (stop.InputEnded? ==> signal)
  {
    hide Run, ReadChain, Flat, AtEnd, AllGoOn, VisitsOf, DrainedUntil;
    NothingDrained(queue.Stream(), queue.next);
    signal, eof, stop, visits, entries := false, eof0, RingEmpty, [], [];
    ghost var first, stream, start, returned := input.State(), queue.Stream(), queue.next, [];
    NoVisits(first);
    while true
      invariant queue.Valid() && queue.Stream() == stream && old(queue.avail) <= queue.avail && queue.next >= start
      invariant queue.used == old(queue.used) + entries && queue.unsignalled == old(queue.unsignalled) + |entries|
      invariant returned == stream[start..queue.next]
      invariant Run(first, visits, input.State(), returned, entries)
      invariant VisitsOf(visits, stream, start) && AllGoOn(visits)
      invariant signal <==> entries != []
      invariant eof == AtEnd(input.State())
      decreases queue.Remaining()
    {
      var chain := queue.PopDescriptorChain();
      if chain.None? {
        UntilEmpty(queue, visits);
        return;
      }
      ghost var v := Visit(chain.value, input.State());
      var bytesRead;
      bytesRead, eof := ProcessRxChain(chain.value, input, eof);
      OneMoreVisit(first, visits, v, returned, entries);
      OneMoreDrained(first, visits, v, returned, entries, stream, start);
      ghost var earlier := visits;
      visits := earlier + [v];
      if bytesRead == 0 {
        queue.GoToPreviousPosition();
        stop := PutBack;
        UntilPutBack(queue, earlier, v);
        return;
      }
      signal := true;
      queue.AddUsed(chain.value.head, bytesRead % U32_SIZE);
      OneMore(stream, start, queue.next - 1);
      returned := returned + [chain.value];
      entries := entries + [Used(chain.value.head, bytesRead % U32_SIZE)];
      if eof {
        stop := InputEnded;
        UntilClosed(queue, earlier, v);
        return;
      }
    }
  }

  lemma OneMore<T>(s: seq<T>, from: nat, at: nat)
    requires from <= at < |s|
    ensures s[from..at + 1] == s[from..at] + [s[at]]
  {
  }

  // ---- the pump ----

  /** How a run ends that closes the port: only its last visit is of a chain that is returned with the
      input taken to be at its end. */
  predicate ClosesLast(visits: seq<Visit>) {
    visits != [] && visits[|visits| - 1].Closes() && NoneCloses(visits[..|visits| - 1])
  }

  predicate NoneCloses(visits: seq<Visit>) {
    forall i :: 0 <= i < |visits| ==> !visits[i].Closes()
  }

  /** The ring is empty, or its next chain was the last one visited and received nothing. */
  ghost predicate Settled(queue: Queue<Chain>, visits: seq<Visit>)
    reads queue`next, queue`avail
  {
    queue.next <= |queue.avail| &&
    (queue.next < |queue.avail| ==>
       visits != [] && visits[|visits| - 1].chain == queue.avail[queue.next] && !visits[|visits| - 1].Returned())
  }

  lemma {:induction false} ReturnedJoin(a: seq<Visit>, b: seq<Visit>)
    ensures ReturnedChains(a + b) == ReturnedChains(a) + ReturnedChains(b)
  {
    if b == [] {
      assert a + b == a;
    } else {
      hide ReturnedChains;
      var init, v := b[..|b| - 1], b[|b| - 1];
      assert b == init + [v] && a + b == (a + init) + [v];
      ReturnedJoin(a, init);
      AddVisit(init, v);
      AddVisit(a + init, v);
      Regroup(ReturnedChains(a), ReturnedChains(init), if v.Returned() then [v.chain] else []);
    }
  }

  lemma VisitsJoin(a: seq<Visit>, b: seq<Visit>, stream: seq<Chain>, from: nat, at: nat)
    requires VisitsOf(a, stream, from) && VisitsOf(b, stream, at) && at == from + |ReturnedChains(a)|
    ensures VisitsOf(a + b, stream, from)
  {
    hide IsNext;
    var joined := a + b;
    forall i | 0 <= i < |joined| ensures IsNext(joined[..i], joined[i], stream, from) {
      if i < |a| {
        assert joined[..i] == a[..i];
      } else {
        assert joined[..i] == a + b[..i - |a|];
        NextBehind(a, b[..i - |a|], b[i - |a|], stream, from, at);
      }
    }
  }

  lemma NextBehind(a: seq<Visit>, b: seq<Visit>, v: Visit, stream: seq<Chain>, from: nat, at: nat)
    requires at == from + |ReturnedChains(a)| && IsNext(b, v, stream, at)
    ensures IsNext(a + b, v, stream, from)
  {
    hide ReturnedChains;
    ReturnedJoin(a, b);
  }

  lemma ClosingJoins(a: seq<Visit>, b: seq<Visit>)
    requires NoneCloses(a)
    ensures NoneCloses(b) ==> NoneCloses(a + b)
    ensures ClosesLast(b) ==> ClosesLast(a + b)
  {
    if ClosesLast(b) {
      assert (a + b)[..|a + b| - 1] == a + b[..|b| - 1];
    }
  }

  /** A stretch of visits that goes on, or that ends by putting a chain back, closes nothing. */
  lemma GoingOnClosesNothing(visits: seq<Visit>)
    requires AllGoOn(visits) || (visits != [] && AllGoOn(visits[..|visits| - 1]) && !visits[|visits| - 1].Returned())
    ensures NoneCloses(visits)
  {
    forall i | 0 <= i < |visits| ensures !visits[i].Closes() {
      if i < |visits| - 1 {
        assert AllGoOn(visits) ==> visits[i].GoesOn();
        assert !AllGoOn(visits) ==> visits[..|visits| - 1][i].GoesOn();
      }
    }
  }

  lemma ClosingIsLast(visits: seq<Visit>)
    requires visits != [] && AllGoOn(visits[..|visits| - 1]) && visits[|visits| - 1].Closes()
    ensures ClosesLast(visits)
  {
    GoingOnClosesNothing(visits[..|visits| - 1]);
  }

  lemma SettledStays(queue: Queue<Chain>, a: seq<Visit>, b: seq<Visit>)
    requires queue.next == |queue.avail| || (b != [] && Settled(queue, b))
    requires queue.next <= |queue.avail|
    ensures Settled(queue, a + b)
  {
    assert b != [] ==> (a + b)[|a + b| - 1] == b[|b| - 1];
  }

  lemma RunThenRun(first: Source, a: seq<Visit>, mid: Source, b: seq<Visit>, last: Source, stream: seq<Chain>,
                   from: nat, at: nat, to: nat, entries: seq<Used>, more: seq<Used>)
    requires from <= at <= to <= |stream|
    requires Run(first, a, mid, stream[from..at], entries) && Run(mid, b, last, stream[at..to], more)
    requires VisitsOf(a, stream, from) && VisitsOf(b, stream, at)
    ensures Run(first, a + b, last, stream[from..to], entries + more)
    ensures VisitsOf(a + b, stream, from)
  {
    hide VisitsOf;
    RunsJoin(first, a, mid, b, last);
    SliceJoin(stream, from, at, to);
    VisitsJoin(a, b, stream, from, at);
  }

  /** The pump, up to a stop event, the end of the input, or the end of `events`, where it waits. Events
      that find the queue disabled or not lockable, and those behind a stop event, touch nothing. It is
      a run of visits: the returned chains are those popped and not put back, in order, with one used entry
      each. The port is closed, and used entries stay unsignalled, exactly when a chain is returned with
      the input taken to be at its end. */
  method ProcessRx(queue: Queue<Chain>, input: PortInput, events: seq<Event>)
    returns (end: End, portOpen: bool, ghost visits: seq<Visit>, ghost entries: seq<Used>)
    requires queue.Valid() && queue.unsignalled == 0 && !AtEnd(input.State())
    modifies queue, input
    ensures queue.Valid() && queue.Stream() == old(queue.Stream()) && old(queue.avail) <= queue.avail
    ensures queue.next >= old(queue.next) && queue.used == old(queue.used) + entries
    ensures Run(old(input.State()), visits, input.State(), queue.Stream()[old(queue.next)..queue.next], entries)
    ensures VisitsOf(visits, queue.Stream(), old(queue.next))
    ensures if end.Closed? then ClosesLast(visits) else NoneCloses(visits)
    ensures queue.unsignalled > 0 <==> end.Closed?
    ensures portOpen <==> !end.Closed?
    ensures (end.Stopped? ==> Stop in events) && (end.Waiting? ==> Stop !in events)
    ensures !end.Closed? && AnyServes(Heard(events)) ==> Settled(queue, visits)
    ensures !AnyServes(Heard(events)) ==>
              queue.Now() == old(queue.Now()) && input.State() == old(input.State()) && !end.Closed?
  {
    hide Run, ReadChain, Flat, AnyServes, Heard, AtEnd, Settled, NoneCloses, ClosesLast, VisitsOf, AllGoOn,
      Queue.Now, PortInput.State;
    NoEvents(events);
    portOpen, visits, entries := true, [], [];
    var eof, signalUsedQueue, i := false, false, 0;
    ghost var first, start, stream, untouched := input.State(), queue.next, queue.Stream(), queue.Now();
    ghost var served := false;
    NothingVisited(first, stream, start);
    while true
      invariant i <= |events| && portOpen
      invariant queue.Valid() && queue.Stream() == stream && old(queue.avail) <= queue.avail && queue.next >= start
      invariant queue.used == old(queue.used) + entries
      invariant Run(first, visits, input.State(), stream[start..queue.next], entries)
      invariant VisitsOf(visits, stream, start) && NoneCloses(visits)
      invariant queue.unsignalled > 0 ==> signalUsedQueue
      invariant eof == AtEnd(input.State())
      invariant Stop !in events[..i]
      invariant served == AnyServes(events[..i])
      invariant served ==> Settled(queue, visits)
      invariant !served ==> queue.Now() == untouched && input.State() == first && !signalUsedQueue
      decreases |events| - i
    {
      if signalUsedQueue {
        queue.SignalUsedQueue();
        signalUsedQueue := false;
      }
      if i == |events| {
        assert events[..i] == events;
        HeardUpTo(events, i);
        return Waiting, portOpen, visits, entries;
      }
      var event := events[i];
      if event.Stop? {
        HeardUpTo(events, i);
        return Stopped, portOpen, visits, entries;
      }
      OneMoreEvent(events, i);
      i := i + 1;
      if !event.enabled || !event.lockable {
        continue;
      }
      served := true;
      ghost var next, mid := queue.next, input.State();
      var signal, stop;
      ghost var more, moreEntries;
      signal, eof, stop, more, moreEntries := DrainRx(queue, input, eof);
      RunThenRun(first, visits, mid, more, input.State(), stream, start, next, queue.next, entries, moreEntries);
      DrainCloses(queue, stop, visits, more);
      visits, entries := visits + more, entries + moreEntries;
      if stop.InputEnded? {
        portOpen := false;
        ServingIsHeard(events, i);
        return Closed, portOpen, visits, entries;
      }
      signalUsedQueue := signal;
      if stop.RingEmpty? && signalUsedQueue {
        queue.SignalUsedQueue();
      }
    }
  }

  lemma NothingVisited(first: Source, stream: seq<Chain>, start: nat)
    requires start <= |stream|
    ensures Run(first, [], first, stream[start..start], []) && VisitsOf([], stream, start) && NoneCloses([])
  {
  }

  lemma DrainCloses(queue: Queue<Chain>, stop: DrainEnd, before: seq<Visit>, more: seq<Visit>)
    requires DrainedUntil(queue, stop, more) && NoneCloses(before)
    ensures if stop.InputEnded? then ClosesLast(before + more)
            else NoneCloses(before + more) && Settled(queue, before + more)
  {
    ClosingJoins(before, more);
    match stop
    case RingEmpty =>
      GoingOnClosesNothing(more);
      SettledStays(queue, before, more);
    case PutBack =>
      GoingOnClosesNothing(more);
      SettledStays(queue, before, more);
    case InputEnded =>
      ClosingIsLast(more);
  }

  /** A run without zero-length descriptors closes the port only at the end of the input. */
  lemma ClosedOnlyAtTheEnd(first: Source, visits: seq<Visit>, last: Source)
    requires Leads(first, visits, last) && !AtEnd(first) && ClosesLast(visits)
    requires forall v :: v in visits ==> 0 !in v.chain.writable
    ensures last.ended
  {
    RunIsTruthful(first, visits, last);
  }

  // ---- a false end of the input ----

  const WITNESS := Chain(0, [5, 0])
  const WITNESS_INPUT := Source(0, [Delivers(5), Delivers(9)], false, false)

  lemma WitnessVisit()
    ensures ReadChain(WITNESS_INPUT, WITNESS.writable) == (Source(5, [Delivers(9)], false, true), 5)
  {
    var s1 := Source(5, [Delivers(9)], false, false);
    assert WITNESS_INPUT.outcomes[1..] == [Delivers(9)];
    assert ReadDesc(WITNESS_INPUT, 5) == (s1, Ok(5));
    EmptyReceivesNothing(s1);
    assert [5, 0][1..] == [0];
    assert ReadChain(s1, [0]) == (s1.(probed := true), 0);
  }

  lemma {:induction false} FirstVisit(first: Source, visits: seq<Visit>, last: Source)
    requires Leads(first, visits, last) && visits != []
    ensures visits[0].before == first
  {
    if |visits| > 1 {
      FirstVisit(first, visits[..|visits| - 1], visits[|visits| - 1].before);
    }
  }

  lemma EarlierOnesGoOn(visits: seq<Visit>)
    requires ClosesLast(visits) || NoneCloses(visits)
    ensures forall i :: 0 <= i < |visits| - 1 ==> !visits[i].Closes()
  {
    if ClosesLast(visits) {
      assert forall i :: 0 <= i < |visits| - 1 ==> visits[..|visits| - 1][i] == visits[i];
    }
  }

  lemma WitnessRun(visits: seq<Visit>, last: Source, returned: seq<Chain>, entries: seq<Used>)
    requires Run(WITNESS_INPUT, visits, last, returned, entries) && VisitsOf(visits, [WITNESS], 0)
    requires ClosesLast(visits) || (NoneCloses(visits) && (visits == [] ==> returned != []))
    ensures ClosesLast(visits) && !NoneCloses(visits)
    ensures last == Source(5, [Delivers(9)], false, true) && entries == [Used(0, 5)]
  {
    hide ReadChain;
    WitnessVisit();
    if visits != [] {
      FirstVisit(WITNESS_INPUT, visits, last);
      var v := visits[0];
      assert v == Visit(WITNESS, WITNESS_INPUT) && v.Closes();
      EarlierOnesGoOn(visits);
      assert visits == [] + [v];
      AddVisit([], v);
    }
  }

  /** One chain of five bytes and an empty descriptor: the port is closed and the used entry stays
      unsignalled, although the input has not ended and has nine more bytes. */
  method FalseEndOfInput(queue: Queue<Chain>, input: PortInput) returns (end: End, portOpen: bool)
    requires queue.avail == [WITNESS] && queue.arrivals == [] && queue.next == 0 && queue.used == []
    requires queue.unsignalled == 0 && input.State() == WITNESS_INPUT
    modifies queue, input
    ensures end.Closed? && !portOpen && queue.used == [Used(0, 5)] && queue.unsignalled > 0
    ensures !input.ended && input.outcomes == [Delivers(9)]
  {
    hide Run, ClosesLast, NoneCloses, VisitsOf, ReadChain;
    ghost var visits, entries;
    assert queue.Stream() == [WITNESS];
    var events := [Ready(true, true)];
    assert Serves(events[0]) && Heard(events) == [events[0]] && Serves(Heard(events)[0]);
    end, portOpen, visits, entries := ProcessRx(queue, input, events);
    assert queue.avail[0] == WITNESS;
    if !end.Closed? && visits == [] {
      assert queue.next == |queue.avail| > 0;
    }
    WitnessRun(visits, input.State(), queue.Stream()[0..queue.next], entries);
  }
}
