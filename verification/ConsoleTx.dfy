/** The console's output pump: chains popped from the transmit queue are written to a byte stream that
    may take part of a write, ask to wait, or fail. */
module ConsoleTx {
  import opened ConsoleEvents
  import opened VirtQueue
  import opened Wrappers

  /** A chain's readable descriptors, as the bytes they point to. */
  datatype Chain = Chain(head: nat, readable: seq<seq<Byte>>)

  datatype Outcome = Wrote(most: nat) | WouldBlock | Fails

  datatype IoResult = Ok(n: nat) | Err | Block

  /** No hard error, and no write of a non-empty buffer that takes nothing. */
  predicate Clean(outcomes: seq<Outcome>) {
    forall i :: 0 <= i < |outcomes| ==> outcomes[i] != Fails && outcomes[i] != Wrote(0)
  }

  // ---- the output, on values ----

  /** What the coming writes will do, once `outcomes` is used up every write is taken whole. A region
      boundary inside a descriptor only shortens what one write is offered, which is one way of being
      taken in part. */
  datatype Sink = Sink(emitted: seq<Byte>, outcomes: seq<Outcome>)

  function Write(s: Sink, src: seq<Byte>): (Sink, IoResult) {
    if s.outcomes == [] then (s.(emitted := s.emitted + src), Ok(|src|))
    else
      var s1 := s.(outcomes := s.outcomes[1..]);
      match s.outcomes[0]
      case WouldBlock => (s1, Block)
      case Fails => (s1, Err)
      case Wrote(most) =>
        var n := if most < |src| then most else |src|;
        (s1.(emitted := s.emitted + src[..n]), Ok(n))
  }

  /** The callback of `try_access`: retried as long as the output would block. */
  function WriteReady(s: Sink, src: seq<Byte>): (r: (Sink, IoResult))
    ensures !r.1.Block? && (r.1.Ok? ==> r.1.n <= |src|)
    ensures r.0.emitted == s.emitted + src[..if r.1.Ok? then r.1.n else 0]
    decreases |s.outcomes|
  {
    var (s1, r) := Write(s, src);
    if r.Block? then WriteReady(s1, src) else (s1, r)
  }

  /** `try_access` over one descriptor. An error forgets how much was already written. */
  function WriteDesc(s: Sink, bytes: seq<Byte>): (r: (Sink, IoResult))
    ensures !r.1.Block? && (r.1.Ok? ==> r.1.n <= |bytes|)
    decreases |bytes|
  {
    var (s1, r) := WriteReady(s, bytes);
    if r.Err? || r.n == 0 || r.n == |bytes| then (s1, r)
    else
      var (s2, rest) := WriteDesc(s1, bytes[r.n..]);
      (s2, if rest.Err? then Err else Ok(r.n + rest.n))
  }

  /** A chain's descriptors in order, up to the first one of which nothing is taken: the bytes counted, and
      whether the assertion failed that a descriptor is taken whole. One that fails is skipped. */
  function SendChain(s: Sink, descs: seq<seq<Byte>>): (Sink, nat, bool)
    decreases descs
  {
    if descs == [] then (s, 0, false)
    else
      var (s1, r) := WriteDesc(s, descs[0]);
      if r == Ok(0) then (s1, 0, false)
      else if r.Ok? && r.n != |descs[0]| then (s1, 0, true)
      else
        var (s2, n, panicked) := SendChain(s1, descs[1..]);
        (s2, n + if r.Ok? then r.n else 0, panicked)
  }

  /** How many of `len` bytes are taken before a write fails or takes nothing. */
  function Taken(outcomes: seq<Outcome>, len: nat): (n: nat)
    ensures n <= len
    decreases outcomes
  {
    if outcomes == [] then len
    else
      match outcomes[0]
      case WouldBlock => Taken(outcomes[1..], len)
      case Fails => 0
      case Wrote(most) => if most == 0 || most >= len then (if most == 0 then 0 else len)
                          else most + Taken(outcomes[1..], len - most)
  }

  /** Whether it is an error that stops the output before `len` bytes are taken. */
  predicate FailsBefore(outcomes: seq<Outcome>, len: nat)
    decreases outcomes
  {
    outcomes != [] &&
    match outcomes[0]
    case WouldBlock => FailsBefore(outcomes[1..], len)
    case Fails => true
    case Wrote(most) => 0 < most < len && FailsBefore(outcomes[1..], len - most)
  }

  /** A descriptor that is not empty is emitted up to the first error or the first write that takes
      nothing, and reports the error or the bytes taken. */
  lemma {:induction false} DescIsWritten(s: Sink, bytes: seq<Byte>)
    requires bytes != []
    ensures IsWritten(s, bytes)
    decreases |s.outcomes|
  {
    hide IsWritten;
    if s.outcomes != [] && s.outcomes[0].WouldBlock? {
      DescIsWritten(Write(s, bytes).0, bytes);
      WaitsFirst(s, bytes);
    } else if s.outcomes != [] && s.outcomes[0].Wrote? && 0 < s.outcomes[0].most < |bytes| {
      DescIsWritten(Write(s, bytes).0, bytes[s.outcomes[0].most..]);
      TakesPartFirst(s, bytes);
    } else {
      EndsAtOnce(s, bytes);
    }
  }

  predicate IsWritten(s: Sink, bytes: seq<Byte>) {
    var (s', r) := WriteDesc(s, bytes);
    && s'.emitted == s.emitted + bytes[..Taken(s.outcomes, |bytes|)]
    && r == if FailsBefore(s.outcomes, |bytes|) then Err else Ok(Taken(s.outcomes, |bytes|))
  }

  lemma WaitsFirst(s: Sink, bytes: seq<Byte>)
    requires s.outcomes != [] && s.outcomes[0].WouldBlock? && IsWritten(Write(s, bytes).0, bytes)
    ensures IsWritten(s, bytes)
  {
    assert WriteReady(s, bytes) == WriteReady(Write(s, bytes).0, bytes);
    assert WriteDesc(s, bytes) == WriteDesc(Write(s, bytes).0, bytes);
  }

  lemma TakesPartFirst(s: Sink, bytes: seq<Byte>)
    requires s.outcomes != [] && s.outcomes[0].Wrote? && 0 < s.outcomes[0].most < |bytes|
    requires IsWritten(Write(s, bytes).0, bytes[s.outcomes[0].most..])
    ensures IsWritten(s, bytes)
  {
    var most, s1 := s.outcomes[0].most, Write(s, bytes).0;
    assert WriteReady(s, bytes) == (s1, Ok(most));
    var rest := Taken(s1.outcomes, |bytes| - most);
    assert bytes[..most] + bytes[most..][..rest] == bytes[..most + rest];
  }

  lemma EndsAtOnce(s: Sink, bytes: seq<Byte>)
    requires bytes != []
    requires s.outcomes == [] || s.outcomes[0].Fails?
             || (s.outcomes[0].Wrote? && !(0 < s.outcomes[0].most < |bytes|))
    ensures IsWritten(s, bytes)
  {
    assert bytes[..|bytes|] == bytes && s.emitted + [] == s.emitted;
    assert WriteReady(s, bytes) == Write(s, bytes);
  }

  /** Writing uses outcomes up and adds none. */
  lemma {:induction false} OutcomesOfDesc(s: Sink, bytes: seq<Byte>)
    ensures forall o :: o in WriteDesc(s, bytes).0.outcomes ==> o in s.outcomes
    decreases |bytes|
  {
    OutcomesOfReady(s, bytes);
    var (s1, r) := WriteReady(s, bytes);
    if r.Ok? && 0 < r.n < |bytes| {
      OutcomesOfDesc(s1, bytes[r.n..]);
    }
  }

  lemma {:induction false} OutcomesOfReady(s: Sink, src: seq<Byte>)
    ensures forall o :: o in WriteReady(s, src).0.outcomes ==> o in s.outcomes
    decreases |s.outcomes|
  {
    if s.outcomes != [] && s.outcomes[0].WouldBlock? {
      OutcomesOfReady(Write(s, src).0, src);
    }
  }

  lemma OutcomesStayGood(s: Sink, bytes: seq<Byte>)
    ensures Clean(s.outcomes) ==> Clean(WriteDesc(s, bytes).0.outcomes)
    ensures Fails !in s.outcomes ==> Fails !in WriteDesc(s, bytes).0.outcomes
  {
    hide WriteDesc;
    OutcomesOfDesc(s, bytes);
    var later := WriteDesc(s, bytes).0.outcomes;
    forall i | 0 <= i < |later| && Clean(s.outcomes) ensures later[i] != Fails && later[i] != Wrote(0) {
      assert later[i] in s.outcomes;
    }
  }

  lemma {:induction false} CleanTakesAll(outcomes: seq<Outcome>, len: nat)
    requires Clean(outcomes)
    ensures Taken(outcomes, len) == len && !FailsBefore(outcomes, len)
    decreases outcomes
  {
    if outcomes != [] {
      assert outcomes[0] != Fails && outcomes[0] != Wrote(0);
      match outcomes[0]
      case WouldBlock => CleanTakesAll(outcomes[1..], len);
      case Wrote(most) => if most < len { CleanTakesAll(outcomes[1..], len - most); }
      case _ =>
    }
  }

  lemma {:induction false} EmptyDescIsWritten(s: Sink)
    ensures var (s', r) := WriteDesc(s, []);
            s'.emitted == s.emitted && (r.Ok? ==> r.n == 0) && (Fails !in s.outcomes ==> r.Ok?)
    decreases |s.outcomes|
  {
    assert s.emitted + [] == s.emitted;
    if s.outcomes != [] && s.outcomes[0].WouldBlock? {
      EmptyDescIsWritten(Write(s, []).0);
    }
  }

  // ---- one chain ----

  /** The bytes of a chain that are sent: an empty descriptor ends the chain. */
  function Served(descs: seq<seq<Byte>>): seq<Byte> {
    if descs == [] || descs[0] == [] then [] else descs[0] + Served(descs[1..])
  }

  function AllBytes(descs: seq<seq<Byte>>): seq<Byte> {
    if descs == [] then [] else descs[0] + AllBytes(descs[1..])
  }

  /** Without faults exactly the served bytes are emitted and counted, and the assertion holds. */
  lemma {:induction false} CleanChain(s: Sink, descs: seq<seq<Byte>>)
    requires Clean(s.outcomes)
    ensures var (s', n, panicked) := SendChain(s, descs);
            && !panicked && Clean(s'.outcomes)
            && n == |Served(descs)| && s'.emitted == s.emitted + Served(descs)
    decreases descs
  {
    hide WriteDesc, Clean;
    assert s.emitted + [] == s.emitted;
    if descs != [] {
      var first := descs[0];
      CleanDesc(s, first);
      if first != [] {
        CleanChain(WriteDesc(s, first).0, descs[1..]);
        Regroup(s.emitted, first, Served(descs[1..]));
      }
    }
  }

  /** Without faults a descriptor is written whole, across partial writes. */
  lemma CleanDesc(s: Sink, bytes: seq<Byte>)
    ensures Clean(s.outcomes) ==>
              var (s', r) := WriteDesc(s, bytes);
              Clean(s'.outcomes) && r == Ok(|bytes|) && s'.emitted == s.emitted + bytes
  {
    hide WriteDesc, Clean;
    if Clean(s.outcomes) {
      CleanHasNoErrors(s.outcomes);
      OutcomesStayGood(s, bytes);
      if bytes == [] {
        EmptyDescIsWritten(s);
        assert s.emitted + [] == s.emitted;
      } else {
        DescIsWritten(s, bytes);
        CleanTakesAll(s.outcomes, |bytes|);
        assert bytes[..|bytes|] == bytes;
      }
    }
  }

  lemma CleanHasNoErrors(outcomes: seq<Outcome>)
    requires Clean(outcomes)
    ensures Fails !in outcomes
  {
  }

  /** Without hard errors a chain is sent from its start up to some byte `k`, without gaps, and exactly
      those bytes are counted unless the assertion fails. */
  lemma {:induction false} ChainAccount(s: Sink, descs: seq<seq<Byte>>) returns (k: nat)
    requires Fails !in s.outcomes
    ensures var (s', n, panicked) := SendChain(s, descs);
            && k <= |AllBytes(descs)| && s'.emitted == s.emitted + AllBytes(descs)[..k]
            && n <= k && (!panicked ==> n == k) && Fails !in s'.outcomes
    decreases descs
  {
    hide WriteDesc, Clean;
    k := 0;
    assert s.emitted + [] == s.emitted;
    if descs != [] {
      OutcomesStayGood(s, descs[0]);
    }
    if descs != [] && descs[0] == [] {
      EmptyDescIsWritten(s);
    } else if descs != [] {
      var first := descs[0];
      var (s1, r) := WriteDesc(s, first);
      DescIsWritten(s, first);
      NoErrorNoFailure(s.outcomes, |first|);
      k := r.n;
      assert AllBytes(descs)[..k] == first[..k];
      if k == |first| {
        var j := ChainAccount(s1, descs[1..]);
        k := k + j;
        Regroup(s.emitted, first, AllBytes(descs[1..])[..j]);
        assert AllBytes(descs)[..k] == first + AllBytes(descs[1..])[..j];
      }
    }
  }

  lemma {:induction false} NoErrorNoFailure(outcomes: seq<Outcome>, len: nat)
    requires Fails !in outcomes
    ensures !FailsBefore(outcomes, len)
    decreases outcomes
  {
    if outcomes != [] {
      assert outcomes[0] in outcomes;
      match outcomes[0]
      case WouldBlock => NoErrorNoFailure(outcomes[1..], len);
      case Wrote(most) => if 0 < most < len { NoErrorNoFailure(outcomes[1..], len - most); }
      case _ =>
    }
  }

  /** The output takes a part of the bytes and then a write takes nothing. */
  predicate StopsInside(outcomes: seq<Outcome>, len: nat) {
    !FailsBefore(outcomes, len) && 0 < Taken(outcomes, len) < len
  }

  /** Some descriptor, with all those before it taken whole or skipped after an error, is taken in part. */
  predicate TakenInPart(s: Sink, descs: seq<seq<Byte>>)
    decreases descs
  {
    descs != [] &&
    var first, rest := descs[0], descs[1..];
    || StopsInside(s.outcomes, |first|)
    || (first != [] && (FailsBefore(s.outcomes, |first|) || Taken(s.outcomes, |first|) == |first|)
        && TakenInPart(WriteDesc(s, first).0, rest))
    || (first == [] && WriteDesc(s, first).1.Err? && TakenInPart(WriteDesc(s, first).0, rest))
  }

  /** The assertion fails exactly if a descriptor is taken in part. */
  lemma {:induction false} PanicsIff(s: Sink, descs: seq<seq<Byte>>)
    ensures SendChain(s, descs).2 <==> TakenInPart(s, descs)
    decreases descs
  {
    hide WriteDesc;
    if descs != [] {
      if descs[0] == [] {
        EmptyDescIsWritten(s);
      } else {
        DescIsWritten(s, descs[0]);
      }
      PanicsIff(WriteDesc(s, descs[0]).0, descs[1..]);
    }
  }

  /** A write that takes one of two bytes and then nothing makes the assertion fail. */
  lemma PartThenNothing()
    ensures SendChain(Sink([], [Wrote(1), Wrote(0)]), [[7, 8]]) == (Sink([7], []), 0, true)
  {
    var s := Sink([], [Wrote(1), Wrote(0)]);
    var s1 := Sink([7], [Wrote(0)]);
    assert s.outcomes[1..] == [Wrote(0)] && [7, 8][..1] == [7] && [7, 8][1..] == [8];
    assert [] + [7, 8][..1] == [7];
    assert WriteReady(s, [7, 8]) == (s1, Ok(1));
    assert s1.outcomes[1..] == [] && [7] + [8][..0] == [7];
    assert WriteReady(s1, [8]) == (Sink([7], []), Ok(0));
    assert WriteDesc(s1, [8]) == (Sink([7], []), Ok(0));
    assert WriteDesc(s, [7, 8]) == (Sink([7], []), Ok(1));
  }

  /** An error in the middle of a descriptor: its first byte was emitted and is not counted, its second is
      lost, and the next descriptor is sent. */
  lemma FailedDescIsSkipped()
    ensures SendChain(Sink([], [Wrote(1), Fails]), [[7, 8], [9]]) == (Sink([7, 9], []), 1, false)
  {
    var s := Sink([], [Wrote(1), Fails]);
    var s1 := Sink([7], [Fails]);
    var s2 := Sink([7], []);
    assert s.outcomes[1..] == [Fails] && [7, 8][..1] == [7] && [7, 8][1..] == [8];
    assert [] + [7, 8][..1] == [7];
    assert WriteReady(s, [7, 8]) == (s1, Ok(1));
    assert s1.outcomes[1..] == [];
    assert WriteReady(s1, [8]) == (s2, Err);
    assert WriteDesc(s1, [8]) == (s2, Err);
    assert WriteDesc(s, [7, 8]) == (s2, Err);
    assert [7] + [9] == [7, 9];
    assert WriteDesc(s2, [9]) == (Sink([7, 9], []), Ok(1));
    assert [[7, 8], [9]][1..] == [[9]] && [[9]][1..] == [];
    assert SendChain(Sink([7, 9], []), []) == (Sink([7, 9], []), 0, false);
    assert SendChain(s2, [[9]]) == (Sink([7, 9], []), 1, false);
  }

  // ---- the output object ----

  class PortOutput {
    var emitted: seq<Byte>
    var outcomes: seq<Outcome>

    function State(): Sink
      reads this
    {
      Sink(emitted, outcomes)
    }

    constructor (outcomes: seq<Outcome>)
      ensures State() == Sink([], outcomes)
    {
      emitted := [];
      this.outcomes := outcomes;
    }

    method WriteVolatile(src: seq<Byte>) returns (r: IoResult)
      modifies this
      ensures (State(), r) == Write(old(State()), src)
    {
      if outcomes == [] {
        emitted := emitted + src;
        return Ok(|src|);
      }
      var outcome := outcomes[0];
      outcomes := outcomes[1..];
      match outcome
      case WouldBlock => return Block;
      case Fails => return Err;
      case Wrote(most) =>
        var n := if most < |src| then most else |src|;
        emitted := emitted + src[..n];
        return Ok(n);
    }
  }

  method WriteWhenReady(src: seq<Byte>, output: PortOutput) returns (r: IoResult)
    modifies output
    ensures (output.State(), r) == WriteReady(old(output.State()), src)
    ensures !r.Block? && (r.Ok? ==> r.n <= |src|)
    ensures output.emitted == old(output.emitted) + src[..if r.Ok? then r.n else 0]
  {
    r := output.WriteVolatile(src);
    while r.Block?
      invariant WriteReady(old(output.State()), src) ==
                  if r.Block? then WriteReady(output.State(), src) else (output.State(), r)
      decreases |output.outcomes| + if r.Block? then 1 else 0
    {
      r := output.WriteVolatile(src);
    }
  }

  /** What the descriptor's writes come to once `total` bytes were taken. */
  function WrittenSoFar(s: Sink, total: nat, bytes: seq<Byte>): (Sink, IoResult) {
    var (s', r) := WriteDesc(s, bytes);
    (s', if r.Err? then Err else Ok(total + r.n))
  }

  lemma OneMoreWrite(s: Sink, total: nat, bytes: seq<Byte>)
    ensures var (s1, r) := WriteReady(s, bytes);
            WrittenSoFar(s, total, bytes) ==
              if r.Err? then (s1, Err)
              else if r.n == 0 || r.n == |bytes| then (s1, Ok(total + r.n))
              else WrittenSoFar(s1, total + r.n, bytes[r.n..])
    ensures WrittenSoFar(s, 0, bytes) == WriteDesc(s, bytes)
  {
  }

  method WriteDescToOutput(bytes: seq<Byte>, output: PortOutput) returns (r: IoResult)
    modifies output
    ensures (output.State(), r) == WriteDesc(old(output.State()), bytes)
    ensures !r.Block? && (r.Ok? ==> r.n <= |bytes|)
    ensures old(Clean(output.outcomes)) ==>
              Clean(output.outcomes) && r == Ok(|bytes|) && output.emitted == old(output.emitted) + bytes
  {
    hide WrittenSoFar, WriteReady;
    CleanDesc(output.State(), bytes);
    var total := 0;
    OneMoreWrite(output.State(), 0, bytes);
    assert bytes[0..] == bytes;
    while true
      invariant total < |bytes| || total == |bytes| == 0
      invariant WriteDesc(old(output.State()), bytes) == WrittenSoFar(output.State(), total, bytes[total..])
      decreases |bytes| - total
    {
      OneMoreWrite(output.State(), total, bytes[total..]);
      var written := WriteWhenReady(bytes[total..], output);
      if written.Err? {
        return Err;
      }
      assert bytes[total..][written.n..] == bytes[total + written.n..];
      if written.n == 0 {
        return Ok(total);
      }
      total := total + written.n;
      if total == |bytes| {
        return Ok(total);
      }
    }
  }

  /** For any outcomes of its writes a chain is sent as `SendChain` says; without faults that is the served
      bytes. */
  method ProcessTxChain(chain: Chain, output: PortOutput) returns (bytesWritten: nat, panicked: bool)
    modifies output
    ensures (output.State(), bytesWritten, panicked) == SendChain(old(output.State()), chain.readable)
    ensures old(Clean(output.outcomes)) ==>
              && !panicked && Clean(output.outcomes)
              && bytesWritten == |Served(chain.readable)|
              && output.emitted == old(output.emitted) + Served(chain.readable)
  {
    hide WriteDesc, Clean;
    if Clean(output.outcomes) {
      CleanChain(output.State(), chain.readable);
    }
    bytesWritten := 0;
    var i := 0;
    ghost var all := SendChain(output.State(), chain.readable);
    while i < |chain.readable|
      invariant i <= |chain.readable|
      invariant all == var (s, n, p) := SendChain(output.State(), chain.readable[i..]); (s, bytesWritten + n, p)
    {
      var desc := chain.readable[i];
      assert chain.readable[i..][1..] == chain.readable[i + 1..];
      var r := WriteDescToOutput(desc, output);
      match r {
        case Ok(n) =>
          if n == 0 {
            break;
          }
          if n != |desc| {
            return bytesWritten, true;
          }
          bytesWritten := bytesWritten + n;
        case Err =>
      }
      i := i + 1;
    }
    return bytesWritten, false;
  }

  // ---- the event loop ----

  /** Nothing is left in the ring, or the next chain has nothing to send. */
  ghost predicate Drained(queue: Queue<Chain>)
    reads queue`next, queue`avail
  {
    queue.next <= |queue.avail| && (queue.next == |queue.avail| || Served(queue.avail[queue.next].readable) == [])
  }

  /** Whether each of the chains has something to send: does not begin with an empty descriptor. */
  predicate AllSend(chains: seq<Chain>) {
    forall k :: 0 <= k < |chains| ==> Served(chains[k].readable) != []
  }

  /** No chain without anything to send has been passed. */
  ghost predicate NonePassed(stream: seq<Chain>, from: nat, next: nat) {
    forall k :: from <= k < |stream| && Served(stream[k].readable) == [] ==> next <= k
  }

  lemma AllSendJoin(a: seq<Chain>, b: seq<Chain>)
    ensures AllSend(a + b) <==> AllSend(a) && AllSend(b)
  {
    if AllSend(a + b) {
      assert forall k :: 0 <= k < |a| ==> a[k] == (a + b)[k];
      assert forall k :: 0 <= k < |b| ==> b[k] == (a + b)[|a| + k];
    }
  }

  lemma PassingIsSending(stream: seq<Chain>, from: nat, next: nat)
    requires from <= next <= |stream|
    ensures AllSend(stream[from..next]) <==> NonePassed(stream, from, next)
  {
    hide Served;
    if AllSend(stream[from..next]) {
      assert forall k :: from <= k < next ==> stream[from..next][k - from] == stream[k];
    }
  }

  /** The ring is drained to its end exactly if all its chains have something to send. */
  lemma DrainedToTheEndIff(avail: seq<Chain>, from: nat, next: nat)
    requires from <= next <= |avail| && AllSend(avail[from..next])
    requires next == |avail| || Served(avail[next].readable) == []
    ensures next == |avail| <==> AllSend(avail[from..])
  {
    hide Served;
    if next < |avail| {
      assert avail[from..][next - from] == avail[next];
    } else {
      assert avail[from..next] == avail[from..];
    }
  }

  datatype End = Stopped | Waiting | Panicked

  /** What a stretch of chains puts on the output and on the used ring. */
  function Output(chains: seq<Chain>): seq<Byte> {
    if chains == [] then []
    else Output(chains[..|chains| - 1]) + Served(chains[|chains| - 1].readable)
  }

  function Returned(chains: seq<Chain>): seq<Used> {
    if chains == [] then []
    else
      var last := chains[|chains| - 1];
      Returned(chains[..|chains| - 1]) + [Used(last.head, |Served(last.readable)| % U32_SIZE)]
  }

  /** Every returned chain is reported with its head and, below 2^32 bytes, with its length. */
  lemma {:induction false} ReportedLength(chains: seq<Chain>, i: nat)
    requires i < |chains|
    ensures |Returned(chains)| == |chains| && Returned(chains)[i].head == chains[i].head
    ensures |Served(chains[i].readable)| < 0x1_0000_0000 ==> Returned(chains)[i].len == |Served(chains[i].readable)|
  {
    var n := |chains| - 1;
    if n > 0 {
      ReportedLength(chains[..n], if i < n then i else 0);
    }
  }

  lemma OneMoreChain(chains: seq<Chain>, chain: Chain)
    ensures Output(chains + [chain]) == Output(chains) + Served(chain.readable)
    ensures Returned(chains + [chain]) == Returned(chains) + [Used(chain.head, |Served(chain.readable)| % U32_SIZE)]
  {
    assert (chains + [chain])[..|chains|] == chains;
  }

  lemma {:induction false} ChainsJoin(a: seq<Chain>, b: seq<Chain>)
    ensures Output(a + b) == Output(a) + Output(b)
    ensures Returned(a + b) == Returned(a) + Returned(b)
  {
    if b == [] {
      assert a + b == a;
    } else {
      hide Output, Returned, Served;
      var init, last := b[..|b| - 1], b[|b| - 1];
      assert b == init + [last] && a + b == (a + init) + [last];
      ChainsJoin(a, init);
      OneMoreChain(a + init, last);
      OneMoreChain(init, last);
    }
  }

  /** What is emitted and put on the used ring for a stretch of chains: one used entry each, in order.
      Without faults they are `Output` and `Returned`, and every chain has something to send. */
  predicate Accounts(clean: bool, sent: seq<Byte>, made: seq<Used>, chains: seq<Chain>) {
    && |made| == |chains| && (forall i :: 0 <= i < |made| ==> made[i].head == chains[i].head)
    && (clean ==> sent == Output(chains) && made == Returned(chains) && AllSend(chains))
  }

  lemma NoChains(clean: bool)
    ensures Accounts(clean, [], [], [])
  {
  }

  lemma OneMoreSent(clean: bool, sent: seq<Byte>, made: seq<Used>, chains: seq<Chain>, chain: Chain, n: nat)
    requires Accounts(clean, sent, made, chains) && n > 0 && (clean ==> n == |Served(chain.readable)|)
    ensures Accounts(clean, sent + Served(chain.readable), made + [Used(chain.head, n % U32_SIZE)], chains + [chain])
  {
    hide Output, Returned, Served, AllSend;
    OneMoreChain(chains, chain);
    AllSendJoin(chains, [chain]);
    assert clean ==> AllSend([chain]) by { OneSends(chain); }
  }

  lemma OneSends(chain: Chain)
    ensures AllSend([chain]) <==> Served(chain.readable) != []
  {
    hide Served;
    assert AllSend([chain]) <==> Served([chain][0].readable) != [];
  }

  /** `later` may be free of faults only because those before are used up. */
  lemma AccountsJoin(stream: seq<Chain>, from: nat, mid: nat, to: nat, clean: bool, sent: seq<Byte>, made: seq<Used>,
                     later: bool, moreSent: seq<Byte>, moreMade: seq<Used>)
    requires from <= mid <= to <= |stream| && (clean ==> later)
    requires Accounts(clean, sent, made, stream[from..mid]) && Accounts(later, moreSent, moreMade, stream[mid..to])
    ensures Accounts(clean, sent + moreSent, made + moreMade, stream[from..to])
  {
    hide Output, Returned, AllSend;
    SliceJoin(stream, from, mid, to);
    ChainsJoin(stream[from..mid], stream[mid..to]);
    AllSendJoin(stream[from..mid], stream[mid..to]);
  }

  /** Pops until the ring is empty or a chain has nothing to send, which is put back, or a chain is taken
      in part, which panics. */
  method DrainTx(queue: Queue<Chain>, output: PortOutput)
    returns (signal: bool, panicked: bool, ghost sent: seq<Byte>, ghost made: seq<Used>)
    requires queue.Valid()
    modifies queue`avail, queue`next, queue`arrivals, queue`used, queue`unsignalled, queue`popsWhileOn, output
    ensures queue.Valid() && queue.Stream() == old(queue.Stream()) && old(queue.avail) <= queue.avail
    ensures old(queue.next) <= queue.next - if panicked then 1 else 0
    ensures Accounts(old(Clean(output.outcomes)), sent, made,
                     queue.Stream()[old(queue.next)..queue.next - if panicked then 1 else 0])
    ensures queue.used == old(queue.used) + made
    ensures old(Clean(output.outcomes)) ==>
              !panicked && Clean(output.outcomes) && output.emitted == old(output.emitted) + sent && Drained(queue)
    ensures old(queue.unsignalled) == 0 ==> (queue.unsignalled > 0 ==> signal)
    ensures signal <==> made != []
  {
    hide Accounts, Clean, Served, SendChain, WriteDesc, Flat, PortOutput.State;
    signal, panicked, sent, made := false, false, [], [];
    ghost var clean, start, chains := Clean(output.outcomes), queue.next, [];
    NoChains(clean);
    while true
      invariant queue.Valid() && queue.Stream() == old(queue.Stream()) && queue.next >= start
      invariant chains == queue.Stream()[start..queue.next]
      invariant old(queue.avail) <= queue.avail
      invariant clean ==> Clean(output.outcomes) && output.emitted == old(output.emitted) + sent
      invariant Accounts(clean, sent, made, chains) && queue.used == old(queue.used) + made
      invariant signal <==> made != []
      invariant old(queue.unsignalled) == 0 ==> (queue.unsignalled > 0 ==> signal)
      decreases queue.Remaining()
    {
      var chain := queue.PopDescriptorChain();
      if chain.None? {
        return;
      }
      var bytesWritten, failed := ProcessTxChain(chain.value, output);
      if failed {
        panicked := true;
        return;
      }
      if bytesWritten > 0 {
        signal := true;
      }
      if bytesWritten == 0 {
        queue.GoToPreviousPosition();
        assert clean ==> |Served(chain.value.readable)| == 0;
        return;
      }
      OneMoreSent(clean, sent, made, chains, chain.value, bytesWritten);
      chains := chains + [chain.value];
      sent := sent + Served(chain.value.readable);
      made := made + [Used(chain.value.head, bytesWritten % U32_SIZE)];
      queue.AddUsed(chain.value.head, bytesWritten % U32_SIZE);
    }
  }

  /** The pump, up to a stop event, a panic, or the end of `events`, where it waits. Events that find the
      queue disabled or not lockable, and those behind a stop event, touch nothing. At every wait all
      used entries have been signalled. Whatever the output does, each chain that is passed is returned
      once, in order. Without output faults the byte stream is the concatenation, in pop order, of what
      the returned chains send, and each is returned with its length. A chain with nothing to send is
      never passed, so that nothing behind it is sent; a pump that waits after serving the queue has
      drained it to the end exactly if there is no such chain. */
  method ProcessTx(queue: Queue<Chain>, output: PortOutput, events: seq<Event>)
    returns (end: End, ghost sent: seq<Byte>, ghost made: seq<Used>)
    requires queue.Valid() && queue.unsignalled == 0
    modifies queue, output
    ensures queue.Valid() && queue.Stream() == old(queue.Stream()) && old(queue.avail) <= queue.avail
    ensures old(queue.next) <= queue.next - if end.Panicked? then 1 else 0
    ensures Accounts(old(Clean(output.outcomes)), sent, made,
                     queue.Stream()[old(queue.next)..queue.next - if end.Panicked? then 1 else 0])
    ensures queue.used == old(queue.used) + made
    ensures old(Clean(output.outcomes)) ==> !end.Panicked? && output.emitted == old(output.emitted) + sent
    ensures !end.Panicked? ==> queue.unsignalled == 0 && (end.Stopped? <==> Stop in events)
    ensures old(Clean(output.outcomes)) ==> NonePassed(queue.Stream(), old(queue.next), queue.next)
    ensures old(Clean(output.outcomes)) && AnyServes(Heard(events)) ==>
              Drained(queue) && (queue.next == |queue.avail| <==> AllSend(queue.avail[old(queue.next)..]))
    ensures !AnyServes(Heard(events)) ==>
              && !end.Panicked? && queue.Now() == old(queue.Now())
              && output.emitted == old(output.emitted) && output.outcomes == old(output.outcomes)
  {
    hide Accounts, Drained, AnyServes, Heard, Clean, AllSend, NonePassed, Flat, Queue.Now;
    NoEvents(events);
    sent, made := [], [];
    var signalUsedQueue, i := false, 0;
    ghost var clean, start, stream, first := Clean(output.outcomes), queue.next, queue.Stream(), queue.Now();
    ghost var served := false;
    NoChains(clean);
    assert stream[start..start] == [];
    while true
      invariant i <= |events|
      invariant queue.Valid() && queue.Stream() == stream && old(queue.avail) <= queue.avail && queue.next >= start
      invariant Accounts(clean, sent, made, stream[start..queue.next]) && queue.used == old(queue.used) + made
      invariant clean ==> Clean(output.outcomes) && output.emitted == old(output.emitted) + sent
      invariant queue.unsignalled > 0 ==> signalUsedQueue
      invariant Stop !in events[..i]
      invariant served == AnyServes(events[..i])
      invariant clean && served ==> Drained(queue)
      invariant !served ==>
                  && queue.Now() == first && !signalUsedQueue
                  && output.emitted == old(output.emitted) && output.outcomes == old(output.outcomes)
      decreases |events| - i
    {
      if signalUsedQueue {
        queue.SignalUsedQueue();
        signalUsedQueue := false;
      }
      if clean {
        WaitsAtSilence(queue, stream, start, clean, sent, made);
      }
      if i == |events| {
        HeardUpTo(events, i);
        assert events[..i] == events;
        return Waiting, sent, made;
      }
      var event := events[i];
      if event.Stop? {
        HeardUpTo(events, i);
        return Stopped, sent, made;
      }
      OneMoreEvent(events, i);
      i := i + 1;
      if !event.enabled || !event.lockable {
        continue;
      }
      served := true;
      ghost var mid, later := queue.next, Clean(output.outcomes);
      var signal, panicked;
      ghost var moreSent, moreMade;
      signal, panicked, moreSent, moreMade := DrainTx(queue, output);
      ghost var passed := queue.next - if panicked then 1 else 0;
      AccountsJoin(stream, start, mid, passed, clean, sent, made, later, moreSent, moreMade);
      sent, made := sent + moreSent, made + moreMade;
      if panicked {
        ServingIsHeard(events, i);
        return Panicked, sent, made;
      }
      signalUsedQueue := signal;
    }
  }

  lemma WaitsAtSilence(queue: Queue<Chain>, stream: seq<Chain>, start: nat, clean: bool, sent: seq<Byte>,
                       made: seq<Used>)
    requires queue.Valid() && start <= queue.next && stream == queue.Stream()
    requires clean && Accounts(clean, sent, made, stream[start..queue.next])
    ensures NonePassed(queue.Stream(), start, queue.next)
    ensures Drained(queue) ==> (queue.next == |queue.avail| <==> AllSend(queue.avail[start..]))
  {
    hide Served, Output, Returned;
    PassingIsSending(queue.Stream(), start, queue.next);
    if Drained(queue) {
      assert queue.Stream()[start..queue.next] == queue.avail[start..queue.next];
      DrainedToTheEndIff(queue.avail, start, queue.next);
    }
  }

  // ---- which chains are sent whole ----

  /** All bytes of a chain are sent exactly if nothing follows its first empty descriptor. */
  lemma {:induction false} SentWholeIff(descs: seq<seq<Byte>>)
    ensures Served(descs) == AllBytes(descs) <==>
              forall i, j :: 0 <= i < j < |descs| && descs[i] == [] ==> descs[j] == []
  {
    if descs != [] {
      var first, rest := descs[0], descs[1..];
      assert descs == [first] + rest;
      if first == [] {
        NothingToSend(descs);
        assert Served(descs) == [];
        if forall i, j :: 0 <= i < j < |descs| && descs[i] == [] ==> descs[j] == [] {
          forall i | 0 <= i < |descs| ensures descs[i] == [] {
            assert descs[0] == [];
          }
        } else {
          var i, j :| 0 <= i < j < |descs| && descs[i] == [] && descs[j] != [];
        }
      } else {
        SentWholeIff(rest);
        assert Served(descs)[|first|..] == Served(rest) && AllBytes(descs)[|first|..] == AllBytes(rest);
        assert forall i, j :: 0 <= i < j < |rest| ==> rest[i] == descs[i + 1] && rest[j] == descs[j + 1];
        assert forall i, j :: 1 <= i < j < |descs| ==> descs[i] == rest[i - 1] && descs[j] == rest[j - 1];
      }
    }
  }

  lemma {:induction false} NothingToSend(descs: seq<seq<Byte>>)
    ensures AllBytes(descs) == [] <==> forall i :: 0 <= i < |descs| ==> descs[i] == []
  {
    if descs != [] {
      NothingToSend(descs[1..]);
      assert descs == [descs[0]] + descs[1..];
    }
  }

  // ---- chains that are cut short or block the queue ----

  /** On a ring whose first chain begins with an empty descriptor nothing is ever sent or returned,
      whatever events arrive: neither its other bytes nor the chain behind it. */
  method BlockedQueue(queue: Queue<Chain>, output: PortOutput, events: seq<Event>) returns (end: End)
    requires queue.avail == [Chain(0, [[], [7]]), Chain(1, [[9]])] && queue.next == 0 && queue.unsignalled == 0
    requires Clean(output.outcomes)
    modifies queue, output
    ensures output.emitted == old(output.emitted) && queue.used == old(queue.used) && queue.next == 0
  {
    hide Clean;
    assert Served([[], [7]]) == [];
    ghost var sent, made;
    end, sent, made := ProcessTx(queue, output, events);
    assert queue.avail[0] == Chain(0, [[], [7]]) && queue.Stream()[0] == queue.avail[0];
    NoChains(true);
    assert queue.Stream()[0..queue.next] == [];
  }

  /** An empty descriptor in the middle cuts a chain short: it is returned as complete. */
  method TruncatedChain(queue: Queue<Chain>, output: PortOutput) returns (end: End)
    requires queue.avail == [Chain(0, [[7], [], [8]])] && queue.arrivals == []
    requires queue.next == 0 && queue.unsignalled == 0 && Clean(output.outcomes)
    modifies queue, output
    ensures output.emitted == old(output.emitted) + [7] && queue.used == old(queue.used) + [Used(0, 1)]
  {
    hide Clean;
    var chain := Chain(0, [[7], [], [8]]);
    TruncatedServes(chain);
    assert queue.Stream() == [chain];
    var events := [Ready(true, true)];
    assert Serves(events[0]) && Heard(events) == [events[0]] && Serves(Heard(events)[0]);
    ghost var sent, made;
    end, sent, made := ProcessTx(queue, output, events);
    assert queue.avail[0] == chain && |queue.Stream()| == 1;
    assert queue.Stream()[0..queue.next] == [] + [chain];
    NoChains(true);
    OneMoreChain([], chain);
  }

  lemma TruncatedServes(chain: Chain)
    requires chain.readable == [[7], [], [8]]
    ensures Served(chain.readable) == [7] && AllBytes(chain.readable) == [7, 8]
  {
    assert chain.readable[1..] == [[], [8]] && [[], [8]][1..] == [[8]] && [[8]][1..] == [];
    assert Served([[], [8]]) == [];
  }
}
