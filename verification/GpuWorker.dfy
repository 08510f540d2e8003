/** The worker's service loop: draining a queue, answering or parking each chain, and notifying the
    driver. */
module GpuWorker {
  import opened Fence
  import FP = FenceProtocol
  import opened VirtQueue
  import opened Wrappers

  /** What the world decides about one chain: the length of the encoded response (None if encoding
      fails), whether the used ring accepts the entry, and the shared fence state the handler has
      left behind when the chain reaches `process_fence`. */
  datatype Outcome = Outcome(
    responseLen: Option<nat>,
    addUsedOk: bool,
    parked: seq<FenceDescriptor>,
    completed: map<Ring, nat>)

  predicate MustPark(chain: Chain, outcome: Outcome) {
    Fenced(chain) && chain.header.value.fenceId > Completed(outcome.completed, RingOf(chain.header.value))
  }

  /** The response cannot be encoded, or the used ring refuses the entry. */
  predicate Fails(chain: Chain, outcome: Outcome) {
    if !chain.hasResponseRoom then !outcome.addUsedOk
    else outcome.responseLen.None? || (!MustPark(chain, outcome) && !outcome.addUsedOk)
  }

  /** In plain terms: without room for a response a chain fails exactly if the used ring refuses it. With
      room it fails if there is no response, or if the used ring refuses it and it need not wait, because
      it is not fenced (bit 0 of the flags) or its fence is done. */
  lemma FailsIff(chain: Chain, outcome: Outcome)
    ensures !chain.hasResponseRoom ==> (Fails(chain, outcome) <==> !outcome.addUsedOk)
    ensures chain.hasResponseRoom && outcome.responseLen.None? ==> Fails(chain, outcome)
    ensures chain.hasResponseRoom && outcome.responseLen.Some? ==>
              var waits :=
                && chain.header.Some? && chain.header.value.flags % 2 == 1
                && var ring := RingOf(chain.header.value);
                   chain.header.value.fenceId > if ring in outcome.completed then outcome.completed[ring] else 0;
              Fails(chain, outcome) <==> !outcome.addUsedOk && !waits
  {
    FencedIff(chain);
  }

  /** Some(true) if the chain was added to the used ring, Some(false) if it was parked, None if the
      worker gives up with an error. */
  method ProcessQueueChain(fence: FenceState, queue: Queue<Chain>, id: QueueId, chain: Chain, outcome: Outcome)
    returns (added: Option<bool>)
    modifies fence, queue`used, queue`unsignalled
    ensures added.None? <==> Fails(chain, outcome)
    ensures added.Some? ==>
              (added.value <==> !(chain.hasResponseRoom && outcome.responseLen.Some? && MustPark(chain, outcome)))
              && queue.used == old(queue.used) + Answer(chain, outcome)
              && queue.unsignalled == old(queue.unsignalled) + (if added.value then 1 else 0)
              && |queue.used| == |old(queue.used)| + (if added.value then 1 else 0)
    ensures added.None? ==> queue.used == old(queue.used) && queue.unsignalled == old(queue.unsignalled)
    ensures added.Some? && !added.value ==>
              var f := chain.header.value;
              fence.descs == outcome.parked
                + [FenceDescriptor(RingOf(f), f.fenceId, chain.head, outcome.responseLen.value, Job(id, chain))]
  {
    if !chain.hasResponseRoom {
      if !outcome.addUsedOk {
        return None;
      }
      queue.AddUsed(chain.head, 0);
      return Some(true);
    }
    if outcome.responseLen.None? {
      return None;
    }
    var addToQueue := true;
    if Fenced(chain) {
      var f := chain.header.value;
      fence.descs, fence.completedFences := outcome.parked, outcome.completed;
      addToQueue := fence.ProcessFence(RingOf(f), f.fenceId, chain.head, outcome.responseLen.value, Job(id, chain));
    }
    if addToQueue {
      if !outcome.addUsedOk {
        return None;
      }
      queue.AddUsed(chain.head, outcome.responseLen.value);
    }
    return Some(addToQueue);
  }

  /** The used entries of a stretch of the driver's stream: one per chain that is not parked, in the
      order the chains were made available. */
  function Answers(chains: seq<Chain>, outcomes: nat -> Outcome, from: nat): seq<Used> {
    if chains == [] then []
    else
      var chain, n := chains[|chains| - 1], |chains| - 1;
      Answers(chains[..n], outcomes, from) + Answer(chain, outcomes(from + n))
  }

  function Answer(chain: Chain, outcome: Outcome): seq<Used> {
    if !chain.hasResponseRoom then [Used(chain.head, 0)]
    else if outcome.responseLen.None? || MustPark(chain, outcome) then []
    else [Used(chain.head, outcome.responseLen.value)]
  }

  lemma OneMoreAnswer(chains: seq<Chain>, chain: Chain, outcomes: nat -> Outcome, from: nat)
    ensures Answers(chains + [chain], outcomes, from)
         == Answers(chains, outcomes, from) + Answer(chain, outcomes(from + |chains|))
  {
    assert (chains + [chain])[..|chains|] == chains;
  }

  lemma {:induction false} AnswersJoin(a: seq<Chain>, b: seq<Chain>, outcomes: nat -> Outcome, from: nat)
    ensures Answers(a + b, outcomes, from) == Answers(a, outcomes, from) + Answers(b, outcomes, from + |a|)
  {
    if b == [] {
      assert a + b == a;
    } else {
      hide Answers, Answer;
      var init, last := b[..|b| - 1], b[|b| - 1];
      assert b == init + [last] && a + b == (a + init) + [last];
      assert from + |a + init| == (from + |a|) + |init|;
      AnswersJoin(a, init, outcomes, from);
      OneMoreAnswer(a + init, last, outcomes, from);
      OneMoreAnswer(init, last, outcomes, from + |a|);
      Regroup(Answers(a, outcomes, from), Answers(init, outcomes, from + |a|),
              Answer(last, outcomes(from + |a| + |init|)));
    }
  }

  /** Whether serving a stretch of the stream met no failure. */
  ghost predicate NoneFails(chains: seq<Chain>, outcomes: nat -> Outcome, from: nat) {
    forall k :: 0 <= k < |chains| ==> !Fails(chains[k], outcomes(from + k))
  }

  lemma OneMoreServed(chains: seq<Chain>, chain: Chain, outcomes: nat -> Outcome, from: nat)
    ensures NoneFails(chains + [chain], outcomes, from)
       <==> NoneFails(chains, outcomes, from) && !Fails(chain, outcomes(from + |chains|))
  {
    hide Fails;
    var longer := chains + [chain];
    assert longer[|chains|] == chain && forall k :: 0 <= k < |chains| ==> longer[k] == chains[k];
  }

  lemma ServedJoin(a: seq<Chain>, b: seq<Chain>, outcomes: nat -> Outcome, from: nat)
    ensures NoneFails(a + b, outcomes, from) <==> NoneFails(a, outcomes, from) && NoneFails(b, outcomes, from + |a|)
  {
    hide Fails;
    var joined := a + b;
    assert forall k :: 0 <= k < |a| ==> joined[k] == a[k];
    if NoneFails(joined, outcomes, from) {
      assert forall k :: 0 <= k < |b| ==> joined[|a| + k] == b[k] && from + (|a| + k) == (from + |a|) + k;
    }
  }

  /** A service of `stream[from..to]` that its last chain ended by failing: the chains before it are
      answered, and it has no used entry. */
  ghost predicate FailedAt(before: seq<Used>, used: seq<Used>, stream: seq<Chain>, from: nat, to: nat,
                           outcomes: nat -> Outcome)
  {
    && from < to <= |stream|
    && Fails(stream[to - 1], outcomes(to - 1)) && NoneFails(stream[from..to - 1], outcomes, from)
    && used == before + Answers(stream[from..to - 1], outcomes, from)
  }

  /** Pops until the ring looks empty or a chain fails; `signal` says whether a used entry was made. */
  method ProcessQueue(fence: FenceState, queue: Queue<Chain>, id: QueueId, outcomes: nat -> Outcome)
    returns (ok: bool, signal: bool)
    requires queue.Valid()
    modifies fence, queue`avail, queue`next, queue`arrivals, queue`used, queue`unsignalled, queue`popsWhileOn
    ensures !queue.notificationsOn ==> queue.popsWhileOn == old(queue.popsWhileOn)
    ensures queue.Valid() && queue.Stream() == old(queue.Stream()) && queue.next >= old(queue.next)
    ensures |queue.arrivals| <= |old(queue.arrivals)| && old(queue.avail) <= queue.avail
    ensures ok <==> NoneFails(queue.Stream()[old(queue.next)..queue.next], outcomes, old(queue.next))
    ensures !ok ==> FailedAt(old(queue.used), queue.used, queue.Stream(), old(queue.next), queue.next, outcomes)
    ensures ok ==> queue.next == |queue.avail|
    ensures queue.next == old(queue.next) && old(queue.arrivals) != [] && ok ==>
              |queue.arrivals| < |old(queue.arrivals)|
    ensures queue.unsignalled - old(queue.unsignalled) == |queue.used| - |old(queue.used)| >= 0
    ensures ok ==> (signal <==> |queue.used| > |old(queue.used)|)
    ensures ok ==> queue.used == old(queue.used)
                     + Answers(queue.Stream()[old(queue.next)..queue.next], outcomes, old(queue.next))
  {
    hide Answers, Answer, Fails, NoneFails;
    signal := false;
    ghost var stream, start := queue.Stream(), queue.next;
    ghost var served, answers := [], [];
    NoAnswers(outcomes, start);
    while true
      invariant queue.Valid() && queue.Stream() == stream && start <= queue.next
      invariant served == stream[start..queue.next]
      invariant |queue.arrivals| <= |old(queue.arrivals)| && old(queue.avail) <= queue.avail
      invariant NoneFails(served, outcomes, start)
      invariant queue.unsignalled - old(queue.unsignalled) == |queue.used| - |old(queue.used)| >= 0
      invariant signal <==> |queue.used| > |old(queue.used)|
      invariant answers == Answers(served, outcomes, start)
      invariant queue.used == old(queue.used) + answers
      invariant !queue.notificationsOn ==> queue.popsWhileOn == old(queue.popsWhileOn)
      decreases queue.Remaining()
    {
      var chain := queue.PopDescriptorChain();
      if chain.None? {
        break;
      }
      var outcome := outcomes(queue.next - 1);
      assert start + |served| == queue.next - 1;
      OneMoreAnswer(served, chain.value, outcomes, start);
      OneMoreServed(served, chain.value, outcomes, start);
      assert stream[start..queue.next] == served + [chain.value];
      ghost var one, usedBefore := Answer(chain.value, outcome), queue.used;
      var added := ProcessQueueChain(fence, queue, id, chain.value, outcome);
      if added.None? {
        assert stream[start..queue.next - 1] == served;
        return false, signal;
      }
      assert old(queue.used) + answers + one == old(queue.used) + (answers + one);
      assert queue.used == usedBefore + one;
      served, answers := served + [chain.value], answers + one;
      signal := signal || added.value;
    }
    return true, signal;
  }

  lemma NoAnswers(outcomes: nat -> Outcome, from: nat)
    ensures Answers([], outcomes, from) == [] && NoneFails([], outcomes, from)
  {
  }

  lemma BatchJoins(used: seq<Used>, answers: seq<Used>, served: seq<Chain>, batch: seq<Chain>,
                   outcomes: nat -> Outcome, from: nat)
    requires answers == Answers(served, outcomes, from)
    ensures (used + answers) + Answers(batch, outcomes, from + |served|)
         == used + Answers(served + batch, outcomes, from)
    ensures NoneFails(served + batch, outcomes, from) <==>
              NoneFails(served, outcomes, from) && NoneFails(batch, outcomes, from + |served|)
  {
    hide Answers, NoneFails;
    AnswersJoin(served, batch, outcomes, from);
    ServedJoin(served, batch, outcomes, from);
  }

  lemma FailureJoins(before: seq<Used>, used: seq<Used>, stream: seq<Chain>, from: nat, mid: nat, to: nat,
                     outcomes: nat -> Outcome)
    requires from <= mid <= |stream| && NoneFails(stream[from..mid], outcomes, from)
    requires FailedAt(before + Answers(stream[from..mid], outcomes, from), used, stream, mid, to, outcomes)
    ensures FailedAt(before, used, stream, from, to, outcomes)
  {
    hide Answers, NoneFails, Fails;
    SliceJoin(stream, from, mid, to - 1);
    BatchJoins(before, Answers(stream[from..mid], outcomes, from), stream[from..mid], stream[mid..to - 1],
               outcomes, from);
  }

  /** The EVENT_IDX loop: the queue looks at the available ring once per pop, so it is drained until
      re-enabling notifications finds nothing new. */
  method DrainWithEventIdx(fence: FenceState, queue: Queue<Chain>, id: QueueId, outcomes: nat -> Outcome)
    returns (ok: bool)
    requires queue.Valid()
    modifies fence, queue
    ensures queue.Valid() && queue.Stream() == old(queue.Stream()) && queue.next >= old(queue.next)
    ensures old(queue.avail) <= queue.avail
    ensures ok <==> NoneFails(queue.Stream()[old(queue.next)..queue.next], outcomes, old(queue.next))
    ensures !ok ==> FailedAt(old(queue.used), queue.used, queue.Stream(), old(queue.next), queue.next, outcomes)
    ensures ok ==> queue.next == |queue.avail| && queue.notificationsOn
    ensures queue.popsWhileOn == old(queue.popsWhileOn)
    ensures ok ==> (queue.signals > old(queue.signals) <==> |queue.used| > |old(queue.used)|)
    ensures 0 <= queue.signals - old(queue.signals) <= |queue.used| - |old(queue.used)|
    ensures ok && old(queue.unsignalled) == 0 ==> queue.unsignalled == 0
    ensures ok ==> queue.used == old(queue.used)
                     + Answers(queue.Stream()[old(queue.next)..queue.next], outcomes, old(queue.next))
  {
    hide Answers, Answer, NoneFails, Flat, FailedAt;
    ghost var stream, start := queue.Stream(), queue.next;
    ghost var served, answers := [], [];
    NoAnswers(outcomes, start);
    while true
      invariant queue.Valid() && queue.Stream() == stream && start <= queue.next
      invariant old(queue.avail) <= queue.avail && NoneFails(served, outcomes, start)
      invariant served == stream[start..queue.next] && answers == Answers(served, outcomes, start)
      invariant old(queue.unsignalled) == 0 ==> queue.unsignalled == 0
      invariant queue.used == old(queue.used) + answers
      invariant queue.signals > old(queue.signals) <==> |queue.used| > |old(queue.used)|
      invariant 0 <= queue.signals - old(queue.signals) <= |queue.used| - |old(queue.used)|
      invariant queue.popsWhileOn == old(queue.popsWhileOn)
      decreases queue.Remaining(), |queue.arrivals|
    {
      ghost var mid := queue.next;
      queue.DisableNotification();
      var processed, notify := ProcessQueue(fence, queue, id, outcomes);
      ghost var batch := stream[mid..queue.next];
      SliceJoin(stream, start, mid, queue.next);
      assert start + |served| == mid;
      BatchJoins(old(queue.used), answers, served, batch, outcomes, start);
      if !processed {
        FailureJoins(old(queue.used), queue.used, stream, start, mid, queue.next, outcomes);
        return false;
      }
      served := served + batch;
      answers := Answers(served, outcomes, start);
      if notify {
        queue.SignalUsedQueue();
      }
      var more := queue.EnableNotification();
      if !more {
        break;
      }
    }
    assert queue.Stream()[start..queue.next] == served;
    return true;
  }

  /** One kick. On a queue that is disabled or cannot be locked it does nothing at all. Otherwise every
      chain the driver had made available has been popped, and the driver is left with a signalled used
      ring exactly if EVENT_IDX is in use or nothing was added; with EVENT_IDX the queue is only popped
      while the driver is not asked to kick. */
  method HandleQueueEvent(fence: FenceState, queue: Queue<Chain>, id: QueueId, eventIdx: bool,
                          kickEnabled: bool, lockable: bool, outcomes: nat -> Outcome) returns (ok: bool)
    requires queue.Valid()
    modifies fence, queue
    ensures queue.Valid() && queue.Stream() == old(queue.Stream()) && queue.next >= old(queue.next)
    ensures old(queue.avail) <= queue.avail
    ensures ok <==> NoneFails(queue.Stream()[old(queue.next)..queue.next], outcomes, old(queue.next))
    ensures !ok ==> FailedAt(old(queue.used), queue.used, queue.Stream(), old(queue.next), queue.next, outcomes)
    ensures !(kickEnabled && lockable) ==>
              && ok && queue.Now() == old(queue.Now())
              && fence.descs == old(fence.descs) && fence.completedFences == old(fence.completedFences)
    ensures !eventIdx ==> queue.signals == old(queue.signals) && queue.notificationsOn == old(queue.notificationsOn)
    ensures eventIdx ==> queue.popsWhileOn == old(queue.popsWhileOn)
    ensures ok && eventIdx ==> (queue.signals > old(queue.signals) <==> |queue.used| > |old(queue.used)|)
    ensures ok && kickEnabled && lockable ==> queue.next == |queue.avail|
    ensures ok && kickEnabled && lockable && eventIdx ==> queue.notificationsOn
    ensures ok && old(queue.unsignalled) == 0 ==>
              (queue.unsignalled == 0 <==> eventIdx || queue.used == old(queue.used))
    ensures ok ==> queue.used == old(queue.used)
                     + Answers(queue.Stream()[old(queue.next)..queue.next], outcomes, old(queue.next))
  {
    if !kickEnabled || !lockable {
      NoAnswers(outcomes, queue.next);
      assert queue.Stream()[queue.next..queue.next] == [] && queue.used + [] == queue.used;
      return true;
    }
    if eventIdx {
      ok := DrainWithEventIdx(fence, queue, id, outcomes);
    } else {
      var notify;
      ok, notify := ProcessQueue(fence, queue, id, outcomes);
    }
  }

  /** Without EVENT_IDX a kick that answers a chain leaves its used entry unsignalled. */
  method UnsignalledAnswer(fence: FenceState, queue: Queue<Chain>) returns (ok: bool)
    requires queue.avail == [Chain(0, true, None)] && queue.arrivals == [] && queue.next == 0 && queue.unsignalled == 0
    modifies fence, queue
    ensures ok && queue.used == old(queue.used) + [Used(0, 24)] && queue.unsignalled > 0
  {
    hide Answers, Answer, NoneFails, Fails, Flat;
    var chain := Chain(0, true, None);
    var outcomes := (_: nat) => Outcome(Some(24), true, [], map[]);
    assert queue.Stream() == [chain] by { NothingArrives(queue); }
    ok := HandleQueueEvent(fence, queue, Control, false, true, true, outcomes);
    OneAnswer(chain, outcomes, queue.Stream()[0..queue.next], queue.next);
    assert queue.avail[0] == chain && |queue.Stream()| == 1;
  }

  lemma NothingArrives(queue: Queue<Chain>)
    requires queue.arrivals == []
    ensures queue.Stream() == queue.avail
  {
  }

  lemma AnsweredAtOnce(chain: Chain, outcome: Outcome)
    requires chain == Chain(0, true, None) && outcome == Outcome(Some(24), true, [], map[])
    ensures !Fails(chain, outcome) && Answer(chain, outcome) == [Used(0, 24)]
  {
    assert !Fenced(chain);
    hide Fenced;
  }

  lemma OneAnswer(chain: Chain, outcomes: nat -> Outcome, served: seq<Chain>, n: nat)
    requires chain == Chain(0, true, None) && outcomes(0) == Outcome(Some(24), true, [], map[])
    requires n <= 1 && served == [chain][0..n]
    ensures NoneFails(served, outcomes, 0) && Answers(served, outcomes, 0) == if n == 0 then [] else [Used(0, 24)]
  {
    hide Answers, Answer, NoneFails, Fails;
    NoAnswers(outcomes, 0);
    if n == 1 {
      AnsweredAtOnce(chain, outcomes(0));
      assert served == [] + [chain];
      OneMoreServed([], chain, outcomes, 0);
      OneMoreAnswer([], chain, outcomes, 0);
    }
  }

  // ---- worker and handler on one queue ----

  lemma {:induction false} LastIsMatched(descs: seq<FenceDescriptor>, d: FenceDescriptor, ring: Ring, fenceId: nat)
    requires Matches(d, ring, fenceId)
    ensures Matched(descs + [d], ring, fenceId) == Matched(descs, ring, fenceId) + [d]
    ensures Kept(descs + [d], ring, fenceId) == Kept(descs, ring, fenceId)
  {
    if descs == [] {
      assert [] + [d] == [d] && [d][1..] == [];
    } else {
      assert (descs + [d])[1..] == descs[1..] + [d] && (descs + [d])[0] == descs[0];
      LastIsMatched(descs[1..], d, ring, fenceId);
    }
  }

  lemma {:induction false} AllDelivered(released: seq<FenceDescriptor>, locks: seq<bool>)
    requires |locks| == |released| && forall j :: 0 <= j < |locks| ==> locks[j]
    ensures |Delivered(released, locks)| == |released|
    ensures forall j :: 0 <= j < |released| ==>
              Delivered(released, locks)[j] == Reply(Control, released[j].descIndex, released[j].len, released[j].job)
  {
    if released != [] {
      AllDelivered(released[1..], locks[1..]);
    }
  }

  /** A fenced chain of the control queue that the worker has to park and the handler then releases:
      its used entry is made by the handler, on the same used ring, with the response's length, behind
      those of the chains released before it, and the driver is signalled. */
  method ParkedThenReleased(fence: FenceState, queue: Queue<Chain>, chain: Chain, outcome: Outcome, done: FenceInfo)
    requires chain.hasResponseRoom && outcome.responseLen.Some? && MustPark(chain, outcome)
    requires RingOf(done) == RingOf(chain.header.value) && done.fenceId >= chain.header.value.fenceId
    modifies fence, queue`used, queue`unsignalled, queue`signals
    ensures var released := Matched(outcome.parked, RingOf(done), done.fenceId);
            && |queue.used| == |old(queue.used)| + |released| + 1 && old(queue.used) <= queue.used
            && queue.used[|queue.used| - 1] == Used(chain.head, outcome.responseLen.value)
    ensures queue.unsignalled == 0
    ensures fence.descs == Kept(outcome.parked, RingOf(done), done.fenceId)
  {
    hide Matched, Kept, Delivered, RingOf;
    var added := ProcessQueueChain(fence, queue, Control, chain, outcome);
    var d := FenceDescriptor(RingOf(done), chain.header.value.fenceId, chain.head, outcome.responseLen.value,
                             Job(Control, chain));
    LastIsMatched(outcome.parked, d, RingOf(done), done.fenceId);
    var released := Matched(fence.descs, RingOf(done), done.fenceId);
    var locks := seq(|released|, _ => true);
    AllDelivered(released, locks);
    fence.HandleFence(queue, done, locks);
  }

  // ---- the service loop is a run of the interleaved protocol ----

  /** Serving one chain, with the handler's signals between its steps: those that land before the
      fence decision, and those between the decision and the used entry. */
  datatype Turn = Turn(chain: Chain, outcome: Outcome, early: seq<FP.Step>, late: seq<FP.Step>)

  predicate Signals(steps: seq<FP.Step>) {
    forall i :: 0 <= i < |steps| ==> steps[i].Signal?
  }

  lemma {:induction false} SignalsKeepWorker(s: FP.System, steps: seq<FP.Step>)
    requires FP.ValidRun(s, steps) && Signals(steps)
    ensures var s' := FP.After(s, steps); s'.worker == s.worker && s'.popped == s.popped && WorkerUsed(s, steps) == []
    decreases steps
  {
    if steps != [] {
      assert steps[0].Signal?;
      SignalsKeepWorker(FP.Apply(s, steps[0]), steps[1..]);
    }
  }

  /** The used entry that the worker makes in a step. */
  function WorkerMakes(s: FP.System, step: FP.Step): seq<Used>
    requires FP.Enabled(s, step)
  {
    match step
    case ReturnWithoutRoom => [Used(s.worker.job.chain.head, 0)]
    case AddUsed => [Used(s.worker.job.chain.head, s.worker.len)]
    case _ => []
  }

  function WorkerUsed(s: FP.System, run: seq<FP.Step>): seq<Used>
    requires FP.ValidRun(s, run)
    decreases run
  {
    if run == [] then [] else WorkerMakes(s, run[0]) + WorkerUsed(FP.Apply(s, run[0]), run[1..])
  }

  /** The system when the worker has prepared the response of a chain, or found no room for one. */
  function Prepared(s: FP.System, id: QueueId, turn: Turn): FP.System {
    var job, popped := Job(id, turn.chain), s.popped + [Job(id, turn.chain)];
    if !turn.chain.hasResponseRoom || turn.outcome.responseLen.None? then
      s.(worker := FP.Executed(job), popped := popped)
    else
      var len := turn.outcome.responseLen.value;
      s.(worker := FP.Encoded(job, len), popped := popped, responses := s.responses + {FP.Response(job, len)})
  }

  /** The chain does not fail, the signals are possible, and the outcome's fence state is what they
      leave behind. */
  predicate Fits(s: FP.System, id: QueueId, turn: Turn) {
    && !Fails(turn.chain, turn.outcome)
    && Signals(turn.early) && Signals(turn.late)
    && FP.ValidRun(Prepared(s, id, turn), turn.early)
    && var decided := FP.After(Prepared(s, id, turn), turn.early);
       && decided.completed == turn.outcome.completed && decided.descs == turn.outcome.parked
       && (decided.worker.Encoded? ==> FP.ValidRun(FP.DecideFence(decided), turn.late))
  }

  /** Every chain fits, with any response and any signals before its fence decision. */
  lemma EveryChainFits(s: FP.System, id: QueueId, chain: Chain, len: nat, early: seq<FP.Step>) returns (turn: Turn)
    requires Signals(early)
    requires FP.ValidRun(Prepared(s, id, Turn(chain, Outcome(Some(len), true, [], map[]), [], [])), early)
    ensures turn.chain == chain && turn.early == early && turn.outcome.responseLen == Some(len)
    ensures Fits(s, id, turn)
  {
    var ready := Prepared(s, id, Turn(chain, Outcome(Some(len), true, [], map[]), [], []));
    var decided := FP.After(ready, early);
    turn := Turn(chain, Outcome(Some(len), true, decided.descs, decided.completed), early, []);
    assert Prepared(s, id, turn) == ready;
  }

  function AfterTurn(s: FP.System, id: QueueId, turn: Turn): FP.System
    requires Fits(s, id, turn)
  {
    var decided := FP.After(Prepared(s, id, turn), turn.early);
    if !decided.worker.Encoded? then FP.AddReply(decided, Job(id, turn.chain), 0)
    else
      var returning := FP.After(FP.DecideFence(decided), turn.late);
      if returning.worker.Returning? then FP.AddReply(returning, returning.worker.job, returning.worker.len)
      else returning
  }

  lemma {:induction false} WorkerUsedJoin(s: FP.System, a: seq<FP.Step>, b: seq<FP.Step>)
    requires FP.ValidRun(s, a) && FP.ValidRun(FP.After(s, a), b)
    ensures FP.ValidRun(s, a + b) && FP.After(s, a + b) == FP.After(FP.After(s, a), b)
    ensures WorkerUsed(s, a + b) == WorkerUsed(s, a) + WorkerUsed(FP.After(s, a), b)
    decreases a
  {
    FP.RunJoin(s, a, b);
    if a == [] {
      assert a + b == b;
    } else {
      hide FP.Apply, FP.Enabled, WorkerMakes;
      assert (a + b)[1..] == a[1..] + b && (a + b)[0] == a[0];
      WorkerUsedJoin(FP.Apply(s, a[0]), a[1..], b);
      Regroup(WorkerMakes(s, a[0]), WorkerUsed(FP.Apply(s, a[0]), a[1..]), WorkerUsed(FP.After(s, a), b));
    }
  }

  lemma OneStep(s: FP.System, step: FP.Step)
    requires FP.Enabled(s, step)
    ensures FP.ValidRun(s, [step]) && FP.After(s, [step]) == FP.Apply(s, step)
    ensures WorkerUsed(s, [step]) == WorkerMakes(s, step)
  {
    hide FP.Apply;
    assert [step][1..] == [];
  }

  lemma Then(s: FP.System, run: seq<FP.Step>, more: seq<FP.Step>, entries: seq<Used>) returns (longer: seq<FP.Step>)
    requires FP.ValidRun(s, run) && WorkerUsed(s, run) == [] && FP.ValidRun(FP.After(s, run), more)
    requires WorkerUsed(FP.After(s, run), more) == entries
    ensures FP.ValidRun(s, longer) && WorkerUsed(s, longer) == entries
    ensures FP.After(s, longer) == FP.After(FP.After(s, run), more)
  {
    WorkerUsedJoin(s, run, more);
    longer := run + more;
  }

  /** The steps from popping a chain to its prepared response. */
  lemma PreparesInSteps(s: FP.System, id: QueueId, turn: Turn) returns (run: seq<FP.Step>)
    requires s.worker.Idle? && !Fails(turn.chain, turn.outcome)
    ensures FP.ValidRun(s, run) && FP.After(s, run) == Prepared(s, id, turn) && WorkerUsed(s, run) == []
  {
    var pop := FP.Pop(Job(id, turn.chain));
    OneStep(s, pop);
    run := [pop];
    if turn.chain.hasResponseRoom {
      var s1 := FP.Apply(s, pop);
      if Fenced(turn.chain) {
        OneStep(s1, FP.CreateFence(true));
        run := Then(s, run, [FP.CreateFence(true)], []);
        s1 := FP.Apply(s1, FP.CreateFence(true));
      }
      var encode := FP.Encode(turn.outcome.responseLen.value);
      OneStep(s1, encode);
      run := Then(s, run, [encode], []);
    }
  }

  /** One turn is a run of the protocol in which the worker makes the chain's used entry, if any. */
  lemma TurnFollowsProtocol(s: FP.System, id: QueueId, turn: Turn) returns (run: seq<FP.Step>)
    requires s.worker.Idle? && Fits(s, id, turn)
    ensures FP.ValidRun(s, run) && FP.After(s, run) == AfterTurn(s, id, turn)
    ensures WorkerUsed(s, run) == Answer(turn.chain, turn.outcome)
    ensures AfterTurn(s, id, turn).worker.Idle? && AfterTurn(s, id, turn).popped == s.popped + [Job(id, turn.chain)]
  {
    hide FP.ValidRun, FP.After, WorkerUsed;
    run := PreparesInSteps(s, id, turn);
    var prepared := Prepared(s, id, turn);
    SignalsKeepWorker(prepared, turn.early);
    run := Then(s, run, turn.early, []);
    var decided := FP.After(prepared, turn.early);
    if !turn.chain.hasResponseRoom {
      OneStep(decided, FP.ReturnWithoutRoom);
      run := Then(s, run, [FP.ReturnWithoutRoom], [Used(turn.chain.head, 0)]);
    } else {
      OneStep(decided, FP.Decide);
      run := Then(s, run, [FP.Decide], []);
      var returning := FP.DecideFence(decided);
      SignalsKeepWorker(returning, turn.late);
      run := Then(s, run, turn.late, []);
      returning := FP.After(returning, turn.late);
      if returning.worker.Returning? {
        OneStep(returning, FP.AddUsed);
        run := Then(s, run, [FP.AddUsed], [Used(turn.chain.head, turn.outcome.responseLen.value)]);
      }
    }
  }

  predicate AllFit(s: FP.System, id: QueueId, turns: seq<Turn>)
    decreases |turns|, 0
  {
    turns == [] ||
    (AllFit(s, id, turns[..|turns| - 1]) &&
     Fits(AfterTurns(s, id, turns[..|turns| - 1]), id, turns[|turns| - 1]))
  }

  function AfterTurns(s: FP.System, id: QueueId, turns: seq<Turn>): FP.System
    requires AllFit(s, id, turns)
    decreases |turns|, 1
  {
    if turns == [] then s
    else AfterTurn(AfterTurns(s, id, turns[..|turns| - 1]), id, turns[|turns| - 1])
  }

  function ChainsOf(turns: seq<Turn>): (chains: seq<Chain>)
    ensures |chains| == |turns|
  {
    seq(|turns|, k requires 0 <= k < |turns| => turns[k].chain)
  }

  function JobsOf(id: QueueId, turns: seq<Turn>): seq<Job> {
    seq(|turns|, k requires 0 <= k < |turns| => Job(id, turns[k].chain))
  }

  /** A whole service of the queue, with the handler running between its steps, is a run of the
      protocol in which the worker makes exactly the used entries that `ProcessQueue` promises. */
  lemma {:induction false} ServiceFollowsProtocol(s: FP.System, id: QueueId, turns: seq<Turn>,
                                                  outcomes: nat -> Outcome, from: nat)
    returns (run: seq<FP.Step>)
    requires s.worker.Idle? && AllFit(s, id, turns)
    requires forall k :: 0 <= k < |turns| ==> turns[k].outcome == outcomes(from + k)
    ensures FP.ValidRun(s, run) && FP.After(s, run) == AfterTurns(s, id, turns) && FP.After(s, run).worker.Idle?
    ensures WorkerUsed(s, run) == Answers(ChainsOf(turns), outcomes, from)
    ensures FP.After(s, run).popped == s.popped + JobsOf(id, turns)
    ensures NoneFails(ChainsOf(turns), outcomes, from)
  {
    hide FP.ValidRun, FP.After, WorkerUsed, Answer, Answers, Fails, Fits, AfterTurn, AllFit, AfterTurns, NoneFails,
      ChainsOf, JobsOf;
    if turns == [] {
      run := [];
      NothingServed(s, id, outcomes, from);
    } else {
      var n := |turns| - 1;
      var init, last := turns[..n], turns[n];
      LastTurn(s, id, turns);
      run := ServiceFollowsProtocol(s, id, init, outcomes, from);
      run := OneMoreTurn(s, run, id, last);
      ChainsAndJobs(id, turns);
      Regroup(s.popped, JobsOf(id, init), [Job(id, last.chain)]);
      OneMoreAnswer(ChainsOf(init), last.chain, outcomes, from);
      OneMoreServed(ChainsOf(init), last.chain, outcomes, from);
    }
  }

  lemma NothingServed(s: FP.System, id: QueueId, outcomes: nat -> Outcome, from: nat)
    ensures FP.ValidRun(s, []) && FP.After(s, []) == s == AfterTurns(s, id, [])
    ensures WorkerUsed(s, []) == Answers(ChainsOf([]), outcomes, from) && NoneFails(ChainsOf([]), outcomes, from)
    ensures s.popped == s.popped + JobsOf(id, [])
  {
    NoAnswers(outcomes, from);
    assert ChainsOf([]) == [] && JobsOf(id, []) == [];
  }

  lemma OneMoreTurn(s: FP.System, run: seq<FP.Step>, id: QueueId, turn: Turn) returns (longer: seq<FP.Step>)
    requires FP.ValidRun(s, run) && FP.After(s, run).worker.Idle? && Fits(FP.After(s, run), id, turn)
    ensures FP.ValidRun(s, longer) && FP.After(s, longer) == AfterTurn(FP.After(s, run), id, turn)
    ensures FP.After(s, longer).worker.Idle?
    ensures WorkerUsed(s, longer) == WorkerUsed(s, run) + Answer(turn.chain, turn.outcome)
    ensures FP.After(s, longer).popped == FP.After(s, run).popped + [Job(id, turn.chain)]
  {
    hide FP.ValidRun, FP.After, WorkerUsed, Answer, Fits, AfterTurn;
    var more := TurnFollowsProtocol(FP.After(s, run), id, turn);
    WorkerUsedJoin(s, run, more);
    longer := run + more;
  }

  lemma ChainsAndJobs(id: QueueId, turns: seq<Turn>)
    requires turns != []
    ensures var init, last := turns[..|turns| - 1], turns[|turns| - 1];
            && ChainsOf(turns) == ChainsOf(init) + [last.chain]
            && JobsOf(id, turns) == JobsOf(id, init) + [Job(id, last.chain)]
  {
  }

  lemma LastTurn(s: FP.System, id: QueueId, turns: seq<Turn>)
    requires AllFit(s, id, turns) && turns != []
    ensures var init, last := turns[..|turns| - 1], turns[|turns| - 1];
            && AllFit(s, id, init) && Fits(AfterTurns(s, id, init), id, last) && !Fails(last.chain, last.outcome)
            && AfterTurns(s, id, turns) == AfterTurn(AfterTurns(s, id, init), id, last)
  {
    hide FP.ValidRun, FP.After, Fails, AfterTurn;
  }

  /** Hence everything the protocol keeps holds after a service that starts in a reachable state. */
  lemma ServiceIsSafe(s: FP.System, id: QueueId, turns: seq<Turn>, outcomes: nat -> Outcome, from: nat)
    requires FP.Reachable(s) && s.worker.Idle? && AllFit(s, id, turns)
    requires forall k :: 0 <= k < |turns| ==> turns[k].outcome == outcomes(from + k)
    ensures FP.Safe(AfterTurns(s, id, turns))
  {
    hide FP.ValidRun, FP.After, FP.Safe;
    var run := ServiceFollowsProtocol(s, id, turns, outcomes, from);
    FP.ReachableIsSafe(s);
    FP.EveryRunIsSafe(s, run);
  }

  // ---- a service that a failing chain ends ----

  /** The chain fails, and the signals are possible; a chain whose response was encoded fails after its
      fence was decided. */
  predicate FitsFailing(s: FP.System, id: QueueId, turn: Turn) {
    && Fails(turn.chain, turn.outcome)
    && Signals(turn.early) && Signals(turn.late)
    && FP.ValidRun(Prepared(s, id, turn), turn.early)
    && var decided := FP.After(Prepared(s, id, turn), turn.early);
       decided.worker.Encoded? ==>
         decided.completed == turn.outcome.completed && FP.ValidRun(FP.DecideFence(decided), turn.late)
  }

  /** The steps up to the prepared response, or up to the point where there is none. */
  lemma PreparesOrNot(s: FP.System, id: QueueId, turn: Turn) returns (run: seq<FP.Step>)
    requires s.worker.Idle?
    ensures FP.ValidRun(s, run) && FP.After(s, run) == Prepared(s, id, turn) && WorkerUsed(s, run) == []
  {
    if turn.chain.hasResponseRoom && turn.outcome.responseLen.Some? {
      run := PreparesInSteps(s, id, turn.(outcome := turn.outcome.(addUsedOk := true)));
    } else {
      var pop := FP.Pop(Job(id, turn.chain));
      OneStep(s, pop);
      run := [pop];
    }
  }

  /** A failing turn is a run of the protocol that ends with the worker's failure and makes no used entry. */
  lemma FailureFollowsProtocol(s: FP.System, id: QueueId, turn: Turn) returns (run: seq<FP.Step>)
    requires s.worker.Idle? && FitsFailing(s, id, turn)
    ensures FP.ValidRun(s, run) && WorkerUsed(s, run) == []
    ensures FP.After(s, run).worker == FP.Failed(Job(id, turn.chain))
    ensures FP.After(s, run).popped == s.popped + [Job(id, turn.chain)]
  {
    hide FP.ValidRun, FP.After, WorkerUsed;
    run := PreparesOrNot(s, id, turn);
    var now := Prepared(s, id, turn);
    SignalsKeepWorker(now, turn.early);
    run := Then(s, run, turn.early, []);
    now := FP.After(now, turn.early);
    if now.worker.Encoded? {
      OneStep(now, FP.Decide);
      run := Then(s, run, [FP.Decide], []);
      now := FP.DecideFence(now);
      SignalsKeepWorker(now, turn.late);
      run := Then(s, run, turn.late, []);
      now := FP.After(now, turn.late);
    } else if turn.chain.hasResponseRoom && Fenced(turn.chain) {
      OneStep(now, FP.CreateFence(true));
      run := Then(s, run, [FP.CreateFence(true)], []);
      now := FP.Apply(now, FP.CreateFence(true));
    }
    OneStep(now, FP.Fail);
    run := Then(s, run, [FP.Fail], []);
  }

  /** A service that a failing chain ends is a run of the protocol too, with the used entries of the chains
      before it. */
  lemma FailedServiceFollowsProtocol(s: FP.System, id: QueueId, turns: seq<Turn>, last: Turn,
                                     outcomes: nat -> Outcome, from: nat) returns (run: seq<FP.Step>)
    requires s.worker.Idle? && AllFit(s, id, turns) && FitsFailing(AfterTurns(s, id, turns), id, last)
    requires forall k :: 0 <= k < |turns| ==> turns[k].outcome == outcomes(from + k)
    ensures FP.ValidRun(s, run) && FP.After(s, run).worker == FP.Failed(Job(id, last.chain))
    ensures WorkerUsed(s, run) == Answers(ChainsOf(turns), outcomes, from)
    ensures FP.After(s, run).popped == s.popped + JobsOf(id, turns) + [Job(id, last.chain)]
    ensures FP.Reachable(s) ==> FP.Safe(FP.After(s, run))
  {
    hide FP.ValidRun, FP.After, WorkerUsed, Answers, AllFit, AfterTurns, FitsFailing, ChainsOf, JobsOf, FP.Safe;
    run := ServiceFollowsProtocol(s, id, turns, outcomes, from);
    var more := FailureFollowsProtocol(FP.After(s, run), id, last);
    WorkerUsedJoin(s, run, more);
    assert WorkerUsed(s, run) + [] == WorkerUsed(s, run);
    run := run + more;
    if FP.Reachable(s) {
      FP.ReachableIsSafe(s);
      FP.EveryRunIsSafe(s, run);
    }
  }
}
