/** The worker thread and the renderer's fence handler as interleaved atomic steps. The worker holds
    at most one chain; between any two of its steps the handler may run, in particular between the
    creation of a fence and the decision to park its chain. */
module FenceProtocol {
  import opened Fence
  import opened VirtQueue
  import opened Wrappers

  datatype Worker =
    | Idle
    | Executed(job: Job)              // command run, response not yet prepared
    | FenceCreated(job: Job)
    | Encoded(job: Job, len: nat)     // response written to the chain
    | Returning(job: Job, len: nat)   // decided to add the chain to the used ring
    | Failed(job: Job)                // an error ended the worker

  datatype Response = Response(job: Job, len: nat)

  /** `popped`, `responses` (the prepared responses), `signals` and `dropped` are history. */
  datatype System = System(
    worker: Worker,
    descs: seq<FenceDescriptor>,
    completed: map<Ring, nat>,
    replies: seq<Reply>,
    popped: seq<Job>,
    responses: set<Response>,
    signals: seq<FenceInfo>,
    dropped: seq<Job>)

  const INITIAL := System(Idle, [], map[], [], [], {}, [], [])

  datatype Step =
    | Pop(job: Job)
    | ReturnWithoutRoom
    | CreateFence(ok: bool)
    | Encode(len: nat)
    | Decide
    | AddUsed
    | Fail
    | Signal(fence: FenceInfo, locks: seq<bool>)

  predicate Enabled(s: System, step: Step) {
    match step
    case Pop(_) => s.worker.Idle?
    case ReturnWithoutRoom => s.worker.Executed? && !s.worker.job.chain.hasResponseRoom
    case CreateFence(_) => s.worker.Executed? && s.worker.job.chain.hasResponseRoom && Fenced(s.worker.job.chain)
    case Encode(_) =>
      || s.worker.FenceCreated?
      || (s.worker.Executed? && s.worker.job.chain.hasResponseRoom && !Fenced(s.worker.job.chain))
    case Decide => s.worker.Encoded?
    case AddUsed => s.worker.Returning?
    case Fail => s.worker.Executed? || s.worker.FenceCreated? || s.worker.Returning?
    case Signal(fence, locks) => |locks| == |Matched(s.descs, RingOf(fence), fence.fenceId)|
  }

  /** The creation of a fence may fail: its chain is treated like any other. */
  function Apply(s: System, step: Step): System
    requires Enabled(s, step)
  {
    match step
    case Pop(job) => s.(worker := Executed(job), popped := s.popped + [job])
    case ReturnWithoutRoom => AddReply(s, s.worker.job, 0)
    case CreateFence(_) => s.(worker := FenceCreated(s.worker.job))
    case Encode(len) =>
      s.(worker := Encoded(s.worker.job, len), responses := s.responses + {Response(s.worker.job, len)})
    case Decide => DecideFence(s)
    case AddUsed => AddReply(s, s.worker.job, s.worker.len)
    case Fail => s.(worker := Failed(s.worker.job))
    case Signal(fence, locks) => HandleSignal(s, fence, locks)
  }

  function AddReply(s: System, job: Job, len: nat): System {
    s.(worker := Idle, replies := s.replies + [Reply(job.queue, job.chain.head, len, job)])
  }

  /** `process_fence`, reached only by a fenced chain: see DecideStep. */
  function DecideFence(s: System): System
    requires s.worker.Encoded?
  {
    var job, len := s.worker.job, s.worker.len;
    if !Fenced(job.chain) then s.(worker := Returning(job, len))
    else
      var f := job.chain.header.value;
      if f.fenceId > Completed(s.completed, RingOf(f)) then
        s.(worker := Idle,
           descs := s.descs + [FenceDescriptor(RingOf(f), f.fenceId, job.chain.head, len, job)])
      else s.(worker := Returning(job, len))
  }

  /** What `FenceState.HandleFence` does, as one step: see HandlerStep. */
  function HandleSignal(s: System, fence: FenceInfo, locks: seq<bool>): System
    requires |locks| == |Matched(s.descs, RingOf(fence), fence.fenceId)|
  {
    var ring := RingOf(fence);
    var released := Matched(s.descs, ring, fence.fenceId);
    s.(descs := Kept(s.descs, ring, fence.fenceId),
       completed := s.completed[ring := fence.fenceId],
       replies := s.replies + Delivered(released, locks),
       signals := s.signals + [fence],
       dropped := s.dropped + Lost(released, locks))
  }

  /** The object's handler does what the protocol's signal step does. */
  method HandlerStep(state: FenceState, queue: Queue<Chain>, fence: FenceInfo, locks: seq<bool>, ghost s: System)
    requires state.descs == s.descs && state.completedFences == s.completed && queue.used == UsedOf(s.replies)
    requires Enabled(s, Signal(fence, locks))
    modifies state, queue`used, queue`unsignalled, queue`signals
    ensures var s' := Apply(s, Signal(fence, locks));
            state.descs == s'.descs && state.completedFences == s'.completed && queue.used == UsedOf(s'.replies)
  {
    UsedOfJoin(s.replies, Delivered(Matched(s.descs, RingOf(fence), fence.fenceId), locks));
    state.HandleFence(queue, fence, locks);
  }

  /** The object's `process_fence` does what the protocol's decision does. */
  method DecideStep(state: FenceState, job: Job, len: nat, ghost s: System) returns (addToQueue: bool)
    requires state.descs == s.descs && state.completedFences == s.completed
    requires s.worker == Encoded(job, len) && Fenced(job.chain)
    modifies state
    ensures var s' := Apply(s, Decide);
            && state.descs == s'.descs && state.completedFences == s'.completed
            && s'.worker == if addToQueue then Returning(job, len) else Idle
  {
    var f := job.chain.header.value;
    addToQueue := state.ProcessFence(RingOf(f), f.fenceId, job.chain.head, len, job);
  }

  predicate ValidRun(s: System, run: seq<Step>)
    decreases run
  {
    run == [] || (Enabled(s, run[0]) && ValidRun(Apply(s, run[0]), run[1..]))
  }

  function After(s: System, run: seq<Step>): System
    requires ValidRun(s, run)
    decreases run
  {
    if run == [] then s else After(Apply(s, run[0]), run[1..])
  }

  // ---- what may happen when ----

  /** The renderer may signal any fence in any state, whatever the worker is doing and whether or not
      the queue can be locked. */
  lemma SignalsAtAnyTime(s: System, fence: FenceInfo, locks: seq<bool>) returns (taken: seq<bool>)
    requires |locks| >= |s.descs|
    ensures taken <= locks && Enabled(s, Signal(fence, taken))
  {
    MatchedIsShorter(s.descs, RingOf(fence), fence.fenceId);
    taken := locks[..|Matched(s.descs, RingOf(fence), fence.fenceId)|];
  }

  lemma {:induction false} MatchedIsShorter(descs: seq<FenceDescriptor>, ring: Ring, fenceId: nat)
    ensures |Matched(descs, ring, fenceId)| <= |descs|
  {
    if descs != [] {
      MatchedIsShorter(descs[1..], ring, fenceId);
    }
  }

  /** A worker that has not failed can go on: an idle one with any chain, one that has run a command by
      preparing a response of any length, after creating the fence of a fenced chain (bit 0 of the
      flags), and one without room for a response by returning the chain. */
  lemma WorkerGoesOn(s: System, job: Job, len: nat, ok: bool)
    ensures s.worker.Idle? ==> Enabled(s, Pop(job))
    ensures s.worker.Executed? ==>
              var chain := s.worker.job.chain;
              var fenced := chain.header.Some? && chain.header.value.flags % 2 == 1;
              && (Enabled(s, ReturnWithoutRoom) <==> !chain.hasResponseRoom)
              && (Enabled(s, CreateFence(ok)) <==> chain.hasResponseRoom && fenced)
              && (Enabled(s, Encode(len)) <==> chain.hasResponseRoom && !fenced)
    ensures s.worker.FenceCreated? ==> Enabled(s, Encode(len))
    ensures s.worker.Encoded? ==> Enabled(s, Decide)
    ensures s.worker.Returning? ==> Enabled(s, AddUsed)
    ensures s.worker.Executed? || s.worker.FenceCreated? || s.worker.Returning? ==> Enabled(s, Fail)
  {
    if s.worker.Executed? {
      FencedIff(s.worker.job.chain);
    }
  }

  ghost predicate Reachable(s: System) {
    exists run :: ValidRun(INITIAL, run) && After(INITIAL, run) == s
  }

  // ---- signals and completion ----

  ghost predicate Signalled(signals: seq<FenceInfo>, ring: Ring, fenceId: nat) {
    exists j :: 0 <= j < |signals| && RingOf(signals[j]) == ring && signals[j].fenceId >= fenceId
  }

  /** Fence 0 counts as completed from the start. */
  ghost predicate FenceDone(signals: seq<FenceInfo>, ring: Ring, fenceId: nat) {
    fenceId == 0 || Signalled(signals, ring, fenceId)
  }

  function Latest(signals: seq<FenceInfo>, ring: Ring): Option<nat> {
    if signals == [] then None
    else
      var last := signals[|signals| - 1];
      if RingOf(last) == ring then Some(last.fenceId) else Latest(signals[..|signals| - 1], ring)
  }

  ghost predicate InOrder(signals: seq<FenceInfo>) {
    forall i, j :: 0 <= i < j < |signals| && RingOf(signals[i]) == RingOf(signals[j]) ==>
      signals[i].fenceId <= signals[j].fenceId
  }

  lemma {:induction false} LatestWasSignalled(signals: seq<FenceInfo>, ring: Ring)
    ensures match Latest(signals, ring)
            case None => forall j :: 0 <= j < |signals| ==> RingOf(signals[j]) != ring
            case Some(id) => Signalled(signals, ring, id)
  {
    if signals != [] {
      var n := |signals| - 1;
      LatestWasSignalled(signals[..n], ring);
      SignalledStays(signals[..n], signals[n], ring, Latest(signals, ring).GetOr(0));
    }
  }

  lemma SignalledStays(signals: seq<FenceInfo>, next: FenceInfo, ring: Ring, fenceId: nat)
    ensures Signalled(signals + [next], ring, fenceId)
       <==> Signalled(signals, ring, fenceId) || (RingOf(next) == ring && next.fenceId >= fenceId)
  {
    var more := signals + [next];
    if Signalled(signals, ring, fenceId) {
      var j :| 0 <= j < |signals| && RingOf(signals[j]) == ring && signals[j].fenceId >= fenceId;
      assert more[j] == signals[j];
    }
    if RingOf(next) == ring && next.fenceId >= fenceId {
      assert more[|signals|] == next;
    }
  }

  // ---- no early reply ----

  /** The completion table holds the last id signalled on each ring. */
  ghost predicate Recorded(s: System) {
    forall ring :: Latest(s.signals, ring) == if ring in s.completed then Some(s.completed[ring]) else None
  }

  /** A parked descriptor copies the head, ring and fence of its chain. */
  predicate StandsForJob(d: FenceDescriptor) {
    var chain := d.job.chain;
    && chain.hasResponseRoom && Fenced(chain) && d.descIndex == chain.head
    && d.ring == RingOf(chain.header.value) && d.fenceId == chain.header.value.fenceId
  }

  /** A fenced chain with room for its response may be answered once its fence is done. */
  ghost predicate MayAnswer(signals: seq<FenceInfo>, chain: Chain) {
    chain.hasResponseRoom && Fenced(chain) ==>
      FenceDone(signals, RingOf(chain.header.value), chain.header.value.fenceId)
  }

  ghost predicate NoEarlyReply(s: System) {
    && (forall d :: d in s.descs ==> StandsForJob(d) && d.fenceId > Completed(s.completed, d.ring))
    && (forall r :: r in s.replies ==> r.head == r.job.chain.head && MayAnswer(s.signals, r.job.chain))
    && (s.worker.Returning? ==> MayAnswer(s.signals, s.worker.job.chain))
    && (s.worker.FenceCreated? || s.worker.Encoded? || s.worker.Returning? ==> s.worker.job.chain.hasResponseRoom)
  }

  /** What is returned for a chain is its head and the length of the response prepared for it; a
      chain without room for a response is returned with length 0. */
  ghost predicate Faithful(s: System) {
    && (forall d :: d in s.descs ==> Response(d.job, d.len) in s.responses)
    && (forall r :: r in s.replies ==>
          Response(r.job, r.len) in s.responses || (!r.job.chain.hasResponseRoom && r.len == 0))
    && (s.worker.Encoded? || s.worker.Returning? ==> Response(s.worker.job, s.worker.len) in s.responses)
  }

  ghost predicate Safe(s: System) {
    Recorded(s) && NoEarlyReply(s) && Faithful(s) && Conserved(s)
  }

  lemma RecordedAfterSignal(s: System, fence: FenceInfo)
    requires Recorded(s)
    ensures var ring := RingOf(fence);
            Recorded(s.(signals := s.signals + [fence], completed := s.completed[ring := fence.fenceId]))
  {
    assert (s.signals + [fence])[..|s.signals|] == s.signals;
  }

  lemma MayAnswerStays(signals: seq<FenceInfo>, next: FenceInfo, chain: Chain)
    requires MayAnswer(signals, chain)
    ensures MayAnswer(signals + [next], chain)
  {
    if chain.hasResponseRoom && Fenced(chain) {
      SignalledStays(signals, next, RingOf(chain.header.value), chain.header.value.fenceId);
    }
  }

  lemma {:induction false} DeliveredFrom(released: seq<FenceDescriptor>, locks: seq<bool>, r: Reply)
    requires |locks| == |released| && r in Delivered(released, locks)
    ensures exists d :: d in released && r == Reply(Control, d.descIndex, d.len, d.job)
  {
    var d := released[0];
    if !(locks[0] && r == Reply(Control, d.descIndex, d.len, d.job)) {
      DeliveredFrom(released[1..], locks[1..], r);
      var e :| e in released[1..] && r == Reply(Control, e.descIndex, e.len, e.job);
      assert e in released;
    }
  }

  lemma SignalIsNotEarly(s: System, fence: FenceInfo, locks: seq<bool>)
    requires NoEarlyReply(s) && Enabled(s, Signal(fence, locks))
    ensures NoEarlyReply(HandleSignal(s, fence, locks))
  {
    var ring := RingOf(fence);
    var released := Matched(s.descs, ring, fence.fenceId);
    var s' := HandleSignal(s, fence, locks);
    forall r | r in s'.replies
      ensures r.head == r.job.chain.head && MayAnswer(s'.signals, r.job.chain)
    {
      if r in s.replies {
        MayAnswerStays(s.signals, fence, r.job.chain);
      } else {
        DeliveredFrom(released, locks, r);
        var d :| d in released && r == Reply(Control, d.descIndex, d.len, d.job);
        assert d in s.descs && Matches(d, ring, fence.fenceId);
        SignalledStays(s.signals, fence, ring, d.fenceId);
      }
    }
    if s.worker.Returning? {
      MayAnswerStays(s.signals, fence, s.worker.job.chain);
    }
  }

  lemma DecideIsNotEarly(s: System)
    requires Recorded(s) && NoEarlyReply(s) && s.worker.Encoded?
    ensures NoEarlyReply(DecideFence(s))
  {
    var chain := s.worker.job.chain;
    if Fenced(chain) {
      LatestWasSignalled(s.signals, RingOf(chain.header.value));
      if Signalled(s.signals, RingOf(chain.header.value), Completed(s.completed, RingOf(chain.header.value))) {
        var j :| 0 <= j < |s.signals| && RingOf(s.signals[j]) == RingOf(chain.header.value)
          && s.signals[j].fenceId >= Completed(s.completed, RingOf(chain.header.value));
      }
    }
  }

  // ---- conservation ----

  function ParkedJobs(descs: seq<FenceDescriptor>): multiset<Job> {
    if descs == [] then multiset{} else multiset{descs[0].job} + ParkedJobs(descs[1..])
  }

  function AnsweredJobs(replies: seq<Reply>): multiset<Job> {
    if replies == [] then multiset{} else multiset{replies[0].job} + AnsweredJobs(replies[1..])
  }

  function InFlight(worker: Worker): multiset<Job> {
    if worker.Idle? then multiset{} else multiset{worker.job}
  }

  /** Every popped chain is in exactly one place: with the worker, parked, answered, or dropped by a
      handler that could not lock the queue. */
  ghost predicate Conserved(s: System) {
    multiset(s.popped) ==
      InFlight(s.worker) + ParkedJobs(s.descs) + AnsweredJobs(s.replies) + multiset(s.dropped)
  }

  lemma {:induction false} ParkedOneMore(descs: seq<FenceDescriptor>, d: FenceDescriptor)
    ensures ParkedJobs(descs + [d]) == ParkedJobs(descs) + multiset{d.job}
  {
    if descs != [] {
      assert (descs + [d])[1..] == descs[1..] + [d];
      ParkedOneMore(descs[1..], d);
    }
  }

  lemma {:induction false} AnsweredTogether(a: seq<Reply>, b: seq<Reply>)
    ensures AnsweredJobs(a + b) == AnsweredJobs(a) + AnsweredJobs(b)
  {
    if a == [] {
      assert a + b == b;
    } else {
      assert (a + b)[1..] == a[1..] + b;
      AnsweredTogether(a[1..], b);
    }
  }

  lemma ParkedFirst(d: FenceDescriptor, rest: seq<FenceDescriptor>)
    ensures ParkedJobs([d] + rest) == multiset{d.job} + ParkedJobs(rest)
  {
    assert ([d] + rest)[1..] == rest;
  }

  lemma SplitFirst(d: FenceDescriptor, rest: seq<FenceDescriptor>, ring: Ring, fenceId: nat)
    ensures ParkedJobs(Kept([d] + rest, ring, fenceId))
         == (if Matches(d, ring, fenceId) then multiset{} else multiset{d.job}) + ParkedJobs(Kept(rest, ring, fenceId))
    ensures ParkedJobs(Matched([d] + rest, ring, fenceId))
         == (if Matches(d, ring, fenceId) then multiset{d.job} else multiset{})
            + ParkedJobs(Matched(rest, ring, fenceId))
  {
    hide ParkedJobs;
    assert ([d] + rest)[1..] == rest;
    var k, m := Kept(rest, ring, fenceId), Matched(rest, ring, fenceId);
    ParkedFirst(d, k);
    ParkedFirst(d, m);
    assert [] + k == k && [] + m == m;
  }

  lemma {:induction false} KeptAndMatched(descs: seq<FenceDescriptor>, ring: Ring, fenceId: nat)
    ensures ParkedJobs(descs) == ParkedJobs(Kept(descs, ring, fenceId)) + ParkedJobs(Matched(descs, ring, fenceId))
  {
    if descs == [] {
    } else {
      hide ParkedJobs, Kept, Matched;
      var d, rest := descs[0], descs[1..];
      assert descs == [d] + rest;
      KeptAndMatched(rest, ring, fenceId);
      SplitFirst(d, rest, ring, fenceId);
      ParkedFirst(d, rest);
    }
  }

  lemma DeliverFirst(d: FenceDescriptor, rest: seq<FenceDescriptor>, lock: bool, locks: seq<bool>)
    requires |rest| == |locks|
    ensures AnsweredJobs(Delivered([d] + rest, [lock] + locks))
         == (if lock then multiset{d.job} else multiset{}) + AnsweredJobs(Delivered(rest, locks))
    ensures multiset(Lost([d] + rest, [lock] + locks))
         == (if lock then multiset{} else multiset{d.job}) + multiset(Lost(rest, locks))
  {
    assert ([d] + rest)[1..] == rest && ([lock] + locks)[1..] == locks;
    var r := Reply(Control, d.descIndex, d.len, d.job);
    AnsweredOne(r);
    AnsweredTogether(if lock then [r] else [], Delivered(rest, locks));
  }

  lemma {:induction false} DeliveredOrLost(released: seq<FenceDescriptor>, locks: seq<bool>)
    requires |locks| == |released|
    ensures ParkedJobs(released) == AnsweredJobs(Delivered(released, locks)) + multiset(Lost(released, locks))
  {
    if released == [] {
    } else {
      hide ParkedJobs, AnsweredJobs, Delivered, Lost;
      var d, rest := released[0], released[1..];
      assert released == [d] + rest && locks == [locks[0]] + locks[1..];
      DeliveredOrLost(rest, locks[1..]);
      ParkedFirst(d, rest);
      DeliverFirst(d, rest, locks[0], locks[1..]);
    }
  }

  lemma AnsweredOne(r: Reply)
    ensures AnsweredJobs([r]) == multiset{r.job}
  {
    assert [r][1..] == [];
  }

  lemma {:induction false} NothingLostIffLocked(released: seq<FenceDescriptor>, locks: seq<bool>)
    requires |locks| == |released|
    ensures Lost(released, locks) == [] <==> forall j :: 0 <= j < |locks| ==> locks[j]
  {
    if released != [] {
      NothingLostIffLocked(released[1..], locks[1..]);
      assert locks == [locks[0]] + locks[1..];
    }
  }

  lemma SignalConserves(s: System, fence: FenceInfo, locks: seq<bool>)
    requires Conserved(s) && Enabled(s, Signal(fence, locks))
    ensures Conserved(HandleSignal(s, fence, locks))
  {
    hide ParkedJobs, AnsweredJobs, Matched, Kept, Delivered, Lost;
    var released := Matched(s.descs, RingOf(fence), fence.fenceId);
    KeptAndMatched(s.descs, RingOf(fence), fence.fenceId);
    DeliveredOrLost(released, locks);
    AnsweredTogether(s.replies, Delivered(released, locks));
  }

  lemma ReplyConserves(s: System, len: nat)
    requires Conserved(s) && !s.worker.Idle?
    ensures Conserved(AddReply(s, s.worker.job, len))
  {
    hide ParkedJobs, AnsweredJobs;
    var r := Reply(s.worker.job.queue, s.worker.job.chain.head, len, s.worker.job);
    AnsweredTogether(s.replies, [r]);
    AnsweredOne(r);
  }

  lemma DecideConserves(s: System)
    requires Conserved(s) && s.worker.Encoded?
    ensures Conserved(DecideFence(s))
  {
    hide ParkedJobs, AnsweredJobs;
    var job := s.worker.job;
    if Fenced(job.chain) {
      var f := job.chain.header.value;
      ParkedOneMore(s.descs, FenceDescriptor(RingOf(f), f.fenceId, job.chain.head, s.worker.len, job));
    }
  }

  // ---- every reachable state ----

  lemma StepConserves(s: System, step: Step)
    requires Conserved(s) && Enabled(s, step)
    ensures Conserved(Apply(s, step))
  {
    hide ParkedJobs, AnsweredJobs, Matched, Kept, Delivered, Lost, RingOf, DecideFence, HandleSignal;
    match step
    case Signal(fence, locks) => SignalConserves(s, fence, locks);
    case Decide => DecideConserves(s);
    case ReturnWithoutRoom => ReplyConserves(s, 0);
    case AddUsed => ReplyConserves(s, s.worker.len);
    case _ =>
  }

  lemma StepIsNotEarly(s: System, step: Step)
    requires Recorded(s) && NoEarlyReply(s) && Enabled(s, step)
    ensures Recorded(Apply(s, step)) && NoEarlyReply(Apply(s, step))
  {
    match step
    case Signal(fence, locks) =>
      RecordedAfterSignal(s, fence);
      SignalIsNotEarly(s, fence, locks);
    case Decide => DecideIsNotEarly(s);
    case _ =>
  }

  lemma StepIsFaithful(s: System, step: Step)
    requires Faithful(s) && Enabled(s, step)
    ensures Faithful(Apply(s, step))
  {
    if step.Signal? {
      var s' := Apply(s, step);
      var released := Matched(s.descs, RingOf(step.fence), step.fence.fenceId);
      forall r | r in s'.replies && r !in s.replies ensures Response(r.job, r.len) in s'.responses {
        DeliveredFrom(released, step.locks, r);
        var d :| d in released && r == Reply(Control, d.descIndex, d.len, d.job);
        assert d in s.descs;
      }
    }
  }

  lemma StepIsSafe(s: System, step: Step)
    requires Safe(s) && Enabled(s, step)
    ensures Safe(Apply(s, step))
  {
    hide Apply, Recorded, NoEarlyReply, Faithful, Conserved;
    StepIsFaithful(s, step);
    StepConserves(s, step);
    StepIsNotEarly(s, step);
  }

  /** In every state of every interleaving no reply is early and no chain is duplicated or lost
      track of, whatever ids the renderer signals and whether or not queues can be locked. */
  lemma {:induction false} EveryRunIsSafe(s: System, run: seq<Step>)
    requires Safe(s) && ValidRun(s, run)
    ensures Safe(After(s, run))
    decreases run
  {
    if run != [] {
      StepIsSafe(s, run[0]);
      EveryRunIsSafe(Apply(s, run[0]), run[1..]);
    }
  }

  lemma ReachableIsSafe(s: System)
    requires Reachable(s)
    ensures Safe(s)
  {
    var run :| ValidRun(INITIAL, run) && After(INITIAL, run) == s;
    EveryRunIsSafe(INITIAL, run);
  }

  /** A chain popped once is in exactly one place. */
  lemma ExactlyOnePlace(s: System, job: Job)
    requires Reachable(s) && multiset(s.popped)[job] == 1
    ensures InFlight(s.worker)[job] + ParkedJobs(s.descs)[job] + AnsweredJobs(s.replies)[job]
          + multiset(s.dropped)[job] == 1
  {
    ReachableIsSafe(s);
  }

  /** The handler drops nothing exactly when it can lock the queue for every released chain. */
  lemma NothingDroppedIffLocked(s: System, fence: FenceInfo, locks: seq<bool>)
    requires Enabled(s, Signal(fence, locks))
    ensures HandleSignal(s, fence, locks).dropped == s.dropped <==> forall j :: 0 <= j < |locks| ==> locks[j]
  {
    NothingLostIffLocked(Matched(s.descs, RingOf(fence), fence.fenceId), locks);
  }

  // ---- no lost reply ----

  /** On this ring `process_fence` parks exactly the chains whose fence is still open. */
  ghost predicate DecidesRightly(s: System, ring: Ring) {
    forall fenceId: nat :: fenceId > Completed(s.completed, ring) <==> !FenceDone(s.signals, ring, fenceId)
  }

  /** A signal keeps the decision right exactly when it does not go back behind the recorded id. */
  lemma SignalKeepsDecision(s: System, fence: FenceInfo, locks: seq<bool>, ring: Ring)
    requires Recorded(s) && DecidesRightly(s, ring) && Enabled(s, Signal(fence, locks))
    ensures DecidesRightly(HandleSignal(s, fence, locks), ring)
       <==> (ring == RingOf(fence) ==> fence.fenceId >= Completed(s.completed, ring))
  {
    var s' := HandleSignal(s, fence, locks);
    if ring == RingOf(fence) && fence.fenceId < Completed(s.completed, ring) {
      var skipped := Completed(s.completed, ring);
      assert FenceDone(s.signals, ring, skipped);
      SignalledStays(s.signals, fence, ring, skipped);
      assert skipped > Completed(s'.completed, ring) && FenceDone(s'.signals, ring, skipped);
    } else {
      forall fenceId: nat
        ensures fenceId > Completed(s'.completed, ring) <==> !FenceDone(s'.signals, ring, fenceId)
      {
        assert fenceId > Completed(s.completed, ring) <==> !FenceDone(s.signals, ring, fenceId);
        SignalledStays(s.signals, fence, ring, fenceId);
      }
    }
  }

  /** With ids signalled in order on each ring, the recorded id is the greatest one. */
  lemma {:induction false} OrderedDecidesRightly(s: System, ring: Ring)
    requires Recorded(s) && InOrder(s.signals)
    ensures DecidesRightly(s, ring)
  {
    forall fenceId: nat
      ensures fenceId > Completed(s.completed, ring) <==> !FenceDone(s.signals, ring, fenceId)
    {
      LatestIsGreatest(s.signals, ring, fenceId);
    }
  }

  lemma {:induction false} LatestIsGreatest(signals: seq<FenceInfo>, ring: Ring, fenceId: nat)
    requires InOrder(signals)
    ensures Signalled(signals, ring, fenceId) <==>
              Latest(signals, ring).Some? && fenceId <= Latest(signals, ring).value
  {
    hide RingOf;
    if signals != [] {
      var n := |signals| - 1;
      var last := signals[n];
      assert signals == signals[..n] + [last];
      SignalledStays(signals[..n], last, ring, fenceId);
      if RingOf(last) == ring {
        if Signalled(signals[..n], ring, fenceId) {
          LastIsGreatest(signals, ring, fenceId);
        }
      } else {
        InOrderBefore(signals);
        LatestIsGreatest(signals[..n], ring, fenceId);
      }
    }
  }

  lemma LastIsGreatest(signals: seq<FenceInfo>, ring: Ring, fenceId: nat)
    requires InOrder(signals) && signals != []
    requires RingOf(signals[|signals| - 1]) == ring && Signalled(signals[..|signals| - 1], ring, fenceId)
    ensures fenceId <= signals[|signals| - 1].fenceId
  {
    hide RingOf;
    var n := |signals| - 1;
    var j :| 0 <= j < n && RingOf(signals[..n][j]) == ring && signals[..n][j].fenceId >= fenceId;
    assert signals[..n][j] == signals[j];
  }

  lemma InOrderBefore(signals: seq<FenceInfo>)
    requires InOrder(signals) && signals != []
    ensures InOrder(signals[..|signals| - 1])
  {
    hide RingOf;
    var before := signals[..|signals| - 1];
    assert forall i :: 0 <= i < |before| ==> before[i] == signals[i];
  }

  ghost predicate AllDecideRightly(s: System) {
    forall ring :: DecidesRightly(s, ring)
  }

  /** In every state of a run, the first one included, `process_fence` would decide rightly. */
  ghost predicate AlwaysDecidesRightly(s: System, run: seq<Step>)
    requires ValidRun(s, run)
    decreases run
  {
    AllDecideRightly(s) && (run != [] ==> AlwaysDecidesRightly(Apply(s, run[0]), run[1..]))
  }

  /** `process_fence` decides rightly throughout a run exactly if its signals are in order. */
  lemma {:induction false} DecidesRightlyIffOrdered(s: System, run: seq<Step>)
    requires Recorded(s) && AllDecideRightly(s) && InOrder(s.signals) && ValidRun(s, run)
    ensures AlwaysDecidesRightly(s, run) <==> InOrder(After(s, run).signals)
    decreases run
  {
    hide AllDecideRightly, InOrder, Recorded, RingOf;
    if run != [] {
      var s' := Apply(s, run[0]);
      OneStepInOrder(s, run[0]);
      if InOrder(s'.signals) {
        DecidesRightlyIffOrdered(s', run[1..]);
      } else {
        SignalsGrow(s', run[1..]);
        if InOrder(After(s, run).signals) {
          PrefixInOrder(s'.signals, After(s, run).signals);
        }
      }
    }
  }

  lemma OneStepInOrder(s: System, step: Step)
    requires Recorded(s) && AllDecideRightly(s) && InOrder(s.signals) && Enabled(s, step)
    ensures Recorded(Apply(s, step))
    ensures AllDecideRightly(Apply(s, step)) <==> InOrder(Apply(s, step).signals)
  {
    var s' := Apply(s, step);
    if step.Signal? {
      RecordedAfterSignal(s, step.fence);
      var ring := RingOf(step.fence);
      SignalKeepsDecision(s, step.fence, step.locks, ring);
      assert DecidesRightly(s, ring);
      if InOrder(s'.signals) {
        forall r ensures DecidesRightly(s', r) {
          OrderedDecidesRightly(s', r);
        }
      } else if step.fence.fenceId >= Completed(s.completed, ring) {
        ExtendsInOrder(s, step.fence);
      }
    } else {
      assert forall r :: DecidesRightly(s', r) == DecidesRightly(s, r);
    }
  }

  lemma ExtendsInOrder(s: System, fence: FenceInfo)
    requires InOrder(s.signals) && DecidesRightly(s, RingOf(fence))
    requires fence.fenceId >= Completed(s.completed, RingOf(fence))
    ensures InOrder(s.signals + [fence])
  {
    hide RingOf;
    var signals := s.signals + [fence];
    forall i | 0 <= i < |s.signals| && RingOf(signals[i]) == RingOf(fence)
      ensures signals[i].fenceId <= fence.fenceId
    {
      assert Signalled(s.signals, RingOf(fence), signals[i].fenceId);
      assert FenceDone(s.signals, RingOf(fence), signals[i].fenceId);
    }
  }

  lemma {:induction false} SignalsGrow(s: System, run: seq<Step>)
    requires ValidRun(s, run)
    ensures s.signals <= After(s, run).signals && s.replies <= After(s, run).replies
    decreases run
  {
    if run != [] {
      SignalsGrow(Apply(s, run[0]), run[1..]);
    }
  }

  lemma PrefixInOrder(signals: seq<FenceInfo>, longer: seq<FenceInfo>)
    requires signals <= longer && InOrder(longer)
    ensures InOrder(signals)
  {
    hide RingOf;
    assert forall i :: 0 <= i < |signals| ==> longer[i] == signals[i];
  }

  /** From the start: every state of a run parks exactly the chains whose fence is open, on every ring,
      exactly if the renderer signals in order. */
  lemma EveryRunDecidesRightlyIff(run: seq<Step>)
    requires ValidRun(INITIAL, run)
    ensures AlwaysDecidesRightly(INITIAL, run) <==> InOrder(After(INITIAL, run).signals)
  {
    DecidesRightlyIffOrdered(INITIAL, run);
  }

  /** No lost fence: in a state reached with ordered signals, no chain is parked on a done fence. */
  lemma NoLostFence(s: System, d: FenceDescriptor)
    requires Reachable(s) && InOrder(s.signals) && d in s.descs
    ensures !FenceDone(s.signals, d.ring, d.fenceId)
  {
    ReachableIsSafe(s);
    OrderedDecidesRightly(s, d.ring);
  }

  /** Every chain is answered exactly once: when the worker rests, the renderer has signalled in
      order and completed every fence it was given, and no lock attempt failed. */
  lemma EveryChainIsAnswered(s: System)
    requires Reachable(s) && InOrder(s.signals) && s.worker.Idle? && s.dropped == []
    requires forall job :: job in s.popped ==> MayAnswer(s.signals, job.chain)
    ensures s.descs == [] && multiset(s.popped) == AnsweredJobs(s.replies)
  {
    ReachableIsSafe(s);
    if s.descs != [] {
      var d := s.descs[0];
      assert d.job in ParkedJobs(s.descs);
      assert d.job in multiset(s.popped);
      NoLostFence(s, d);
      assert false;
    }
  }

  lemma {:induction false} RunAppend(s: System, run: seq<Step>, step: Step)
    requires ValidRun(s, run) && Enabled(After(s, run), step)
    ensures ValidRun(s, run + [step]) && After(s, run + [step]) == Apply(After(s, run), step)
    decreases run
  {
    if run == [] {
      assert ([] + [step])[1..] == [];
    } else {
      assert (run + [step])[1..] == run[1..] + [step];
      RunAppend(Apply(s, run[0]), run[1..], step);
    }
  }

  lemma {:induction false} RunJoin(s: System, a: seq<Step>, b: seq<Step>)
    requires ValidRun(s, a) && ValidRun(After(s, a), b)
    ensures ValidRun(s, a + b) && After(s, a + b) == After(After(s, a), b)
    decreases a
  {
    if a == [] {
      assert a + b == b;
    } else {
      hide Apply, Enabled;
      assert (a + b)[1..] == a[1..] + b;
      RunJoin(Apply(s, a[0]), a[1..], b);
    }
  }

  lemma ReachableStep(s: System, step: Step)
    requires Reachable(s) && Enabled(s, step)
    ensures Reachable(Apply(s, step))
  {
    var run :| ValidRun(INITIAL, run) && After(INITIAL, run) == s;
    RunAppend(INITIAL, run, step);
  }

  /** A worker that has just popped a fenced chain brings it to the fence decision. */
  lemma ServeToDecision(s: System, job: Job, len: nat) returns (s': System)
    requires Reachable(s) && s.worker.Idle? && job.chain.hasResponseRoom && Fenced(job.chain)
    ensures Reachable(s')
    ensures s' == DecideFence(s.(worker := Encoded(job, len), popped := s.popped + [job],
                                 responses := s.responses + {Response(job, len)}))
  {
    ReachableStep(s, Pop(job));
    var s1 := Apply(s, Pop(job));
    ReachableStep(s1, CreateFence(true));
    var s2 := Apply(s1, CreateFence(true));
    ReachableStep(s2, Encode(len));
    var s3 := Apply(s2, Encode(len));
    ReachableStep(s3, Decide);
    s' := Apply(s3, Decide);
  }

  lemma InitialIsReachable()
    ensures Reachable(INITIAL)
  {
    assert ValidRun(INITIAL, []) && After(INITIAL, []) == INITIAL;
  }

  /** In a reachable state a signal leaves a chain parked exactly if it names another ring, by the flags,
      context and ring of both, or an id below that of the chain. */
  lemma SignalReachesItsRing(s: System, fence: FenceInfo, locks: seq<bool>, d: FenceDescriptor)
    requires Reachable(s) && Enabled(s, Signal(fence, locks)) && d in s.descs
    ensures d.job.chain.header.Some?
    ensures var f := d.job.chain.header.value;
            var sameRing :=
              if f.flags / 2 % 2 == 1 then
                fence.flags / 2 % 2 == 1 && fence.ctxId == f.ctxId && fence.ringIdx == f.ringIdx
              else fence.flags / 2 % 2 == 0;
            d in HandleSignal(s, fence, locks).descs <==> !(sameRing && f.fenceId <= fence.fenceId)
  {
    hide RingOf, Safe;
    ReachableIsParked(s, d);
    SameRingIff(d.job.chain.header.value, fence);
  }

  lemma ReachableIsParked(s: System, d: FenceDescriptor)
    requires Reachable(s) && d in s.descs
    ensures StandsForJob(d)
  {
    ReachableIsSafe(s);
  }

  /** A signal on ring 1 of a context leaves a chain that waits on ring 2 of that context parked. */
  lemma OtherRingStaysParked() returns (s: System, d: FenceDescriptor)
    ensures Reachable(s) && s.signals == [FenceInfo(3, 7, 1, 1)]
    ensures s.descs == [d] && s.replies == [] && d.job.chain.header == Some(FenceInfo(3, 5, 1, 2))
  {
    var waiting, signalled := FenceInfo(3, 5, 1, 2), FenceInfo(3, 7, 1, 1);
    SameRingIff(waiting, signalled);
    InitialIsReachable();
    var s1 := ServeToDecision(INITIAL, Job(Control, Chain(0, true, Some(waiting))), 24);
    d := s1.descs[0];
    assert s1.descs == [d];
    SplitOfOne(d, RingOf(signalled), 7);
    ReachableStep(s1, Signal(signalled, []));
    s := Apply(s1, Signal(signalled, []));
  }

  /** Signals out of order on one ring lose a chain: 5 then 3 are signalled, and a chain with
      fence 4 is parked although its fence is done. */
  lemma OutOfOrderLosesAChain() returns (s: System, d: FenceDescriptor)
    ensures Reachable(s) && d in s.descs && FenceDone(s.signals, d.ring, d.fenceId)
  {
    var five, three, four := FenceInfo(1, 5, 0, 0), FenceInfo(1, 3, 0, 0), FenceInfo(1, 4, 0, 0);
    InitialIsReachable();
    ReachableStep(INITIAL, Signal(five, []));
    var s1 := Apply(INITIAL, Signal(five, []));
    ReachableStep(s1, Signal(three, []));
    var s2 := Apply(s1, Signal(three, []));
    s := ServeToDecision(s2, Job(Control, Chain(0, true, Some(four))), 24);
    d := s.descs[0];
    assert s.signals[0] == five;
  }

  // ---- the right queue ----

  /** Every used entry is made on the queue its chain was popped from. */
  predicate ReturnedHome(s: System) {
    forall r :: r in s.replies ==> r.queue == r.job.queue
  }

  /** The handler knows only the control queue: its used entries are at home exactly when every
      descriptor it gives back was popped there. */
  lemma HandlerReturnsHomeIff(s: System, fence: FenceInfo, locks: seq<bool>)
    requires ReturnedHome(s) && Enabled(s, Signal(fence, locks))
    ensures ReturnedHome(HandleSignal(s, fence, locks)) <==>
              var released := Matched(s.descs, RingOf(fence), fence.fenceId);
              forall j :: 0 <= j < |released| && locks[j] ==> released[j].job.queue == Control
  {
    var released := Matched(s.descs, RingOf(fence), fence.fenceId);
    DeliveredHome(released, locks);
  }

  lemma {:induction false} DeliveredHome(released: seq<FenceDescriptor>, locks: seq<bool>)
    requires |locks| == |released|
    ensures (forall r :: r in Delivered(released, locks) ==> r.queue == r.job.queue)
       <==> forall j :: 0 <= j < |released| && locks[j] ==> released[j].job.queue == Control
  {
    if released != [] {
      var d := released[0];
      var first := if locks[0] then [Reply(Control, d.descIndex, d.len, d.job)] else [];
      DeliveredHome(released[1..], locks[1..]);
      assert Delivered(released, locks) == first + Delivered(released[1..], locks[1..]);
      assert locks[0] ==> first[0] in Delivered(released, locks);
      assert forall j :: 1 <= j < |released| ==> released[j] == released[1..][j - 1] && locks[j] == locks[1..][j - 1];
    }
  }

  ghost predicate CursorUnfenced(s: System) {
    forall job :: job in s.popped && job.queue == Cursor ==> !(job.chain.hasResponseRoom && Fenced(job.chain))
  }

  ghost predicate HomeInvariant(s: System) {
    && (!s.worker.Idle? ==> s.worker.job in s.popped)
    && NoEarlyReply(s)
    && (CursorUnfenced(s) ==> ReturnedHome(s) && forall d :: d in s.descs ==> d.job.queue == Control)
  }

  lemma StepKeepsHome(s: System, step: Step)
    requires HomeInvariant(s) && Recorded(s) && Enabled(s, step)
    ensures HomeInvariant(Apply(s, step))
  {
    StepIsNotEarly(s, step);
    var s' := Apply(s, step);
    assert forall job :: job in s.popped ==> job in s'.popped;
    if step.Signal? && CursorUnfenced(s) {
      HandlerReturnsHomeIff(s, step.fence, step.locks);
      var released := Matched(s.descs, RingOf(step.fence), step.fence.fenceId);
      assert forall j :: 0 <= j < |released| ==> released[j] in released;
    }
  }

  lemma {:induction false} RunsKeepHome(s: System, run: seq<Step>)
    requires HomeInvariant(s) && Recorded(s) && ValidRun(s, run)
    ensures HomeInvariant(After(s, run))
    decreases run
  {
    if run != [] {
      StepKeepsHome(s, run[0]);
      StepIsNotEarly(s, run[0]);
      RunsKeepHome(Apply(s, run[0]), run[1..]);
    }
  }

  /** As long as no command popped from the cursor queue carries a fence, every used entry is made
      on the queue its chain came from. */
  lemma EveryReplyReturnsHome(s: System)
    requires Reachable(s) && CursorUnfenced(s)
    ensures ReturnedHome(s)
  {
    var run :| ValidRun(INITIAL, run) && After(INITIAL, run) == s;
    RunsKeepHome(INITIAL, run);
  }

  /** The handler gives a chain back that was not popped from the control queue. */
  predicate GivesAstray(s: System, step: Step)
    requires Enabled(s, step)
  {
    step.Signal? &&
    var released := Matched(s.descs, RingOf(step.fence), step.fence.fenceId);
    exists j :: 0 <= j < |released| && step.locks[j] && released[j].job.queue != Control
  }

  predicate NeverGivesAstray(s: System, run: seq<Step>)
    requires ValidRun(s, run)
    decreases run
  {
    run != [] ==> !GivesAstray(s, run[0]) && NeverGivesAstray(Apply(s, run[0]), run[1..])
  }

  /** Over any run, every used entry is on the queue its chain came from exactly if the handler never
      gave back a parked chain of the cursor queue. */
  lemma {:induction false} RunReturnsHomeIff(s: System, run: seq<Step>)
    requires ReturnedHome(s) && ValidRun(s, run)
    ensures ReturnedHome(After(s, run)) <==> NeverGivesAstray(s, run)
    decreases run
  {
    hide GivesAstray, RingOf, ReturnedHome;
    if run != [] {
      StepReturnsHomeIff(s, run[0]);
      if !GivesAstray(s, run[0]) {
        RunReturnsHomeIff(Apply(s, run[0]), run[1..]);
      } else {
        SignalsGrow(Apply(s, run[0]), run[1..]);
        if ReturnedHome(After(s, run)) {
          AstrayStays(Apply(s, run[0]), After(s, run));
        }
      }
    }
  }

  lemma StepReturnsHomeIff(s: System, step: Step)
    requires ReturnedHome(s) && Enabled(s, step)
    ensures ReturnedHome(Apply(s, step)) <==> !GivesAstray(s, step)
  {
    if step.Signal? {
      HandlerReturnsHomeIff(s, step.fence, step.locks);
    }
  }

  lemma AstrayStays(s: System, later: System)
    requires s.replies <= later.replies && ReturnedHome(later)
    ensures ReturnedHome(s)
  {
    assert forall r :: r in s.replies ==> r in later.replies;
  }

  /** A chain that the handler cannot give back is dropped for good: it is neither parked nor answered
      any more. */
  lemma LockFailureDropsAChain() returns (s: System, job: Job)
    ensures Reachable(s) && s.worker.Idle? && s.popped == s.dropped == [job]
    ensures s.descs == [] && s.replies == [] && MayAnswer(s.signals, job.chain)
  {
    var fence := FenceInfo(1, 1, 0, 0);
    job := Job(Control, Chain(7, true, Some(fence)));
    InitialIsReachable();
    var s1 := ServeToDecision(INITIAL, job, 24);
    var d := s1.descs[0];
    assert s1.descs == [d] && [d][1..] == [];
    assert Matched([d], RingOf(fence), 1) == [d] + Matched([], RingOf(fence), 1) == [d];
    assert Kept([d], RingOf(fence), 1) == [] + Kept([], RingOf(fence), 1) == [];
    assert [false][1..] == [];
    assert Delivered([d], [false]) == [] + Delivered([], []) == [];
    assert Lost([d], [false]) == [job] + Lost([], []) == [job];
    ReachableStep(s1, Signal(fence, [false]));
    s := Apply(s1, Signal(fence, [false]));
    assert s.signals[0] == fence;
  }

  /** A fenced command on the cursor queue is answered on the control queue. */
  lemma CursorFenceGoesAstray() returns (s: System, r: Reply)
    ensures Reachable(s) && r in s.replies && r.queue == Control && r.job.queue == Cursor
  {
    var fence := FenceInfo(1, 1, 0, 0);
    InitialIsReachable();
    var s1 := ServeToDecision(INITIAL, Job(Cursor, Chain(7, true, Some(fence))), 24);
    var d := s1.descs[0];
    assert s1.descs == [d] && [d][1..] == [];
    ReachableStep(s1, Signal(fence, [true]));
    s := Apply(s1, Signal(fence, [true]));
    r := s.replies[0];
  }
}
