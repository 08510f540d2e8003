/** The fence rule of the GPU device (section 5.7.6.7 of VIRTIO v1.2): a fenced command is answered
    only when the renderer has completed its fence. `FenceState` is the object shared by the worker
    and the renderer's fence handler; a descriptor chain whose fence is still open is parked in it. */
module Fence {
  import opened Bits
  import opened VirtQueue
  import opened Wrappers

  const FLAG_FENCE: nat := 1
  const FLAG_INFO_RING_IDX: nat := 2

  datatype QueueId = Control | Cursor

  datatype Ring = Global | ContextSpecific(ctxId: nat, ringIdx: nat)

  /** The fields shared by a command header and a renderer fence. */
  datatype FenceInfo = FenceInfo(flags: nat, fenceId: nat, ctxId: nat, ringIdx: nat)

  /** What the worker learns from a popped chain; no header if decoding failed. */
  datatype Chain = Chain(head: nat, hasResponseRoom: bool, header: Option<FenceInfo>)

  /** A chain together with the queue it was popped from. */
  datatype Job = Job(queue: QueueId, chain: Chain)

  /** `job` is not stored by the device: it names the chain that the descriptor stands for. */
  datatype FenceDescriptor = FenceDescriptor(ring: Ring, fenceId: nat, descIndex: nat, len: nat, job: Job)

  /** An entry of a used ring, and the chain it answers. */
  datatype Reply = Reply(queue: QueueId, head: nat, len: nat, job: Job)

  function RingOf(f: FenceInfo): Ring {
    if And(f.flags, FLAG_INFO_RING_IDX) == 0 then Global else ContextSpecific(f.ctxId, f.ringIdx)
  }

  predicate Fenced(chain: Chain) {
    chain.header.Some? && And(chain.header.value.flags, FLAG_FENCE) != 0
  }

  /** Two fences share a ring exactly if neither carries ring information (bit 1 of the flags), or both
      do and name the same ring of the same context. */
  lemma SameRingIff(f: FenceInfo, g: FenceInfo)
    ensures RingOf(f) == RingOf(g) <==>
              if f.flags / 2 % 2 == 1 then g.flags / 2 % 2 == 1 && f.ctxId == g.ctxId && f.ringIdx == g.ringIdx
              else g.flags / 2 % 2 == 0
  {
    SecondBit(f.flags);
    SecondBit(g.flags);
  }

  lemma SecondBit(flags: nat)
    ensures And(flags, 2) == 0 <==> flags / 2 % 2 == 0
  {
    TestBit(flags, 1);
    assert BitAt(flags, 1) <==> BitAt(flags / 2, 0);
  }

  /** A chain is fenced exactly if it has a header in whose flags bit 0 is set. */
  lemma FencedIff(chain: Chain)
    ensures Fenced(chain) <==> chain.header.Some? && chain.header.value.flags % 2 == 1
  {
    if chain.header.Some? {
      TestBit(chain.header.value.flags, 0);
    }
  }

  // ---- parking and releasing ----

  function Completed(completed: map<Ring, nat>, ring: Ring): nat {
    if ring in completed then completed[ring] else 0
  }

  predicate Matches(d: FenceDescriptor, ring: Ring, fenceId: nat) {
    d.ring == ring && d.fenceId <= fenceId
  }

  function Matched(descs: seq<FenceDescriptor>, ring: Ring, fenceId: nat): (r: seq<FenceDescriptor>)
    ensures forall d :: d in r <==> d in descs && Matches(d, ring, fenceId)
  {
    if descs == [] then []
    else (if Matches(descs[0], ring, fenceId) then [descs[0]] else []) + Matched(descs[1..], ring, fenceId)
  }

  function Kept(descs: seq<FenceDescriptor>, ring: Ring, fenceId: nat): (r: seq<FenceDescriptor>)
    ensures forall d :: d in r <==> d in descs && !Matches(d, ring, fenceId)
  {
    if descs == [] then []
    else (if Matches(descs[0], ring, fenceId) then [] else [descs[0]]) + Kept(descs[1..], ring, fenceId)
  }

  /** Both keep the order of the descriptors: the split works on any two stretches separately. */
  lemma {:induction false} SplitInOrder(a: seq<FenceDescriptor>, b: seq<FenceDescriptor>, ring: Ring, fenceId: nat)
    ensures Matched(a + b, ring, fenceId) == Matched(a, ring, fenceId) + Matched(b, ring, fenceId)
    ensures Kept(a + b, ring, fenceId) == Kept(a, ring, fenceId) + Kept(b, ring, fenceId)
    decreases a
  {
    hide Matched, Kept;
    if a == [] {
      NothingToSplit(b, ring, fenceId);
    } else {
      var rest := a[1..];
      assert a == [a[0]] + rest;
      SplitInOrder(rest, b, ring, fenceId);
      SplitFromFirst(a[0], rest, ring, fenceId);
      SplitFromFirst(a[0], rest + b, ring, fenceId);
      Regroup([a[0]], rest, b);
      Regroup(Matched([a[0]], ring, fenceId), Matched(rest, ring, fenceId), Matched(b, ring, fenceId));
      Regroup(Kept([a[0]], ring, fenceId), Kept(rest, ring, fenceId), Kept(b, ring, fenceId));
    }
  }

  lemma NothingToSplit(b: seq<FenceDescriptor>, ring: Ring, fenceId: nat)
    ensures Matched([], ring, fenceId) == [] && Kept([], ring, fenceId) == [] && [] + b == b
    ensures [] + Matched(b, ring, fenceId) == Matched(b, ring, fenceId)
    ensures [] + Kept(b, ring, fenceId) == Kept(b, ring, fenceId)
  {
  }

  lemma SplitFromFirst(d: FenceDescriptor, rest: seq<FenceDescriptor>, ring: Ring, fenceId: nat)
    ensures Matched([d] + rest, ring, fenceId) == Matched([d], ring, fenceId) + Matched(rest, ring, fenceId)
    ensures Kept([d] + rest, ring, fenceId) == Kept([d], ring, fenceId) + Kept(rest, ring, fenceId)
  {
    SplitOfOne(d, ring, fenceId);
    assert ([d] + rest)[1..] == rest;
  }

  lemma SplitOfOne(d: FenceDescriptor, ring: Ring, fenceId: nat)
    ensures var matches := d.ring == ring && d.fenceId <= fenceId;
            && Matched([d], ring, fenceId) == (if matches then [d] else [])
            && Kept([d], ring, fenceId) == if matches then [] else [d]
  {
  }

  /** The used entries the handler makes, always on the control queue: one for each released
      descriptor whose queue could be locked. */
  function Delivered(released: seq<FenceDescriptor>, locks: seq<bool>): seq<Reply>
    requires |locks| == |released|
  {
    if released == [] then []
    else
      (if locks[0] then [Reply(Control, released[0].descIndex, released[0].len, released[0].job)] else [])
      + Delivered(released[1..], locks[1..])
  }

  function Lost(released: seq<FenceDescriptor>, locks: seq<bool>): seq<Job>
    requires |locks| == |released|
  {
    if released == [] then []
    else (if locks[0] then [] else [released[0].job]) + Lost(released[1..], locks[1..])
  }

  /** The used-ring entries of a stretch of replies. */
  function UsedOf(replies: seq<Reply>): (used: seq<Used>)
    ensures |used| == |replies|
  {
    seq(|replies|, i requires 0 <= i < |replies| => Used(replies[i].head, replies[i].len))
  }

  lemma UsedOfJoin(a: seq<Reply>, b: seq<Reply>)
    ensures UsedOf(a + b) == UsedOf(a) + UsedOf(b)
  {
  }

  class FenceState {
    var descs: seq<FenceDescriptor>
    var completedFences: map<Ring, nat>

    constructor ()
      ensures descs == [] && completedFences == map[]
    {
      descs, completedFences := [], map[];
    }

    /** True if the worker is to add the chain to the used ring now, false if it was parked. */
    method ProcessFence(ring: Ring, fenceId: nat, descIndex: nat, len: nat, job: Job) returns (addToQueue: bool)
      modifies this`descs
      ensures addToQueue <==> fenceId <= Completed(completedFences, ring)
      ensures descs == if addToQueue then old(descs)
                       else old(descs) + [FenceDescriptor(ring, fenceId, descIndex, len, job)]
    {
      var completed := if ring in completedFences then completedFences[ring] else 0;
      if fenceId > completed {
        descs := descs + [FenceDescriptor(ring, fenceId, descIndex, len, job)];
        return false;
      } else {
        return true;
      }
    }

    /** The renderer's fence handler. `locks` says for each released descriptor, in order, whether
        the queue could be locked. */
    method HandleFence(queue: Queue<Chain>, fence: FenceInfo, locks: seq<bool>)
      requires |locks| == |Matched(descs, RingOf(fence), fence.fenceId)|
      modifies this, queue`used, queue`unsignalled, queue`signals
      ensures descs == Kept(old(descs), RingOf(fence), fence.fenceId)
      ensures var delivered := Delivered(Matched(old(descs), RingOf(fence), fence.fenceId), locks);
              && queue.used == old(queue.used) + UsedOf(delivered)
              && queue.signals == old(queue.signals) + |delivered|
              && queue.unsignalled == if delivered == [] then old(queue.unsignalled) else 0
      ensures completedFences == old(completedFences)[RingOf(fence) := fence.fenceId]
    {
      var ring := RingOf(fence);
      hide Matched, Kept, Delivered, RingOf, UsedOf;
      ghost var total := Delivered(Matched(descs, ring, fence.fenceId), locks);
      NothingPending(ring, fence.fenceId);
      var i, attempt := 0, 0;
      ghost var kept, pending, delivered, ahead := [], descs, [], locks;
      ghost var usedFirst, entries := queue.used, [];
      while i < |descs|
        invariant i == |kept| && attempt <= |locks| && ahead == locks[attempt..]
        invariant descs == kept + pending
        invariant |ahead| == |Matched(pending, ring, fence.fenceId)|
        invariant Kept(old(descs), ring, fence.fenceId) == kept + Kept(pending, ring, fence.fenceId)
        invariant delivered + Delivered(Matched(pending, ring, fence.fenceId), ahead) == total
        invariant entries == UsedOf(delivered) && queue.used == usedFirst + entries
        invariant queue.signals == old(queue.signals) + |delivered|
        invariant queue.unsignalled == if delivered == [] then old(queue.unsignalled) else 0
        invariant completedFences == old(completedFences)
        decreases |descs| - i
      {
        assert descs[i] == pending[0];
        StepOver(pending, ring, fence.fenceId, ahead);
        var d := descs[i];
        pending := pending[1..];
        if d.ring == ring && d.fenceId <= fence.fenceId {
          descs := descs[..i] + descs[i + 1..];
          var locked := locks[attempt];
          attempt, ahead := attempt + 1, ahead[1..];
          if locked {
            ghost var r := Reply(Control, d.descIndex, d.len, d.job);
            OneMoreReply(delivered, r);
            delivered, entries := delivered + [r], entries + [Used(r.head, r.len)];
          }
          ReturnDescriptor(queue, d, locked);
        } else {
          kept := kept + [d];
          i := i + 1;
        }
      }
      NothingPending(ring, fence.fenceId);
      assert pending == [] && ahead == [] && kept + [] == kept && delivered + [] == delivered;
      completedFences := completedFences[ring := fence.fenceId];
    }

    /** Without the lock the descriptor is dropped. */
    method ReturnDescriptor(queue: Queue<Chain>, d: FenceDescriptor, locked: bool)
      modifies queue`used, queue`unsignalled, queue`signals
      ensures queue.used == old(queue.used) + if locked then [Used(d.descIndex, d.len)] else []
      ensures queue.signals == old(queue.signals) + if locked then 1 else 0
      ensures queue.unsignalled == if locked then 0 else old(queue.unsignalled)
    {
      if !locked {
        return;
      }
      queue.AddUsed(d.descIndex, d.len);
      queue.SignalUsedQueue();
    }
  }

  lemma OneMoreReply(replies: seq<Reply>, r: Reply)
    ensures UsedOf(replies + [r]) == UsedOf(replies) + [Used(r.head, r.len)]
  {
  }

  lemma NothingPending(ring: Ring, fenceId: nat)
    ensures Matched([], ring, fenceId) == [] && Kept([], ring, fenceId) == []
    ensures Delivered([], []) == [] && UsedOf([]) == []
  {
  }

  /** One turn of the handler's loop, on the descriptors it has not yet looked at. */
  lemma StepOver(pending: seq<FenceDescriptor>, ring: Ring, fenceId: nat, locks: seq<bool>)
    requires pending != [] && |locks| == |Matched(pending, ring, fenceId)|
    ensures var d, rest := pending[0], Matched(pending[1..], ring, fenceId);
            if Matches(d, ring, fenceId) then
              && locks != [] && |locks[1..]| == |rest|
              && Kept(pending, ring, fenceId) == Kept(pending[1..], ring, fenceId)
              && Delivered(Matched(pending, ring, fenceId), locks) ==
                   (if locks[0] then [Reply(Control, d.descIndex, d.len, d.job)] else []) + Delivered(rest, locks[1..])
            else
              && Matched(pending, ring, fenceId) == rest
              && Kept(pending, ring, fenceId) == [d] + Kept(pending[1..], ring, fenceId)
  {
    var d, rest := pending[0], Matched(pending[1..], ring, fenceId);
    if Matches(d, ring, fenceId) {
      assert ([d] + rest)[1..] == rest;
    } else {
      assert [] + rest == rest;
    }
  }
}
