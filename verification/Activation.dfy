/** When the handler activates its device: at the start of a ring, if guest memory has been announced
    as a table by then. Memory and rings are those of their own modules. */
module Activation {
  import MM = MemoryMap
  import SR = SharedRings
  import VK = VringKick
  import opened Wrappers

  datatype Handler = Handler(memory: MM.Memory, memoryUpdated: bool, rings: SR.Rings, activated: bool)

  datatype Message = OnMemory(memory: MM.Message) | OnRing(index: nat, ring: VK.Message)

  /** Whether a message makes the handler start a ring: a new kick for a stopped ring, or a new call
      descriptor for a stopped ring that has a kick. */
  predicate Starts(r: VK.Ring, m: VK.Message) {
    !r.ready && ((m.NewKick? && m.kick.Some?) || (m.NewCall? && r.kick.Some?))
  }

  /** None where the handler panics. The flag is set before the device is activated, and never cleared. */
  function Handle(h: Handler, message: Message): Option<Handler> {
    match message
    case OnMemory(m) =>
      var (memory, ok) := MM.Handle(h.memory, m);
      Some(h.(memory := memory, memoryUpdated := h.memoryUpdated || (ok && m.SetTable?)))
    case OnRing(index, m) =>
      match SR.Handle(h.rings, index, m)
      case None => None
      case Some(rings) =>
        Some(h.(rings := rings, activated := h.activated || (h.memoryUpdated && StartsRing(h.rings, index, m))))
  }

  predicate StartsRing(rings: SR.Rings, index: nat, m: VK.Message) {
    index < |rings.parts| && Starts(SR.View(rings, index), m)
  }

  /** `Starts` says when a message changes a stopped ring into a started one. */
  lemma StartsIff(r: VK.Ring, m: VK.Message)
    requires VK.Registered(r) && VK.Permitted(r, m)
    ensures Starts(r, m) <==> !r.ready && VK.HandleMessage(r, m).Some? && VK.HandleMessage(r, m).value.ready
  {
    hide VK.Registered, VK.SetKick, VK.Start, VK.UpdateEpolls;
    match m
    case NewKick(kick, closing) => VK.SetVringKickPanicsIff(r, kick, closing);
    case NewCall => VK.SetVringCallStarts(r);
    case GetBase(closing) => VK.GetVringBasePanicsIff(r, closing);
    case Reset(survivors) => VK.ResetPanicsIff(r, survivors);
    case _ =>
  }

  function HandleAll(h: Handler, run: seq<Message>): Option<Handler>
    decreases |run|
  {
    if run == [] then Some(h)
    else
      var before := HandleAll(h, run[..|run| - 1]);
      if before.None? then None else Handle(before.value, run[|run| - 1])
  }

  /** Message `i` is an accepted memory table. */
  predicate AcceptsTableAt(h: Handler, run: seq<Message>, i: nat) {
    i < |run| && run[i].OnMemory? && run[i].memory.SetTable? &&
    var before := HandleAll(h, run[..i]);
    before.Some? && MM.Handle(before.value.memory, run[i].memory).1
  }

  /** Message `j` starts a ring. */
  predicate StartsAt(h: Handler, run: seq<Message>, j: nat) {
    j < |run| && run[j].OnRing? &&
    var before := HandleAll(h, run[..j]);
    before.Some? && StartsRing(before.value.rings, run[j].index, run[j].ring)
  }

  ghost predicate TableBefore(h: Handler, run: seq<Message>, j: nat) {
    exists i :: 0 <= i < j && AcceptsTableAt(h, run, i)
  }

  /** A ring was started before message `k`, when a table had already been accepted. */
  ghost predicate StartAfterTable(h: Handler, run: seq<Message>, k: nat) {
    exists j :: 0 <= j < k && StartsAt(h, run, j) && TableBefore(h, run, j)
  }

  lemma PrefixSaysTheSame(h: Handler, run: seq<Message>)
    requires run != []
    ensures var n, before := |run| - 1, run[..|run| - 1];
            && (TableBefore(h, before, n) <==> TableBefore(h, run, n))
            && (StartAfterTable(h, before, n) <==> StartAfterTable(h, run, n))
  {
    var n, before := |run| - 1, run[..|run| - 1];
    forall i | 0 <= i < n
      ensures AcceptsTableAt(h, before, i) <==> AcceptsTableAt(h, run, i)
      ensures StartsAt(h, before, i) <==> StartsAt(h, run, i)
    {
      assert before[..i] == run[..i];
    }
    hide AcceptsTableAt, StartsAt;
    forall j | 0 <= j <= n ensures TableBefore(h, before, j) <==> TableBefore(h, run, j) {}
  }

  lemma OneMoreMessage(h: Handler, run: seq<Message>, n: nat)
    ensures TableBefore(h, run, n + 1) <==> TableBefore(h, run, n) || AcceptsTableAt(h, run, n)
    ensures StartAfterTable(h, run, n + 1) <==>
              StartAfterTable(h, run, n) || (StartsAt(h, run, n) && TableBefore(h, run, n))
  {
    hide AcceptsTableAt, StartsAt;
  }

  /** Over any run of messages, the device is activated exactly if a ring was started after a memory
      table had been accepted. */
  lemma {:induction false} ActivatedIff(h: Handler, run: seq<Message>)
    requires HandleAll(h, run).Some? && !h.memoryUpdated && !h.activated
    ensures HandleAll(h, run).value.memoryUpdated <==> TableBefore(h, run, |run|)
    ensures HandleAll(h, run).value.activated <==> StartAfterTable(h, run, |run|)
    decreases |run|
  {
    hide HandleAll, AcceptsTableAt, StartsAt, TableBefore, StartAfterTable;
    if run == [] {
      NothingHandled(h);
    } else {
      LastMessage(h, run);
      ActivatedIff(h, run[..|run| - 1]);
      PrefixSaysTheSame(h, run);
      OneMoreMessage(h, run, |run| - 1);
    }
  }

  lemma NothingHandled(h: Handler)
    ensures HandleAll(h, []) == Some(h) && !TableBefore(h, [], 0) && !StartAfterTable(h, [], 0)
  {
  }

  lemma LastMessage(h: Handler, run: seq<Message>)
    requires run != [] && HandleAll(h, run).Some?
    ensures var n, before, after := |run| - 1, HandleAll(h, run[..|run| - 1]), HandleAll(h, run).value;
            && before.Some?
            && (after.memoryUpdated <==> before.value.memoryUpdated || AcceptsTableAt(h, run, n))
            && (after.activated <==>
                  before.value.activated || (StartsAt(h, run, n) && before.value.memoryUpdated))
  {
  }

  // ---- activation happens once ----

  /** Message `j` activates the device. */
  predicate ActivatesAt(h: Handler, run: seq<Message>, j: nat) {
    StartsAt(h, run, j) &&
    var before := HandleAll(h, run[..j]).value;
    before.memoryUpdated && !before.activated
  }

  /** The device is activated by the first start of a ring that follows an accepted table, and by no other
      message. */
  lemma ActivatesAtFirst(h: Handler, run: seq<Message>, j: nat)
    requires !h.memoryUpdated && !h.activated && j < |run|
    ensures ActivatesAt(h, run, j) <==>
              && StartsAt(h, run, j) && TableBefore(h, run, j)
              && forall i :: 0 <= i < j ==> !(StartsAt(h, run, i) && TableBefore(h, run, i))
  {
    if StartsAt(h, run, j) {
      var before := run[..j];
      ActivatedIff(h, before);
      forall i | 0 <= i < j
        ensures AcceptsTableAt(h, before, i) <==> AcceptsTableAt(h, run, i)
        ensures StartsAt(h, before, i) <==> StartsAt(h, run, i)
      {
        assert before[..i] == run[..i];
      }
      hide AcceptsTableAt, StartsAt, HandleAll;
      forall i | 0 <= i <= j ensures TableBefore(h, before, i) <==> TableBefore(h, run, i) {}
    }
  }

  /** A handler activates its device at most once. */
  lemma ActivatedOnce(h: Handler, run: seq<Message>, i: nat, j: nat)
    requires !h.memoryUpdated && !h.activated && i < j < |run|
    ensures !(ActivatesAt(h, run, i) && ActivatesAt(h, run, j))
  {
    hide ActivatesAt;
    ActivatesAtFirst(h, run, i);
    ActivatesAtFirst(h, run, j);
  }
}
