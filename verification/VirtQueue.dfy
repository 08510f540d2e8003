/** A virtqueue as the devices see it through the queue library. The driver adds chains at its own
    pace: `arrivals` holds, for each coming look at the available ring, what it adds just before. */
module VirtQueue {
  import opened Wrappers

  datatype Used = Used(head: nat, len: nat)

  function Flat<C>(batches: seq<seq<C>>): seq<C> {
    if batches == [] then [] else batches[0] + Flat(batches[1..])
  }

  /** Everything about a queue at one moment. */
  datatype Snapshot<C> = Snapshot(
    avail: seq<C>, next: nat, used: seq<Used>, unsignalled: nat, signals: nat, notificationsOn: bool,
    arrivals: seq<seq<C>>)

  class Queue<C> {
    var avail: seq<C>
    var next: nat
    var used: seq<Used>
    var unsignalled: nat        // used entries the driver has not been signalled about
    ghost var signals: nat      // how often the driver has been signalled (history)
    var notificationsOn: bool   // whether the driver is asked to kick
    ghost var popsWhileOn: nat  // pops while the driver was asked to kick (history)
    var arrivals: seq<seq<C>>

    ghost predicate Valid()
      reads `avail, `next
    {
      next <= |avail|
    }

    /** Everything the driver ever makes available, in order. */
    ghost function Stream(): seq<C>
      reads `avail, `arrivals
    {
      avail + Flat(arrivals)
    }

    ghost function Now(): Snapshot<C>
      reads this
    {
      Snapshot(avail, next, used, unsignalled, signals, notificationsOn, arrivals)
    }

    ghost function Remaining(): int
      reads `avail, `arrivals, `next
    {
      |Stream()| - next
    }

    constructor (arrivals: seq<seq<C>>)
      ensures Valid() && Stream() == Flat(arrivals) && this.arrivals == arrivals
      ensures avail == [] && next == 0 && used == [] && unsignalled == 0
    {
      this.avail, this.next, this.used, this.unsignalled, this.notificationsOn := [], 0, [], 0, true;
      this.signals, this.popsWhileOn := 0, 0;
      this.arrivals := arrivals;
    }

    /** The driver makes its next batch available. */
    method Arrive()
      requires Valid()
      modifies `avail, `arrivals
      ensures Valid() && Stream() == old(Stream()) && old(avail) <= avail
      ensures |arrivals| <= |old(arrivals)|
      ensures old(arrivals) != [] ==> |arrivals| < |old(arrivals)|
      ensures old(arrivals) == [] ==> avail == old(avail)
    {
      if arrivals != [] {
        assert avail + Flat(arrivals) == (avail + arrivals[0]) + Flat(arrivals[1..]);
        avail := avail + arrivals[0];
        arrivals := arrivals[1..];
      }
    }

    method PopDescriptorChain() returns (chain: Option<C>)
      requires Valid()
      modifies `avail, `arrivals, `next, `popsWhileOn
      ensures Valid() && Stream() == old(Stream()) && old(avail) <= avail
      ensures popsWhileOn == old(popsWhileOn) + if notificationsOn then 1 else 0
      ensures |arrivals| <= |old(arrivals)|
      ensures chain.Some? <==> old(next) < |avail|
      ensures chain.Some? ==> next == old(next) + 1 && chain.value == avail[old(next)] == Stream()[old(next)]
      ensures chain.None? ==> next == old(next) == |avail| && (old(arrivals) != [] ==> |arrivals| < |old(arrivals)|)
    {
      popsWhileOn := popsWhileOn + if notificationsOn then 1 else 0;
      Arrive();
      if next < |avail| {
        chain := Some(avail[next]);
        next := next + 1;
      } else {
        chain := None;
      }
    }

    method GoToPreviousPosition()
      requires Valid() && next > 0
      modifies `next
      ensures Valid() && next == old(next) - 1
    {
      next := next - 1;
    }

    method AddUsed(head: nat, len: nat)
      modifies `used, `unsignalled
      ensures used == old(used) + [Used(head, len)] && unsignalled == old(unsignalled) + 1
    {
      used := used + [Used(head, len)];
      unsignalled := unsignalled + 1;
    }

    method SignalUsedQueue()
      modifies `unsignalled, `signals
      ensures unsignalled == 0 && signals == old(signals) + 1
    {
      unsignalled, signals := 0, signals + 1;
    }

    method DisableNotification()
      modifies `notificationsOn
      ensures !notificationsOn
    {
      notificationsOn := false;
    }

    /** Whether chains became available that have not been popped. */
    method EnableNotification() returns (more: bool)
      requires Valid()
      modifies `avail, `arrivals, `notificationsOn
      ensures Valid() && Stream() == old(Stream()) && old(avail) <= avail && notificationsOn
      ensures |arrivals| <= |old(arrivals)| && (avail != old(avail) ==> |arrivals| < |old(arrivals)|)
      ensures more <==> next != |avail|
    {
      notificationsOn := true;
      Arrive();
      more := |avail| != next;
    }
  }
}
