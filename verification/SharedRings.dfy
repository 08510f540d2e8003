/** The rings of one handler. A worker watches the kicks of several rings through one epoll instance,
    so the rings share what every instance watches and which instances are alive. */
module SharedRings {
  import opened Wrappers
  import VK = VringKick

  /** What one ring has of its own. */
  datatype Part = Part(kick: Option<VK.Fd>, ready: bool, epolls: seq<VK.Listed>, fds: set<VK.Fd>)

  datatype Rings = Rings(parts: seq<Part>, tables: VK.Tables, live: set<VK.EpollId>)

  const NEW_PART := Part(None, false, [], {})

  function View(s: Rings, i: nat): VK.Ring
    requires i < |s.parts|
  {
    var p := s.parts[i];
    VK.Ring(p.kick, p.ready, p.epolls, s.tables, s.live, p.fds)
  }

  function Write(s: Rings, i: nat, r: VK.Ring): Rings
    requires i < |s.parts|
  {
    Rings(s.parts[i := Part(r.kick, r.ready, r.epolls, r.fds)], r.tables, r.live)
  }

  ghost predicate AllRegistered(s: Rings) {
    forall i :: 0 <= i < |s.parts| ==> VK.Registered(View(s, i))
  }

  /** No descriptor has been the kick of two rings. */
  predicate Apart(s: Rings) {
    forall i, j :: 0 <= i < |s.parts| && 0 <= j < |s.parts| && i != j ==> s.parts[i].fds !! s.parts[j].fds
  }

  // ---- an operation on one ring leaves the kicks of the others alone ----

  function WatchOf(tables: VK.Tables, e: VK.EpollId, fd: VK.Fd): Option<VK.Token> {
    var t := VK.Watched(tables, e);
    if fd in t then Some(t[fd]) else None
  }

  ghost predicate Untouched(before: VK.Tables, after: VK.Tables, fd: VK.Fd) {
    forall e :: WatchOf(after, e, fd) == WatchOf(before, e, fd)
  }

  lemma {:induction false} UpdateTouches(tables: VK.Tables, live: set<VK.EpollId>, epolls: seq<VK.Listed>,
                                         oldKick: Option<VK.Fd>, open: bool, newKick: Option<VK.Fd>, fd: VK.Fd)
    requires oldKick != Some(fd) && newKick != Some(fd)
    ensures Untouched(tables, VK.UpdateEpolls(tables, live, epolls, oldKick, open, newKick).0, fd)
    decreases epolls
  {
    if epolls != [] {
      var next := if epolls[0].epoll in live then VK.UpdateOne(tables, epolls[0], oldKick, open, newKick).0 else tables;
      assert Untouched(tables, next, fd);
      UpdateTouches(next, live, epolls[1..], oldKick, open, newKick, fd);
    }
  }

  lemma SetKickTouches(r: VK.Ring, kick: Option<VK.Fd>, closing: VK.Closing, fd: VK.Fd)
    requires r.kick != Some(fd) && kick != Some(fd)
    ensures Untouched(r.tables, VK.SetKick(r, kick, closing).0.tables, fd)
  {
    hide VK.UpdateEpolls;
    var left := if closing.Forgotten? && r.kick.Some? then VK.Forget(r.tables, r.kick.value) else r.tables;
    assert Untouched(r.tables, left, fd);
    UpdateTouches(left, r.live, r.epolls, r.kick, closing.Held?, kick, fd);
  }

  lemma StopTouches(r: VK.Ring, fd: VK.Fd)
    requires r.kick != Some(fd)
    ensures Untouched(r.tables, VK.Stop(r).0.tables, fd)
  {
    UpdateTouches(r.tables, r.live, r.epolls, r.kick, true, None, fd);
  }

  lemma StartTouches(r: VK.Ring, fd: VK.Fd)
    requires r.kick != Some(fd)
    ensures Untouched(r.tables, VK.Start(r).0.tables, fd)
  {
    UpdateTouches(r.tables, r.live, r.epolls, None, true, r.kick, fd);
  }

  /** The kick an operation brings in. */
  function Brings(op: VK.Operation): set<VK.Fd> {
    if op.DoSetKick? && op.kick.Some? then {op.kick.value} else {}
  }

  lemma PerformTouches(r: VK.Ring, op: VK.Operation, fd: VK.Fd)
    requires r.kick.Some? ==> r.kick.value in r.fds
    requires fd !in r.fds && fd !in Brings(op)
    requires op.Create? ==> op.epoll !in r.live && fd !in op.watching
    ensures var r' := VK.Perform(r, op).0;
            && r'.fds == r.fds + Brings(op)
            && (if op.Create? then forall e :: e != op.epoll ==> WatchOf(r'.tables, e, fd) == WatchOf(r.tables, e, fd)
                else Untouched(r.tables, r'.tables, fd))
            && r'.live == (if op.Create? then r.live + {op.epoll} else if op.Drop? then r.live - {op.epoll} else r.live)
  {
    hide VK.UpdateEpolls;
    match op
    case DoStart => StartTouches(r, fd);
    case DoStop => StopTouches(r, fd);
    case DoSetKick(kick, closing) => SetKickTouches(r, kick, closing, fd);
    case _ =>
  }

  // ---- operations ----

  function Perform(s: Rings, i: nat, op: VK.Operation): Rings
    requires i < |s.parts|
  {
    Write(s, i, VK.Perform(View(s, i), op).0)
  }

  /** New descriptors and new epoll instances are new to every ring. */
  ghost predicate Allowed(s: Rings, i: nat, op: VK.Operation)
    requires i < |s.parts|
  {
    && VK.Allowed(View(s, i), op)
    && (forall j :: 0 <= j < |s.parts| && j != i ==> Brings(op) !! s.parts[j].fds)
    && (op.Create? ==> forall j :: 0 <= j < |s.parts| ==> VK.Allowed(View(s, j), op))
  }

  /** A ring whose kicks are left alone stays as registered as it was. */
  lemma OthersStayRegistered(s: Rings, i: nat, op: VK.Operation, j: nat)
    requires i < |s.parts| && j < |s.parts| && i != j && Apart(s) && Allowed(s, i, op)
    requires VK.Registered(View(s, i)) && VK.Registered(View(s, j))
    ensures VK.Registered(View(Perform(s, i, op), j))
  {
    var s' := Perform(s, i, op);
    var before, after := View(s, j), View(s', j);
    assert s'.parts[j] == s.parts[j];
    forall l, fd | l in after.epolls && l.epoll in after.live && fd in after.fds ensures VK.Sees(after, l, fd) {
      assert fd !in s.parts[i].fds && fd !in Brings(op);
      PerformTouches(View(s, i), op, fd);
      assert l.epoll in before.live && VK.Sees(before, l, fd);
      assert WatchOf(after.tables, l.epoll, fd) == WatchOf(before.tables, l.epoll, fd);
    }
  }

  /** One operation on one of the rings keeps the registrations of all of them exactly if it is
      disciplined on its own ring. */
  lemma PerformKeepsAllIff(s: Rings, i: nat, op: VK.Operation)
    requires AllRegistered(s) && Apart(s) && i < |s.parts| && Allowed(s, i, op)
    ensures AllRegistered(Perform(s, i, op)) <==> VK.Disciplined(View(s, i), op)
    ensures Apart(Perform(s, i, op)) && |Perform(s, i, op).parts| == |s.parts|
  {
    hide VK.Registered, VK.Perform, VK.Allowed, VK.Disciplined;
    var s' := Perform(s, i, op);
    assert View(s', i) == VK.Perform(View(s, i), op).0;
    VK.PerformKeepsRegistration(View(s, i), op);
    forall j | 0 <= j < |s.parts| && j != i ensures VK.Registered(View(s', j)) {
      OthersStayRegistered(s, i, op, j);
    }
    FdsGrow(View(s, i), op);
  }

  lemma FdsGrow(r: VK.Ring, op: VK.Operation)
    ensures VK.Perform(r, op).0.fds == r.fds + Brings(op)
  {
    hide VK.UpdateEpolls;
  }

  datatype Step = Step(ring: nat, op: VK.Operation)

  ghost predicate AllowedRun(s: Rings, run: seq<Step>)
    decreases run
  {
    run != [] ==>
      run[0].ring < |s.parts| && Allowed(s, run[0].ring, run[0].op)
      && AllowedRun(Perform(s, run[0].ring, run[0].op), run[1..])
  }

  ghost predicate RegisteredThroughout(s: Rings, run: seq<Step>)
    requires AllowedRun(s, run)
    decreases run
  {
    AllRegistered(s) &&
    (run != [] ==> RegisteredThroughout(Perform(s, run[0].ring, run[0].op), run[1..]))
  }

  ghost predicate DisciplinedRun(s: Rings, run: seq<Step>)
    requires AllowedRun(s, run)
    decreases run
  {
    run != [] ==>
      VK.Disciplined(View(s, run[0].ring), run[0].op)
      && DisciplinedRun(Perform(s, run[0].ring, run[0].op), run[1..])
  }

  /** The registrations of all rings are right throughout a run, in which the rings take turns and share
      their epoll instances, exactly if every operation is disciplined on its ring. */
  lemma {:induction false} RunsKeepAllIff(s: Rings, run: seq<Step>)
    requires AllRegistered(s) && Apart(s) && AllowedRun(s, run)
    ensures RegisteredThroughout(s, run) <==> DisciplinedRun(s, run)
    decreases run
  {
    hide VK.Registered, VK.Perform, VK.Disciplined, Allowed, Perform, AllRegistered;
    if run != [] {
      PerformKeepsAllIff(s, run[0].ring, run[0].op);
      if VK.Disciplined(View(s, run[0].ring), run[0].op) {
        RunsKeepAllIff(Perform(s, run[0].ring, run[0].op), run[1..]);
      }
    }
  }

  // ---- messages ----

  /** `reset_device` stops the rings one after the other, then resets the device. */
  function StopFrom(s: Rings, k: nat): Option<Rings>
    decreases |s.parts| - k
  {
    if k >= |s.parts| then Some(s)
    else
      var (r, ok) := VK.Stop(View(s, k));
      if !ok then None else StopFrom(Write(s, k, r), k + 1)
  }

  function ResetAll(s: Rings, survivors: set<VK.EpollId>): Option<Rings> {
    var stopped := StopFrom(s, 0);
    if stopped.None? then None else Some(stopped.value.(live := stopped.value.live * survivors))
  }

  /** None where the handler panics. A message for a ring that does not exist is refused; a reset is for
      all rings. */
  function Handle(s: Rings, i: nat, m: VK.Message): Option<Rings> {
    if i >= |s.parts| then Some(s)
    else if m.Reset? then ResetAll(s, m.survivors)
    else
      match VK.HandleMessage(View(s, i), m)
      case None => None
      case Some(r) => Some(Write(s, i, r))
  }

  lemma HandleIs(s: Rings, i: nat, m: VK.Message, r: VK.Ring, t: Rings)
    requires i < |s.parts| && !m.Reset? && VK.HandleMessage(View(s, i), m) == Some(r)
    requires t.tables == r.tables && t.live == r.live && |t.parts| == |s.parts|
    requires t.parts[i] == Part(r.kick, r.ready, r.epolls, r.fds)
    requires forall j :: 0 <= j < |s.parts| && j != i ==> t.parts[j] == s.parts[j]
    ensures Handle(s, i, m) == Some(t)
  {
    hide VK.HandleMessage;
    assert t.parts == Write(s, i, r).parts;
  }

  function BringsIn(m: VK.Message): set<VK.Fd> {
    if m.NewKick? && m.kick.Some? then {m.kick.value} else {}
  }

  ghost predicate Permitted(s: Rings, i: nat, m: VK.Message) {
    i < |s.parts| ==>
      && VK.Permitted(View(s, i), m)
      && (forall j :: 0 <= j < |s.parts| && j != i ==> BringsIn(m) !! s.parts[j].fds)
      && (m.NewEpoll? ==> forall j :: 0 <= j < |s.parts| ==> VK.Permitted(View(s, j), m))
  }

  predicate Harmless(s: Rings, i: nat, m: VK.Message) {
    i < |s.parts| ==>
      if m.Reset? then forall j :: 0 <= j < |s.parts| ==> VK.Harmless(View(s, j), m) else VK.Harmless(View(s, i), m)
  }

  /** All registrations are right, and no ring is in a state in which stopping it fails. */
  ghost predicate Safe(s: Rings) {
    AllRegistered(s) && Apart(s) && forall i :: 0 <= i < |s.parts| ==> !VK.Stale(View(s, i))
  }

  lemma MessageTouches(r: VK.Ring, m: VK.Message, fd: VK.Fd)
    requires r.kick.Some? ==> r.kick.value in r.fds
    requires fd !in r.fds && fd !in BringsIn(m) && !m.Reset? && VK.HandleMessage(r, m).Some?
    requires m.NewEpoll? ==> m.epoll !in r.live && fd !in m.watching
    ensures var r' := VK.HandleMessage(r, m).value;
            && r'.fds == r.fds + BringsIn(m)
            && (if m.NewEpoll? then forall e :: e != m.epoll ==> WatchOf(r'.tables, e, fd) == WatchOf(r.tables, e, fd)
                else Untouched(r.tables, r'.tables, fd))
            && r'.live == (if m.NewEpoll? then r.live + {m.epoll}
                           else if m.DropEpoll? then r.live - {m.epoll} else r.live)
  {
    hide VK.UpdateEpolls, VK.Forget;
    match m
    case NewKick(kick, closing) =>
      SetKickTouches(r, kick, closing, fd);
      var r1 := VK.SetKick(r, kick, closing).0;
      StartTouches(r1, fd);
    case NewCall => StartTouches(r, fd);
    case GetBase(closing) =>
      StopTouches(r, fd);
      SetKickTouches(VK.Stop(r).0, None, closing, fd);
    case _ =>
  }

  /** A ring whose own part and kicks are left alone, while no instance it lists comes alive. */
  lemma StaysSafe(before: VK.Ring, after: VK.Ring)
    requires VK.Registered(before)
    requires after == before.(tables := after.tables, live := after.live)
    requires forall l :: l in before.epolls && l.epoll in after.live ==> l.epoll in before.live
    requires forall l, fd :: l in before.epolls && l.epoll in after.live && fd in before.fds ==>
               WatchOf(after.tables, l.epoll, fd) == WatchOf(before.tables, l.epoll, fd)
    ensures VK.Registered(after) && (VK.Stale(after) ==> VK.Stale(before))
  {
    forall l, fd | l in after.epolls && l.epoll in after.live && fd in after.fds ensures VK.Sees(after, l, fd) {
      assert VK.Sees(before, l, fd);
      assert WatchOf(after.tables, l.epoll, fd) == WatchOf(before.tables, l.epoll, fd);
    }
    VK.StaleStays(before, after);
  }

  lemma OthersStaySafe(s: Rings, i: nat, m: VK.Message, j: nat)
    requires i < |s.parts| && j < |s.parts| && i != j && Safe(s) && Permitted(s, i, m) && !m.Reset?
    requires VK.HandleMessage(View(s, i), m).Some?
    ensures var s' := Write(s, i, VK.HandleMessage(View(s, i), m).value);
            VK.Registered(View(s', j)) && !VK.Stale(View(s', j))
  {
    hide VK.HandleMessage, VK.Stale;
    var r, r' := View(s, i), VK.HandleMessage(View(s, i), m).value;
    var before, after := View(s, j), View(Write(s, i, r'), j);
    if m.NewEpoll? {
      assert VK.Permitted(before, m);
    }
    LiveAfter(r, m);
    forall l, fd | l in before.epolls && l.epoll in after.live && fd in before.fds
      ensures WatchOf(after.tables, l.epoll, fd) == WatchOf(before.tables, l.epoll, fd)
    {
      assert fd !in s.parts[i].fds && fd !in BringsIn(m);
      MessageTouches(r, m, fd);
    }
    StaysSafe(before, after);
  }

  lemma LiveAfter(r: VK.Ring, m: VK.Message)
    requires VK.HandleMessage(r, m).Some? && !m.Reset?
    ensures var r' := VK.HandleMessage(r, m).value;
            && r'.fds == r.fds + BringsIn(m)
            && r'.live == (if m.NewEpoll? then r.live + {m.epoll}
                           else if m.DropEpoll? then r.live - {m.epoll} else r.live)
  {
    hide VK.UpdateEpolls, VK.Forget;
  }

  /** A harmless message for one ring. */
  lemma RingMessageIsSafe(s: Rings, i: nat, m: VK.Message)
    requires Safe(s) && i < |s.parts| && !m.Reset? && Permitted(s, i, m) && VK.Harmless(View(s, i), m)
    ensures Handle(s, i, m).Some? && Safe(Handle(s, i, m).value)
  {
    hide VK.Registered, VK.Stale, VK.HandleMessage, VK.Harmless;
    VK.HarmlessMessage(View(s, i), m);
    var r := VK.HandleMessage(View(s, i), m).value;
    var s' := Write(s, i, r);
    assert View(s', i) == r;
    LiveAfter(View(s, i), m);
    forall j | 0 <= j < |s.parts| && j != i ensures VK.Registered(View(s', j)) && !VK.Stale(View(s', j)) {
      OthersStaySafe(s, i, m, j);
    }
  }

  lemma StopKeepsLive(r: VK.Ring)
    ensures VK.Stop(r).0 == r.(tables := VK.Stop(r).0.tables, ready := VK.Stop(r).0.ready)
  {
    hide VK.UpdateEpolls;
  }

  lemma StoppingLeavesOthers(s: Rings, k: nat, j: nat)
    requires k < |s.parts| && j < |s.parts| && j != k && Apart(s)
    requires VK.Registered(View(s, j)) && VK.Registered(View(s, k))
    ensures var s' := Write(s, k, VK.Stop(View(s, k)).0);
            VK.Registered(View(s', j)) && (VK.Stale(View(s', j)) ==> VK.Stale(View(s, j)))
  {
    hide VK.Stop, VK.Stale;
    StopKeepsLive(View(s, k));
    var before, after := View(s, j), View(Write(s, k, VK.Stop(View(s, k)).0), j);
    forall l, fd | l in before.epolls && l.epoll in after.live && fd in before.fds
      ensures WatchOf(after.tables, l.epoll, fd) == WatchOf(before.tables, l.epoll, fd)
    {
      StopTouches(View(s, k), fd);
    }
    StaysSafe(before, after);
  }

  /** The rings but for what they watch and whether they run. */
  predicate SameRings(s: Rings, t: Rings) {
    && |t.parts| == |s.parts| && t.live == s.live
    && forall j :: 0 <= j < |s.parts| ==>
         && t.parts[j].kick == s.parts[j].kick && t.parts[j].epolls == s.parts[j].epolls
         && t.parts[j].fds == s.parts[j].fds
  }

  lemma StopOne(s: Rings, k: nat)
    requires AllRegistered(s) && Apart(s) && k < |s.parts| && !VK.Stale(View(s, k))
    ensures VK.Stop(View(s, k)).1
    ensures var s' := Write(s, k, VK.Stop(View(s, k)).0);
            && AllRegistered(s') && SameRings(s, s')
            && forall j :: 0 <= j < |s.parts| && j != k ==> (VK.Stale(View(s', j)) ==> VK.Stale(View(s, j)))
  {
    hide VK.Stop, VK.Registered;
    VK.StopKeepsRegistration(View(s, k));
    StopKeepsLive(View(s, k));
    var s' := Write(s, k, VK.Stop(View(s, k)).0);
    assert View(s', k) == VK.Stop(View(s, k)).0;
    hide VK.Stale;
    forall j | 0 <= j < |s.parts| && j != k
      ensures VK.Registered(View(s', j)) && (VK.Stale(View(s', j)) ==> VK.Stale(View(s, j)))
    {
      StoppingLeavesOthers(s, k, j);
    }
  }

  lemma {:induction false} StopFromKeepsRings(s: Rings, k: nat)
    requires AllRegistered(s) && Apart(s) && k <= |s.parts|
    requires forall j :: k <= j < |s.parts| ==> !VK.Stale(View(s, j))
    ensures StopFrom(s, k).Some? && AllRegistered(StopFrom(s, k).value) && SameRings(s, StopFrom(s, k).value)
    decreases |s.parts| - k
  {
    hide VK.Stop, VK.Stale, VK.Registered, AllRegistered;
    if k < |s.parts| {
      StopOne(s, k);
      StopFromKeepsRings(Write(s, k, VK.Stop(View(s, k)).0), k + 1);
    }
  }

  /** A device reset that ends the workers listening to rings with a kick. */
  lemma ResetIsSafe(s: Rings, survivors: set<VK.EpollId>)
    requires Safe(s) && forall j :: 0 <= j < |s.parts| ==> VK.Harmless(View(s, j), VK.Reset(survivors))
    ensures ResetAll(s, survivors).Some? && Safe(ResetAll(s, survivors).value)
  {
    hide VK.Registered;
    StopFromKeepsRings(s, 0);
    var stopped := StopFrom(s, 0).value;
    var s' := stopped.(live := stopped.live * survivors);
    forall j | 0 <= j < |s.parts| ensures VK.Registered(View(s', j)) && !VK.Stale(View(s', j)) {
      StaysSafe(View(stopped, j), View(s', j));
      assert VK.Harmless(View(s, j), VK.Reset(survivors));
    }
  }

  lemma HarmlessIsSafe(s: Rings, i: nat, m: VK.Message)
    requires Safe(s) && Permitted(s, i, m) && Harmless(s, i, m)
    ensures Handle(s, i, m).Some? && Safe(Handle(s, i, m).value)
  {
    hide VK.HandleMessage, Safe, VK.Permitted, ResetAll;
    if i < |s.parts| {
      if m.Reset? {
        ResetIsSafe(s, m.survivors);
      } else {
        RingMessageIsSafe(s, i, m);
      }
    }
  }

  datatype Addressed = Addressed(ring: nat, m: VK.Message)

  /** None as soon as a message panics. */
  function HandleAll(s: Rings, run: seq<Addressed>): Option<Rings>
    decreases run
  {
    if run == [] then Some(s)
    else
      var next := Handle(s, run[0].ring, run[0].m);
      if next.None? then None else HandleAll(next.value, run[1..])
  }

  ghost predicate PermittedRun(s: Rings, run: seq<Addressed>)
    decreases run
  {
    run != [] ==>
      && Permitted(s, run[0].ring, run[0].m)
      && (Handle(s, run[0].ring, run[0].m).Some? ==> PermittedRun(Handle(s, run[0].ring, run[0].m).value, run[1..]))
  }

  predicate HarmlessRun(s: Rings, run: seq<Addressed>)
    decreases run
  {
    run != [] ==>
      && Harmless(s, run[0].ring, run[0].m)
      && (Handle(s, run[0].ring, run[0].m).Some? ==> HarmlessRun(Handle(s, run[0].ring, run[0].m).value, run[1..]))
  }

  /** No run of harmless messages to any of the rings panics. */
  lemma {:induction false} HandlerNeverPanics(s: Rings, run: seq<Addressed>)
    requires Safe(s) && PermittedRun(s, run) && HarmlessRun(s, run)
    ensures HandleAll(s, run).Some? && Safe(HandleAll(s, run).value)
    decreases run
  {
    hide Handle, Safe, Permitted, Harmless;
    if run != [] {
      HarmlessIsSafe(s, run[0].ring, run[0].m);
      HandlerNeverPanics(Handle(s, run[0].ring, run[0].m).value, run[1..]);
    }
  }

  // ---- when a message panics, whatever the registrations are ----

  /** Some live instance in the ring's list does not watch its kick. */
  predicate Misses(s: Rings, j: nat)
    requires j < |s.parts|
  {
    s.parts[j].kick.Some? && VK.SomeMisses(View(s, j), s.parts[j].kick.value)
  }

  ghost predicate Plausible(s: Rings) {
    Apart(s) && forall j :: 0 <= j < |s.parts| ==>
      VK.DistinctEpolls(s.parts[j].epolls) && (s.parts[j].kick.Some? ==> s.parts[j].kick.value in s.parts[j].fds)
  }

  lemma StoppingLeavesMisses(s: Rings, k: nat, j: nat)
    requires Plausible(s) && k < |s.parts| && j < |s.parts| && j != k
    ensures Misses(Write(s, k, VK.Stop(View(s, k)).0), j) <==> Misses(s, j)
  {
    hide VK.Stop;
    StopKeepsLive(View(s, k));
    var s' := Write(s, k, VK.Stop(View(s, k)).0);
    if s.parts[j].kick.Some? {
      var fd := s.parts[j].kick.value;
      StopTouches(View(s, k), fd);
      forall e ensures fd in VK.Watched(s'.tables, e) <==> fd in VK.Watched(s.tables, e) {
        assert WatchOf(s'.tables, e, fd) == WatchOf(s.tables, e, fd);
      }
    }
  }

  lemma {:induction false} StopFromPanicsIff(s: Rings, k: nat)
    requires Plausible(s) && k <= |s.parts|
    ensures StopFrom(s, k).None? <==> exists j :: k <= j < |s.parts| && Misses(s, j)
    decreases |s.parts| - k
  {
    hide VK.Stop, VK.SomeMisses;
    if k < |s.parts| {
      VK.StopSucceedsIff(View(s, k));
      StopKeepsLive(View(s, k));
      var s' := Write(s, k, VK.Stop(View(s, k)).0);
      forall j | 0 <= j < |s.parts| && j != k ensures Misses(s', j) <==> Misses(s, j) {
        StoppingLeavesMisses(s, k, j);
      }
      hide Misses;
      if VK.Stop(View(s, k)).1 {
        StopFromPanicsIff(s', k + 1);
      }
      StoppedIffNotMissing(s, k);
    }
  }

  lemma StoppedIffNotMissing(s: Rings, k: nat)
    requires Plausible(s) && k < |s.parts|
    ensures VK.Stop(View(s, k)).1 <==> !Misses(s, k)
  {
    hide VK.Stop, VK.SomeMisses;
    VK.StopSucceedsIff(View(s, k));
  }

  /** A device reset panics exactly if some ring's kick is missed by a live instance in its list; any
      other message exactly if it does on its own ring. */
  lemma HandlePanicsIff(s: Rings, i: nat, m: VK.Message)
    requires Plausible(s) && i < |s.parts| && Permitted(s, i, m)
    ensures Handle(s, i, m).None? <==>
              if m.Reset? then exists j :: 0 <= j < |s.parts| && Misses(s, j) else VK.Panics(View(s, i), m)
  {
    hide VK.HandleMessage, VK.Panics, Misses, StopFrom;
    if m.Reset? {
      StopFromPanicsIff(s, 0);
    } else {
      VK.MessagePanicsIff(View(s, i), m);
    }
  }
}
