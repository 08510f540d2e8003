/** Kick registration of one vring: the epoll instances in its list are kept watching the current
    kick descriptor while the ring is started. Descriptors and epoll instances are names. */
module VringKick {
  import opened Wrappers

  type Fd = nat
  type Token = nat
  type EpollId = nat

  datatype Listed = Listed(epoll: EpollId, token: Token)

  /** What every epoll instance watches, with the token it reports. */
  type Tables = map<EpollId, map<Fd, Token>>

  /** `fds` are all kick descriptors the ring has had so far (history); `live` are the epoll instances
      that still exist. */
  datatype Ring = Ring(
    kick: Option<Fd>,
    ready: bool,
    epolls: seq<Listed>,
    tables: Tables,
    live: set<EpollId>,
    fds: set<Fd>)

  const INITIAL := Ring(None, false, [], map[], {}, {})

  // ---- epoll ----

  function Watched(tables: Tables, e: EpollId): map<Fd, Token> {
    if e in tables then tables[e] else map[]
  }

  function EpollAdd(tables: Tables, e: EpollId, fd: Fd, token: Token): Option<Tables> {
    var t := Watched(tables, e);
    if fd in t then None else Some(tables[e := t[fd := token]])
  }

  function EpollDelete(tables: Tables, e: EpollId, fd: Fd): Option<Tables> {
    var t := Watched(tables, e);
    if fd !in t then None else Some(tables[e := t - {fd}])
  }

  /** What becomes of the old kick when `set_kick` lets go of it, which is before the registrations are
      updated: something else in this process holds it open; it is closed here, but the frontend's copy
      keeps it watched; or it is closed everywhere and the kernel drops every watch on it. */
  datatype Closing = Held | Closed | Forgotten

  function Forget(tables: Tables, fd: Fd): Tables {
    map e | e in tables :: tables[e] - {fd}
  }

  lemma ForgetsOneFd(tables: Tables, fd: Fd, e: EpollId)
    ensures Watched(Forget(tables, fd), e) == Watched(tables, e) - {fd}
  {
  }

  /** One turn of `update_epolls`, on a live instance: forget the old kick, which fails if it is no
      longer open, and watch the new one. */
  function UpdateOne(tables: Tables, l: Listed, oldKick: Option<Fd>, open: bool, newKick: Option<Fd>): (Tables, bool) {
    var deleted :=
      if oldKick.None? then Some(tables) else if open then EpollDelete(tables, l.epoll, oldKick.value) else None;
    if deleted.None? then (tables, false)
    else
      var added := if newKick.Some? then EpollAdd(deleted.value, l.epoll, newKick.value, l.token) else deleted;
      if added.None? then (deleted.value, false) else (added.value, true)
  }

  /** The first failing registration ends the loop; earlier ones stay. */
  function UpdateEpolls(tables: Tables, live: set<EpollId>, epolls: seq<Listed>,
                        oldKick: Option<Fd>, open: bool, newKick: Option<Fd>): (Tables, bool)
    decreases epolls
  {
    if epolls == [] then (tables, true)
    else if epolls[0].epoll !in live then UpdateEpolls(tables, live, epolls[1..], oldKick, open, newKick)
    else
      var (next, ok) := UpdateOne(tables, epolls[0], oldKick, open, newKick);
      if !ok then (next, false) else UpdateEpolls(next, live, epolls[1..], oldKick, open, newKick)
  }

  // ---- the ring's operations ----

  function Stop(r: Ring): (Ring, bool) {
    if r.kick.None? then (r.(ready := false), true)
    else
      var (tables, ok) := UpdateEpolls(r.tables, r.live, r.epolls, r.kick, true, None);
      (r.(tables := tables, ready := r.ready && !ok), ok)
  }

  function Start(r: Ring): (Ring, bool) {
    var (tables, ok) := UpdateEpolls(r.tables, r.live, r.epolls, None, true, r.kick);
    (r.(tables := tables, ready := true), ok)
  }

  function SetKick(r: Ring, kick: Option<Fd>, closing: Closing): (Ring, bool) {
    var left := if closing.Forgotten? && r.kick.Some? then Forget(r.tables, r.kick.value) else r.tables;
    var r1 := r.(kick := kick, tables := left, fds := r.fds + if kick.Some? then {kick.value} else {});
    if !r.ready then (r1, true)
    else
      var (tables, ok) := UpdateEpolls(left, r.live, r.epolls, r.kick, closing.Held?, kick);
      (r1.(tables := tables), ok)
  }

  function Prune(epolls: seq<Listed>, keep: set<EpollId>): (r: seq<Listed>)
    ensures forall l :: l in r <==> l in epolls && l.epoll in keep
  {
    if epolls == [] then []
    else (if epolls[0].epoll in keep then [epolls[0]] else []) + Prune(epolls[1..], keep)
  }

  /** Adds an epoll instance to the list, watching the present kick whether or not the ring runs. */
  function RegisterSelf(r: Ring, e: EpollId, token: Token): (Ring, bool) {
    var added := if r.kick.Some? then EpollAdd(r.tables, e, r.kick.value, token) else Some(r.tables);
    if added.None? then (r, false)
    else (r.(tables := added.value, epolls := Prune(r.epolls, r.live) + [Listed(e, token)]), true)
  }

  function UnregisterSelf(r: Ring, e: EpollId): (Ring, bool) {
    var r1 := r.(epolls := Prune(r.epolls, r.live - {e}));
    if r.kick.None? then (r1, true)
    else
      var deleted := EpollDelete(r1.tables, e, r.kick.value);
      if deleted.None? then (r1, false) else (r1.(tables := deleted.value), true)
  }

  // ---- the registration invariant ----

  /** What a live listed instance sees of this ring: the current kick under its own token while the
      ring is started, and nothing otherwise. */
  predicate Sees(r: Ring, l: Listed, fd: Fd) {
    var t := Watched(r.tables, l.epoll);
    && (fd in t <==> r.ready && r.kick == Some(fd))
    && (fd in t ==> t[fd] == l.token)
  }

  ghost predicate Registered(r: Ring) {
    && (r.kick.Some? ==> r.kick.value in r.fds)
    && DistinctEpolls(r.epolls)
    && (forall l, fd :: l in r.epolls && l.epoll in r.live && fd in r.fds ==> Sees(r, l, fd))
  }

  predicate AnyLive(r: Ring) {
    exists i :: 0 <= i < |r.epolls| && r.epolls[i].epoll in r.live
  }

  predicate DistinctEpolls(epolls: seq<Listed>) {
    forall i, j :: 0 <= i < j < |epolls| ==> epolls[i].epoll != epolls[j].epoll
  }

  /** Whether the loop's work on one instance can succeed. */
  predicate CanUpdate(tables: Tables, l: Listed, oldKick: Option<Fd>, open: bool, newKick: Option<Fd>) {
    var t := Watched(tables, l.epoll);
    && (oldKick.Some? ==> open && oldKick.value in t)
    && (newKick.Some? ==> newKick.value !in t || newKick == oldKick)
  }

  function Updated(t: map<Fd, Token>, token: Token, oldKick: Option<Fd>, newKick: Option<Fd>): map<Fd, Token> {
    var rest := if oldKick.Some? then t - {oldKick.value} else t;
    if newKick.Some? then rest[newKick.value := token] else rest
  }

  lemma UpdateOneEffect(tables: Tables, l: Listed, oldKick: Option<Fd>, open: bool, newKick: Option<Fd>)
    ensures UpdateOne(tables, l, oldKick, open, newKick).1 <==> CanUpdate(tables, l, oldKick, open, newKick)
    ensures CanUpdate(tables, l, oldKick, open, newKick) ==>
              Watched(UpdateOne(tables, l, oldKick, open, newKick).0, l.epoll)
              == Updated(Watched(tables, l.epoll), l.token, oldKick, newKick)
    ensures forall e :: e != l.epoll ==>
              Watched(UpdateOne(tables, l, oldKick, open, newKick).0, e) == Watched(tables, e)
  {
  }

  /** If it can be done on every live instance, the loop updates each of them and nothing else. */
  lemma {:induction false} UpdateEpollsEffect(tables: Tables, live: set<EpollId>, epolls: seq<Listed>,
                                              oldKick: Option<Fd>, open: bool, newKick: Option<Fd>)
    requires DistinctEpolls(epolls)
    requires forall l :: l in epolls && l.epoll in live ==> CanUpdate(tables, l, oldKick, open, newKick)
    ensures var (after, ok) := UpdateEpolls(tables, live, epolls, oldKick, open, newKick);
            && ok
            && (forall l :: l in epolls && l.epoll in live ==>
                  Watched(after, l.epoll) == Updated(Watched(tables, l.epoll), l.token, oldKick, newKick))
            && (forall e :: !(exists l :: l in epolls && l.epoll in live && l.epoll == e) ==>
                  Watched(after, e) == Watched(tables, e))
    decreases epolls
  {
    if epolls != [] {
      var first, rest := epolls[0], epolls[1..];
      assert epolls == [first] + rest;
      assert DistinctEpolls(rest);
      forall l | l in rest ensures l.epoll != first.epoll {
        var k :| 0 <= k < |rest| && rest[k] == l;
        assert epolls[k + 1] == l;
      }
      if first.epoll !in live {
        UpdateEpollsEffect(tables, live, rest, oldKick, open, newKick);
      } else {
        UpdateOneEffect(tables, first, oldKick, open, newKick);
        var next := UpdateOne(tables, first, oldKick, open, newKick).0;
        UpdateEpollsEffect(next, live, rest, oldKick, open, newKick);
      }
    }
  }

  /** If it can be done on no live instance and there is one, the loop fails without any effect. */
  lemma {:induction false} UpdateEpollsRefused(tables: Tables, live: set<EpollId>, epolls: seq<Listed>,
                                               oldKick: Option<Fd>, open: bool, newKick: Option<Fd>)
    requires oldKick.None? || newKick.None? || !open
    requires forall l :: l in epolls && l.epoll in live ==> !CanUpdate(tables, l, oldKick, open, newKick)
    ensures UpdateEpolls(tables, live, epolls, oldKick, open, newKick)
         == (tables, forall i :: 0 <= i < |epolls| ==> epolls[i].epoll !in live)
    decreases epolls
  {
    if epolls != [] {
      assert epolls == [epolls[0]] + epolls[1..];
      if epolls[0].epoll !in live {
        UpdateEpollsRefused(tables, live, epolls[1..], oldKick, open, newKick);
      }
    }
  }

  /** The loop succeeds exactly if it can be done on every live instance. */
  lemma {:induction false} UpdateEpollsSucceedsIff(tables: Tables, live: set<EpollId>, epolls: seq<Listed>,
                                                   oldKick: Option<Fd>, open: bool, newKick: Option<Fd>)
    requires DistinctEpolls(epolls)
    ensures UpdateEpolls(tables, live, epolls, oldKick, open, newKick).1 <==>
              forall l :: l in epolls && l.epoll in live ==> CanUpdate(tables, l, oldKick, open, newKick)
    decreases epolls
  {
    if epolls != [] {
      var first, rest := epolls[0], epolls[1..];
      assert epolls == [first] + rest;
      assert DistinctEpolls(rest);
      forall l | l in rest ensures l.epoll != first.epoll {
        var k :| 0 <= k < |rest| && rest[k] == l;
        assert epolls[k + 1] == l;
      }
      UpdateOneEffect(tables, first, oldKick, open, newKick);
      var next := if first.epoll in live then UpdateOne(tables, first, oldKick, open, newKick).0 else tables;
      UpdateEpollsSucceedsIff(next, live, rest, oldKick, open, newKick);
    }
  }

  /** Some live listed instance watches a descriptor, or some does not. */
  predicate SomeWatches(r: Ring, fd: Fd) {
    exists i :: 0 <= i < |r.epolls| && r.epolls[i].epoll in r.live && fd in Watched(r.tables, r.epolls[i].epoll)
  }

  predicate SomeMisses(r: Ring, fd: Fd) {
    exists i :: 0 <= i < |r.epolls| && r.epolls[i].epoll in r.live && fd !in Watched(r.tables, r.epolls[i].epoll)
  }

  /** Whatever the registrations are, stopping fails exactly if some live instance misses the kick. */
  lemma StopSucceedsIff(r: Ring)
    requires DistinctEpolls(r.epolls)
    ensures Stop(r).1 <==> (r.kick.Some? ==> !SomeMisses(r, r.kick.value))
  {
    if r.kick.Some? {
      UpdateEpollsSucceedsIff(r.tables, r.live, r.epolls, r.kick, true, None);
      if SomeMisses(r, r.kick.value) {
        var i :| 0 <= i < |r.epolls| && r.epolls[i].epoll in r.live
          && r.kick.value !in Watched(r.tables, r.epolls[i].epoll);
        assert r.epolls[i] in r.epolls && !CanUpdate(r.tables, r.epolls[i], r.kick, true, None);
      }
    }
  }

  /** Whatever the registrations are, starting fails exactly if some live instance watches the kick. */
  lemma StartSucceedsIff(r: Ring)
    requires DistinctEpolls(r.epolls)
    ensures Start(r).1 <==> (r.kick.Some? ==> !SomeWatches(r, r.kick.value))
  {
    UpdateEpollsSucceedsIff(r.tables, r.live, r.epolls, None, true, r.kick);
    if r.kick.Some? && SomeWatches(r, r.kick.value) {
      var i :| 0 <= i < |r.epolls| && r.epolls[i].epoll in r.live
        && r.kick.value in Watched(r.tables, r.epolls[i].epoll);
      assert r.epolls[i] in r.epolls && !CanUpdate(r.tables, r.epolls[i], None, true, r.kick);
    }
  }

  lemma StopKeepsRegistration(r: Ring)
    requires Registered(r)
    ensures Registered(Stop(r).0)
    ensures Stop(r).1 <==> r.kick.None? || r.ready || !AnyLive(r)
    ensures Stop(r).1 ==> !Stop(r).0.ready
  {
    if r.kick.Some? {
      assert forall l :: l in r.epolls && l.epoll in r.live ==> Sees(r, l, r.kick.value);
      if r.ready {
        UpdateEpollsEffect(r.tables, r.live, r.epolls, r.kick, true, None);
      } else {
        UpdateEpollsRefused(r.tables, r.live, r.epolls, r.kick, true, None);
      }
    }
  }

  /** Starting a running ring that has a kick and a live instance fails, with no effect. */
  lemma StartKeepsRegistration(r: Ring)
    requires Registered(r)
    ensures Registered(Start(r).0) && Start(r).0.ready
    ensures Start(r).1 <==> r.kick.None? || !r.ready || !AnyLive(r)
  {
    if r.kick.None? || !r.ready {
      UpdateEpollsEffect(r.tables, r.live, r.epolls, None, true, r.kick);
    } else {
      assert forall l :: l in r.epolls && l.epoll in r.live ==> Sees(r, l, r.kick.value);
      UpdateEpollsRefused(r.tables, r.live, r.epolls, None, true, r.kick);
    }
  }

  /** A newly opened descriptor is not watched by anybody. */
  ghost predicate Opened(r: Ring, fd: Fd) {
    forall l :: l in r.epolls && l.epoll in r.live ==> fd !in Watched(r.tables, l.epoll)
  }

  /** Whether a new kick takes the place of one that a live instance watches. */
  predicate Replaces(r: Ring) {
    r.ready && r.kick.Some? && AnyLive(r)
  }

  /** Replacing the kick of a started ring with a live instance fails exactly if nothing else in this
      process holds the old one open. Otherwise every live instance moves to the new kick. After a
      failure the invariant is lost, unless the old kick is closed everywhere and there is no new one. */
  lemma SetKickKeepsRegistration(r: Ring, kick: Option<Fd>, closing: Closing)
    requires Registered(r) && (kick.Some? ==> Opened(r, kick.value))
    ensures SetKick(r, kick, closing).1 <==> !Replaces(r) || closing.Held?
    ensures Registered(SetKick(r, kick, closing).0) <==>
              SetKick(r, kick, closing).1 || (closing.Forgotten? && kick.None?)
  {
    hide Registered, Forget, UpdateEpolls;
    if !r.ready {
      KickOfStoppedRing(r, kick, closing);
    } else if Replaces(r) && !closing.Held? {
      FailsOnClosedKick(r, kick, closing);
      ReplacedKickIsLost(r, kick, closing);
    } else {
      KickMoves(r, kick, closing);
    }
  }

  lemma KickOfStoppedRing(r: Ring, kick: Option<Fd>, closing: Closing)
    requires Registered(r) && !r.ready
    requires kick.Some? ==> Opened(r, kick.value)
    ensures Registered(SetKick(r, kick, closing).0)
  {
    var r' := SetKick(r, kick, closing).0;
    forall e ensures Watched(r'.tables, e).Keys <= Watched(r.tables, e).Keys {
      if r.kick.Some? {
        ForgetsOneFd(r.tables, r.kick.value, e);
      }
    }
    forall l, fd | l in r'.epolls && l.epoll in r'.live && fd in r'.fds ensures Sees(r', l, fd) {
      assert fd in r.fds ==> Sees(r, l, fd);
    }
  }

  lemma KickMoves(r: Ring, kick: Option<Fd>, closing: Closing)
    requires Registered(r) && r.ready && (!Replaces(r) || closing.Held?)
    requires kick.Some? ==> Opened(r, kick.value)
    ensures SetKick(r, kick, closing).1 && Registered(SetKick(r, kick, closing).0)
  {
    hide UpdateEpolls, Forget;
    if closing.Held? || r.kick.None? {
      InstancesMove(r, kick, closing);
    } else {
      var left := if closing.Forgotten? then Forget(r.tables, r.kick.value) else r.tables;
      UpdateEpollsEffect(left, r.live, r.epolls, r.kick, false, kick);
    }
  }

  lemma InstancesMove(r: Ring, kick: Option<Fd>, closing: Closing)
    requires Registered(r) && r.ready && (closing.Held? || r.kick.None?)
    requires kick.Some? ==> Opened(r, kick.value)
    ensures SetKick(r, kick, closing).1 && Registered(SetKick(r, kick, closing).0)
  {
    hide UpdateEpolls, Forget;
    forall l, fd | l in r.epolls && l.epoll in r.live && fd in r.fds ensures Sees(r, l, fd) {}
    UpdateEpollsEffect(r.tables, r.live, r.epolls, r.kick, closing.Held?, kick);
    var r' := SetKick(r, kick, closing).0;
    forall l, fd | l in r'.epolls && l.epoll in r'.live && fd in r'.fds ensures Sees(r', l, fd) {
      assert Watched(r'.tables, l.epoll) == Updated(Watched(r.tables, l.epoll), l.token, r.kick, kick);
      assert fd in r.fds ==> Sees(r, l, fd);
    }
  }

  lemma FailsOnClosedKick(r: Ring, kick: Option<Fd>, closing: Closing)
    requires Replaces(r) && !closing.Held?
    ensures var left := if closing.Forgotten? then Forget(r.tables, r.kick.value) else r.tables;
            SetKick(r, kick, closing)
            == (r.(kick := kick, tables := left, fds := r.fds + if kick.Some? then {kick.value} else {}), false)
  {
    var left := if closing.Forgotten? then Forget(r.tables, r.kick.value) else r.tables;
    UpdateEpollsRefused(left, r.live, r.epolls, r.kick, false, kick);
  }

  lemma ReplacedKickIsLost(r: Ring, kick: Option<Fd>, closing: Closing)
    requires Registered(r) && Replaces(r) && (kick.Some? ==> Opened(r, kick.value)) && !closing.Held?
    requires var left := if closing.Forgotten? then Forget(r.tables, r.kick.value) else r.tables;
             SetKick(r, kick, closing)
             == (r.(kick := kick, tables := left, fds := r.fds + if kick.Some? then {kick.value} else {}), false)
    ensures Registered(SetKick(r, kick, closing).0) <==> closing.Forgotten? && kick.None?
  {
    var r' := SetKick(r, kick, closing).0;
    var i :| 0 <= i < |r.epolls| && r.epolls[i].epoll in r.live;
    var l := r.epolls[i];
    assert l in r'.epolls && Sees(r, l, r.kick.value);
    forall e ensures closing.Forgotten? ==> Watched(r'.tables, e) == Watched(r.tables, e) - {r.kick.value} {
      ForgetsOneFd(r.tables, r.kick.value, e);
    }
    if kick.Some? {
      assert !Sees(r', l, kick.value);
    } else if closing.Closed? {
      assert !Sees(r', l, r.kick.value);
    } else {
      forall m, fd | m in r'.epolls && m.epoll in r'.live && fd in r'.fds ensures Sees(r', m, fd) {
        assert Sees(r, m, fd);
      }
    }
  }

  /** Whatever the registrations are, replacing the kick of a started ring fails exactly if it is closed
      too early and some instance is alive, or some live instance misses it. */
  lemma SetKickSucceedsIff(r: Ring, kick: Option<Fd>, closing: Closing)
    requires DistinctEpolls(r.epolls) && (kick.Some? ==> Opened(r, kick.value))
    ensures SetKick(r, kick, closing).1 <==>
              (r.ready && r.kick.Some? ==> if closing.Held? then !SomeMisses(r, r.kick.value) else !AnyLive(r))
  {
    if r.ready {
      var left := if closing.Forgotten? && r.kick.Some? then Forget(r.tables, r.kick.value) else r.tables;
      UpdateEpollsSucceedsIff(left, r.live, r.epolls, r.kick, closing.Held?, kick);
      forall l | l in r.epolls && l.epoll in r.live
        ensures CanUpdate(left, l, r.kick, closing.Held?, kick) <==>
                  (r.kick.Some? ==> closing.Held? && r.kick.value in Watched(r.tables, l.epoll))
      {
        assert kick.Some? ==> kick.value !in Watched(r.tables, l.epoll);
      }
      assert forall i :: 0 <= i < |r.epolls| ==> r.epolls[i] in r.epolls;
      if !SetKick(r, kick, closing).1 {
        var l :| l in r.epolls && l.epoll in r.live && !CanUpdate(left, l, r.kick, closing.Held?, kick);
        var i :| 0 <= i < |r.epolls| && r.epolls[i] == l;
      }
    }
  }

  /** An instance that can be added: it exists, is not listed, and watches nothing of this ring. */
  ghost predicate Foreign(r: Ring, e: EpollId) {
    && e in r.live
    && (forall l :: l in r.epolls ==> l.epoll != e)
    && (forall fd :: fd in r.fds ==> fd !in Watched(r.tables, e))
  }

  lemma {:induction false} PruneKeepsDistinct(epolls: seq<Listed>, keep: set<EpollId>)
    requires DistinctEpolls(epolls)
    ensures DistinctEpolls(Prune(epolls, keep))
  {
    if epolls != [] {
      var first, rest := epolls[0], Prune(epolls[1..], keep);
      PruneKeepsDistinct(epolls[1..], keep);
      assert forall l :: l in rest ==> l in epolls[1..];
      forall l | l in epolls[1..] ensures l.epoll != first.epoll {
        var k :| 0 <= k < |epolls[1..]| && epolls[1..][k] == l;
        assert epolls[k + 1] == l;
      }
      assert forall i :: 0 <= i < |rest| ==> rest[i] in rest;
    }
  }

  /** Registration always succeeds; it keeps the invariant exactly if a present kick means that the
      ring is started. */
  lemma RegisterKeepsRegistration(r: Ring, e: EpollId, token: Token)
    requires Registered(r) && Foreign(r, e)
    ensures RegisterSelf(r, e, token).1
    ensures Registered(RegisterSelf(r, e, token).0) <==> (r.kick.Some? ==> r.ready)
  {
    var r', l := RegisterSelf(r, e, token).0, Listed(e, token);
    var pruned := Prune(r.epolls, r.live);
    PruneKeepsDistinct(r.epolls, r.live);
    assert r'.epolls == pruned + [l] && l in r'.epolls;
    if r.kick.Some? && !r.ready {
      assert !Sees(r', l, r.kick.value);
    } else {
      forall i, j | 0 <= i < j < |r'.epolls| ensures r'.epolls[i].epoll != r'.epolls[j].epoll {
        assert pruned[i] in pruned;
      }
      forall m, fd | m in r'.epolls && m.epoll in r'.live && fd in r'.fds ensures Sees(r', m, fd) {
        if m != l {
          assert m in pruned;
          assert Sees(r, m, fd);
        }
      }
    }
  }

  /** Unregistering takes the instance off the list and, unless a kick is present on a stopped ring,
      succeeds and leaves it watching nothing of this ring. */
  lemma UnregisterKeepsRegistration(r: Ring, l: Listed)
    requires Registered(r) && l in r.epolls && l.epoll in r.live
    ensures Registered(UnregisterSelf(r, l.epoll).0)
    ensures UnregisterSelf(r, l.epoll).1 <==> (r.kick.Some? ==> r.ready)
    ensures forall fd :: fd in r.fds ==> fd !in Watched(UnregisterSelf(r, l.epoll).0.tables, l.epoll)
    ensures forall m :: m in UnregisterSelf(r, l.epoll).0.epolls ==> m.epoll != l.epoll
  {
    var r' := UnregisterSelf(r, l.epoll).0;
    PruneKeepsDistinct(r.epolls, r.live - {l.epoll});
    if r.kick.Some? {
      assert Sees(r, l, r.kick.value);
    }
    forall fd | fd in r.fds ensures fd !in Watched(r'.tables, l.epoll) {
      assert Sees(r, l, fd);
    }
    forall m, fd | m in r'.epolls && m.epoll in r'.live && fd in r'.fds ensures Sees(r', m, fd) {
      assert Sees(r, m, fd);
    }
  }

  // ---- what each operation leaves alone ----

  /** Starting, stopping and a new kick keep the list. A failed stop leaves the ring ready. */
  lemma OperationsKeepTheList(r: Ring, kick: Option<Fd>, closing: Closing)
    ensures Start(r).0 == r.(ready := true, tables := Start(r).0.tables)
    ensures Stop(r).0 == r.(ready := r.ready && !Stop(r).1, tables := Stop(r).0.tables)
    ensures SetKick(r, kick, closing).0
         == r.(kick := kick, tables := SetKick(r, kick, closing).0.tables,
               fds := r.fds + if kick.Some? then {kick.value} else {})
  {
    hide UpdateEpolls, Forget;
  }

  /** The entries of `later` are those of `earlier` at the positions `at`, in order. */
  predicate Positions(earlier: seq<Listed>, later: seq<Listed>, at: seq<nat>) {
    && |at| == |later|
    && (forall i :: 0 <= i < |at| ==> at[i] < |earlier| && later[i] == earlier[at[i]])
    && (forall i, j :: 0 <= i < j < |at| ==> at[i] < at[j])
  }

  predicate ExactlyIn(epolls: seq<Listed>, keep: set<EpollId>, at: seq<nat>) {
    forall k :: 0 <= k < |epolls| ==> (k in at <==> epolls[k].epoll in keep)
  }

  /** Pruning keeps exactly the entries of live instances, in order. */
  lemma {:induction false} PrunedPositions(epolls: seq<Listed>, keep: set<EpollId>) returns (at: seq<nat>)
    ensures Positions(epolls, Prune(epolls, keep), at) && ExactlyIn(epolls, keep, at)
  {
    if epolls == [] {
      at := [];
    } else {
      hide Positions, ExactlyIn;
      var first, rest := epolls[0], epolls[1..];
      assert epolls == [first] + rest;
      var later := PrunedPositions(rest, keep);
      at := FirstPosition(first, rest, keep, Prune(rest, keep), later);
      assert [] + Prune(rest, keep) == Prune(rest, keep);
    }
  }

  lemma FirstPosition(first: Listed, rest: seq<Listed>, keep: set<EpollId>, pruned: seq<Listed>, later: seq<nat>)
    returns (at: seq<nat>)
    requires Positions(rest, pruned, later) && ExactlyIn(rest, keep, later)
    ensures Positions([first] + rest, if first.epoll in keep then [first] + pruned else pruned, at)
    ensures ExactlyIn([first] + rest, keep, at)
  {
    var shifted := Shifted(first, rest, pruned, later);
    at := if first.epoll in keep then [0] + shifted else shifted;
    InFront(first, rest, pruned, shifted);
    hide Positions;
    assert 0 in at <==> first.epoll in keep;
    forall k | 0 <= k < |[first] + rest| ensures k in at <==> ([first] + rest)[k].epoll in keep {
      if k > 0 {
        assert ([first] + rest)[k] == rest[k - 1];
        assert k in shifted <==> (k - 1) in later;
      }
    }
  }

  lemma InFront(first: Listed, rest: seq<Listed>, pruned: seq<Listed>, shifted: seq<nat>)
    requires Positions([first] + rest, pruned, shifted) && 0 !in shifted
    ensures Positions([first] + rest, [first] + pruned, [0] + shifted)
  {
    forall i, j | 0 <= i < j < |[0] + shifted| ensures ([0] + shifted)[i] < ([0] + shifted)[j] {
      assert shifted[j - 1] in shifted;
    }
  }

  lemma Shifted(first: Listed, rest: seq<Listed>, pruned: seq<Listed>, at: seq<nat>) returns (shifted: seq<nat>)
    requires Positions(rest, pruned, at)
    ensures Positions([first] + rest, pruned, shifted)
    ensures 0 !in shifted && forall k: nat :: k + 1 in shifted <==> k in at
  {
    shifted := seq(|at|, i requires 0 <= i < |at| => at[i] + 1);
    forall k: nat | k in at ensures k + 1 in shifted {
      var i :| 0 <= i < |at| && at[i] == k;
      assert shifted[i] == k + 1;
    }
    forall k: nat | k + 1 in shifted ensures k in at {
      var i :| 0 <= i < |shifted| && shifted[i] == k + 1;
      assert at[i] == k;
    }
  }

  /** Registering fails exactly if the instance watches the present kick already, and then has no effect.
      Otherwise the list is the live instances listed before, in order, and then the new one, whether or
      not there is a kick; the new instance watches a present kick in addition. */
  lemma RegisterEffect(r: Ring, e: EpollId, token: Token) returns (at: seq<nat>)
    ensures RegisterSelf(r, e, token).1 <==> (r.kick.Some? ==> r.kick.value !in Watched(r.tables, e))
    ensures !RegisterSelf(r, e, token).1 ==> RegisterSelf(r, e, token).0 == r
    ensures RegisterSelf(r, e, token).1 ==>
              var r' := RegisterSelf(r, e, token).0;
              && r' == r.(tables := r'.tables, epolls := r'.epolls)
              && |r'.epolls| == |at| + 1 && r'.epolls[|at|] == Listed(e, token)
              && Positions(r.epolls, r'.epolls[..|at|], at)
              && (forall x :: Watched(r'.tables, x) ==
                    if x == e && r.kick.Some? then Watched(r.tables, e)[r.kick.value := token]
                    else Watched(r.tables, x))
    ensures ExactlyIn(r.epolls, r.live, at)
  {
    at := PrunedPositions(r.epolls, r.live);
    var r' := RegisterSelf(r, e, token).0;
    assert RegisterSelf(r, e, token).1 ==> r'.epolls[..|at|] == Prune(r.epolls, r.live);
  }

  /** Unregistering takes the instance off the list, and with it the dead ones; the others stay, in order.
      It fails exactly if the instance does not watch a present kick, which it then forgets otherwise. */
  lemma UnregisterEffect(r: Ring, e: EpollId) returns (at: seq<nat>)
    ensures UnregisterSelf(r, e).1 <==> (r.kick.Some? ==> r.kick.value in Watched(r.tables, e))
    ensures var r' := UnregisterSelf(r, e).0;
            && r' == r.(tables := r'.tables, epolls := r'.epolls)
            && Positions(r.epolls, r'.epolls, at)
            && (forall x :: Watched(r'.tables, x) ==
                  if x == e && r.kick.Some? then Watched(r.tables, e) - {r.kick.value} else Watched(r.tables, x))
    ensures ExactlyIn(r.epolls, r.live - {e}, at)
  {
    at := PrunedPositions(r.epolls, r.live - {e});
  }

  // ---- every run ----

  datatype Operation =
    | DoStart
    | DoStop
    | DoSetKick(kick: Option<Fd>, closing: Closing)
    | DoRegister(epoll: EpollId, token: Token)
    | DoUnregister(epoll: EpollId)
    | Create(epoll: EpollId, watching: map<Fd, Token>)
    | Drop(epoll: EpollId)

  function Perform(r: Ring, op: Operation): (Ring, bool) {
    match op
    case DoStart => Start(r)
    case DoStop => Stop(r)
    case DoSetKick(kick, closing) => SetKick(r, kick, closing)
    case DoRegister(e, token) => RegisterSelf(r, e, token)
    case DoUnregister(e) => UnregisterSelf(r, e)
    case Create(e, watching) => (r.(live := r.live + {e}, tables := r.tables[e := watching]), true)
    case Drop(e) => (r.(live := r.live - {e}), true)
  }

  /** What the kernel and the program's own objects provide. */
  ghost predicate Allowed(r: Ring, op: Operation) {
    match op
    case DoSetKick(kick, _) => kick.Some? ==> Opened(r, kick.value)
    case DoRegister(e, _) => Foreign(r, e)
    case DoUnregister(e) => exists l :: l in r.epolls && l.epoll in r.live && l.epoll == e
    case Create(e, watching) => e !in r.live && (forall l :: l in r.epolls ==> l.epoll != e) && watching.Keys !! r.fds
    case _ => true
  }

  ghost predicate AllowedRun(r: Ring, run: seq<Operation>)
    decreases run
  {
    run == [] || (Allowed(r, run[0]) && AllowedRun(Perform(r, run[0]).0, run[1..]))
  }

  function AfterRun(r: Ring, run: seq<Operation>): Ring
    decreases run
  {
    if run == [] then r else AfterRun(Perform(r, run[0]).0, run[1..])
  }

  /** The operations that keep the registrations right: a watched kick is only replaced while something
      else holds it open, or taken away once it is closed everywhere, and an instance is only added
      while a present kick means that the ring is started. */
  predicate Disciplined(r: Ring, op: Operation) {
    match op
    case DoSetKick(kick, closing) => !Replaces(r) || closing.Held? || (closing.Forgotten? && kick.None?)
    case DoRegister(_, _) => r.kick.Some? ==> r.ready
    case _ => true
  }

  lemma PerformKeepsRegistration(r: Ring, op: Operation)
    requires Registered(r) && Allowed(r, op)
    ensures Registered(Perform(r, op).0) <==> Disciplined(r, op)
  {
    match op
    case DoStart => StartKeepsRegistration(r);
    case DoStop => StopKeepsRegistration(r);
    case DoSetKick(kick, closing) => SetKickKeepsRegistration(r, kick, closing);
    case DoRegister(e, token) => RegisterKeepsRegistration(r, e, token);
    case DoUnregister(e) =>
      var l :| l in r.epolls && l.epoll in r.live && l.epoll == e;
      UnregisterKeepsRegistration(r, l);
    case Create(e, watching) =>
      var r' := Perform(r, op).0;
      forall m, fd | m in r'.epolls && m.epoll in r'.live && fd in r'.fds ensures Sees(r', m, fd) {
        assert Sees(r, m, fd);
      }
    case Drop(e) =>
      var r' := Perform(r, op).0;
      forall m, fd | m in r'.epolls && m.epoll in r'.live && fd in r'.fds ensures Sees(r', m, fd) {
        assert Sees(r, m, fd);
      }
  }

  /** Whether the invariant holds in every state of a run, the first one included. */
  ghost predicate RegisteredThroughout(r: Ring, run: seq<Operation>)
    decreases run
  {
    Registered(r) && (run != [] ==> RegisteredThroughout(Perform(r, run[0]).0, run[1..]))
  }

  predicate DisciplinedRun(r: Ring, run: seq<Operation>)
    decreases run
  {
    run != [] ==> Disciplined(r, run[0]) && DisciplinedRun(Perform(r, run[0]).0, run[1..])
  }

  /** Throughout a run, failed calls included, every live listed instance watches exactly the current
      kick of a started ring under its own token, and nothing of a ring that is stopped or has none,
      exactly if the operations are disciplined. */
  lemma {:induction false} RunsKeepRegistrationIff(r: Ring, run: seq<Operation>)
    requires Registered(r) && AllowedRun(r, run)
    ensures RegisteredThroughout(r, run) <==> DisciplinedRun(r, run)
    ensures RegisteredThroughout(r, run) ==> Registered(AfterRun(r, run))
    decreases run
  {
    hide Registered, Disciplined, Allowed, Perform;
    if run != [] {
      PerformKeepsRegistration(r, run[0]);
      if Disciplined(r, run[0]) {
        RunsKeepRegistrationIff(Perform(r, run[0]).0, run[1..]);
      } else {
        NotRegisteredNow(Perform(r, run[0]).0, run[1..]);
      }
    }
  }

  lemma NotRegisteredNow(r: Ring, run: seq<Operation>)
    requires !Registered(r)
    ensures !RegisteredThroughout(r, run)
  {
  }

  lemma EveryRunKeepsRegistration(run: seq<Operation>, l: Listed, fd: Fd)
    requires AllowedRun(INITIAL, run) && DisciplinedRun(INITIAL, run)
    ensures var r := AfterRun(INITIAL, run);
            l in r.epolls && l.epoll in r.live && fd in r.fds ==>
              && (fd in Watched(r.tables, l.epoll) <==> r.ready && r.kick == Some(fd))
              && (r.ready && r.kick == Some(fd) ==> Watched(r.tables, l.epoll)[fd] == l.token)
  {
    RunsKeepRegistrationIff(INITIAL, run);
    var r := AfterRun(INITIAL, run);
    if l in r.epolls && l.epoll in r.live && fd in r.fds {
      assert Sees(r, l, fd);
    }
  }

  // ---- which instances are listed after a run ----

  predicate ListedAlive(r: Ring, l: Listed) {
    l in r.epolls && l.epoll in r.live
  }

  predicate Delists(op: Operation, e: EpollId) {
    op == DoUnregister(e) || op == Drop(e)
  }

  predicate NeverDelisted(run: seq<Operation>, e: EpollId) {
    forall k :: 0 <= k < |run| ==> !Delists(run[k], e)
  }

  /** The instance was registered under this token, and neither unregistered nor dropped since. */
  ghost predicate RegisteredSince(run: seq<Operation>, l: Listed) {
    exists j :: 0 <= j < |run| && run[j] == DoRegister(l.epoll, l.token) && NeverDelisted(run[j + 1..], l.epoll)
  }

  lemma OperationLists(r: Ring, op: Operation, l: Listed)
    requires Allowed(r, op) && (r.kick.Some? ==> r.kick.value in r.fds)
    ensures var r' := Perform(r, op).0;
            && (r'.kick.Some? ==> r'.kick.value in r'.fds)
            && (ListedAlive(r', l) <==>
                  op == DoRegister(l.epoll, l.token) || (ListedAlive(r, l) && !Delists(op, l.epoll)))
  {
    hide Start, Stop, SetKick, RegisterSelf, UnregisterSelf;
    match op
    case DoStart => OperationsKeepTheList(r, None, Held);
    case DoStop => OperationsKeepTheList(r, None, Held);
    case DoSetKick(kick, closing) => OperationsKeepTheList(r, kick, closing);
    case DoRegister(e, token) => RegisterLists(r, e, token);
    case DoUnregister(e) => UnregisterLists(r, e);
    case _ =>
  }

  lemma RegisterLists(r: Ring, e: EpollId, token: Token)
    requires Foreign(r, e) && (r.kick.Some? ==> r.kick.value in r.fds)
    ensures var r' := RegisterSelf(r, e, token).0;
            && r' == r.(tables := r'.tables, epolls := r'.epolls)
            && forall l :: l in r'.epolls <==> l == Listed(e, token) || ListedAlive(r, l)
  {
    assert RegisterSelf(r, e, token).0.epolls == Prune(r.epolls, r.live) + [Listed(e, token)];
  }

  lemma UnregisterLists(r: Ring, e: EpollId)
    ensures var r' := UnregisterSelf(r, e).0;
            && r' == r.(tables := r'.tables, epolls := r'.epolls)
            && forall l :: l in r'.epolls <==> l.epoll != e && ListedAlive(r, l)
  {
  }

  lemma FirstDelists(op: Operation, rest: seq<Operation>, e: EpollId)
    ensures NeverDelisted([op] + rest, e) <==> !Delists(op, e) && NeverDelisted(rest, e)
  {
    hide Delists;
    var run := [op] + rest;
    if NeverDelisted(run, e) {
      assert !Delists(run[0], e);
      forall k | 0 <= k < |rest| ensures !Delists(rest[k], e) { assert !Delists(run[k + 1], e); }
    }
  }

  lemma FirstOperation(op: Operation, rest: seq<Operation>, l: Listed)
    ensures RegisteredSince([op] + rest, l) <==>
              RegisteredSince(rest, l) || (op == DoRegister(l.epoll, l.token) && NeverDelisted(rest, l.epoll))
  {
    hide NeverDelisted;
    var run := [op] + rest;
    assert run[0] == op && run[1..] == rest;
    if RegisteredSince(rest, l) {
      var j :| 0 <= j < |rest| && rest[j] == DoRegister(l.epoll, l.token) && NeverDelisted(rest[j + 1..], l.epoll);
      assert run[j + 1] == rest[j] && run[j + 2..] == rest[j + 1..];
    }
    if RegisteredSince(run, l) {
      var j :| 0 <= j < |run| && run[j] == DoRegister(l.epoll, l.token) && NeverDelisted(run[j + 1..], l.epoll);
      assert j > 0 ==> rest[j - 1] == run[j] && rest[j..] == run[j + 1..];
    }
  }

  /** After any run a live instance is listed under a token exactly if it was registered so, or listed at
      the start, and neither unregistered nor dropped since. */
  lemma {:induction false} ListedIff(r: Ring, run: seq<Operation>, l: Listed)
    requires AllowedRun(r, run) && (r.kick.Some? ==> r.kick.value in r.fds)
    ensures ListedAlive(AfterRun(r, run), l) <==>
              RegisteredSince(run, l) || (ListedAlive(r, l) && NeverDelisted(run, l.epoll))
    decreases run
  {
    hide Allowed, Perform, ListedAlive, Delists, NeverDelisted, RegisteredSince;
    if run == [] {
      NothingPerformed(l);
    } else {
      assert run == [run[0]] + run[1..];
      OperationLists(r, run[0], l);
      FirstDelists(run[0], run[1..], l.epoll);
      FirstOperation(run[0], run[1..], l);
      ListedIff(Perform(r, run[0]).0, run[1..], l);
    }
  }

  lemma NothingPerformed(l: Listed)
    ensures NeverDelisted([], l.epoll) && !RegisteredSince([], l)
  {
  }

  /** Hence after a disciplined run from a new ring every instance that is still registered watches a kick
      of the ring exactly if it is the present one of the started ring, also if the kick came later. */
  lemma RegisteredIsWoken(run: seq<Operation>, l: Listed, fd: Fd)
    requires AllowedRun(INITIAL, run) && DisciplinedRun(INITIAL, run) && RegisteredSince(run, l)
    ensures var r := AfterRun(INITIAL, run);
            && ListedAlive(r, l)
            && (fd in r.fds || r.kick == Some(fd) ==>
                  (fd in Watched(r.tables, l.epoll) <==> r.ready && r.kick == Some(fd)))
            && (r.ready && r.kick == Some(fd) ==> Watched(r.tables, l.epoll)[fd] == l.token)
  {
    hide RegisteredSince, AllowedRun, DisciplinedRun, AfterRun;
    ListedIff(INITIAL, run, l);
    RunsKeepRegistrationIff(INITIAL, run);
    EveryRunKeepsRegistration(run, l, fd);
  }

  // ---- the handler's messages: None where it unwraps a failed call ----

  function Unwrapped(result: (Ring, bool)): Option<Ring> {
    if result.1 then Some(result.0) else None
  }

  function InitializeVring(r: Ring): Option<Ring> {
    if !r.ready && r.kick.Some? then Unwrapped(Start(r)) else Some(r)
  }

  function SetVringKick(r: Ring, kick: Option<Fd>, closing: Closing): Option<Ring> {
    var replaced := Unwrapped(SetKick(r, kick, closing));
    if replaced.None? then None else InitializeVring(replaced.value)
  }

  /** The call descriptor itself plays no part here. */
  function SetVringCall(r: Ring): Option<Ring> {
    InitializeVring(r)
  }

  function GetVringBase(r: Ring, closing: Closing): Option<Ring> {
    var stopped := Unwrapped(Stop(r));
    if stopped.None? then None else Unwrapped(SetKick(stopped.value, None, closing))
  }

  /** `reset_device`, as one ring sees it: the ring is stopped, then the device is reset. Of the epoll
      instances only `survivors` are still alive afterwards; a device that ends its worker threads
      leaves none. */
  function ResetDevice(r: Ring, survivors: set<EpollId>): Option<Ring> {
    var stopped := Unwrapped(Stop(r));
    if stopped.None? then None else Some(stopped.value.(live := stopped.value.live * survivors))
  }

  /** A stopped ring that still has a kick and a live instance: the state in which stopping fails. */
  predicate Stale(r: Ring) {
    r.kick.Some? && !r.ready && AnyLive(r)
  }

  /** A new kick panics exactly if it replaces one that a live instance watches and that nothing else
      holds open; otherwise it starts a stopped ring. */
  lemma SetVringKickPanicsIff(r: Ring, kick: Option<Fd>, closing: Closing)
    requires Registered(r) && (kick.Some? ==> Opened(r, kick.value))
    ensures SetVringKick(r, kick, closing).None? <==> Replaces(r) && !closing.Held?
    ensures SetVringKick(r, kick, closing).Some? ==>
              var r' := SetVringKick(r, kick, closing).value;
              Registered(r') && r'.kick == kick && (r'.ready <==> r.ready || kick.Some?)
  {
    hide Registered, UpdateEpolls, Forget;
    SetKickKeepsRegistration(r, kick, closing);
    if SetKick(r, kick, closing).1 {
      StartKeepsRegistration(SetKick(r, kick, closing).0);
    }
  }

  /** A new call descriptor panics exactly on a stopped ring with a kick that a live listed instance
      already watches, whatever else is registered. */
  lemma SetVringCallPanicsIff(r: Ring)
    requires DistinctEpolls(r.epolls)
    ensures SetVringCall(r).None? <==> !r.ready && r.kick.Some? && SomeWatches(r, r.kick.value)
  {
    StartSucceedsIff(r);
  }

  /** As long as the registrations are right, a new call descriptor starts a stopped ring that has a
      kick. */
  lemma SetVringCallStarts(r: Ring)
    requires Registered(r)
    ensures SetVringCall(r).Some?
    ensures var r' := SetVringCall(r).value;
            Registered(r') && r'.kick == r.kick && (r'.ready <==> r.ready || r.kick.Some?)
  {
    StartKeepsRegistration(r);
  }

  /** Asking for the ring base panics exactly on a stopped ring that still has a kick and a live
      instance; otherwise the ring ends up stopped and without a kick. */
  lemma GetVringBasePanicsIff(r: Ring, closing: Closing)
    requires Registered(r)
    ensures GetVringBase(r, closing).None? <==> Stale(r)
    ensures GetVringBase(r, closing).Some? ==>
              var r' := GetVringBase(r, closing).value;
              Registered(r') && !r'.ready && r'.kick.None? && r'.epolls == r.epolls
  {
    hide Registered, UpdateEpolls, Forget;
    StopKeepsRegistration(r);
    if Stop(r).1 {
      SetKickKeepsRegistration(Stop(r).0, None, closing);
    }
  }

  /** Whether a listed instance is alive and outlives the reset. */
  predicate AnySurvives(r: Ring, survivors: set<EpollId>) {
    exists i :: 0 <= i < |r.epolls| && r.epolls[i].epoll in r.live && r.epolls[i].epoll in survivors
  }

  /** A reset panics exactly on a stale ring. It stops the ring but keeps its kick, so the ring is stale
      afterwards exactly if it has a kick and a listed instance outlives the reset. */
  lemma ResetPanicsIff(r: Ring, survivors: set<EpollId>)
    requires Registered(r)
    ensures ResetDevice(r, survivors).None? <==> Stale(r)
    ensures ResetDevice(r, survivors).Some? ==>
              var r' := ResetDevice(r, survivors).value;
              && Registered(r') && !r'.ready && r'.kick == r.kick
              && (Stale(r') <==> r.kick.Some? && AnySurvives(r, survivors))
  {
    StopKeepsRegistration(r);
    if Stop(r).1 {
      var r1 := Stop(r).0;
      var r' := r1.(live := r1.live * survivors);
      assert r'.epolls == r.epolls && r'.live == r.live * survivors;
      forall l, fd | l in r'.epolls && l.epoll in r'.live && fd in r'.fds ensures Sees(r', l, fd) {
        assert Sees(r1, l, fd);
      }
      assert AnyLive(r') <==> AnySurvives(r, survivors);
    }
  }

  // ---- runs of the handler ----

  datatype Message =
    | NewKick(kick: Option<Fd>, closing: Closing)
    | NewCall
    | GetBase(closing: Closing)
    | Reset(survivors: set<EpollId>)
    | Activation(epoll: EpollId, token: Token)             // a worker registers the ring's kick event
    | NewEpoll(epoll: EpollId, watching: map<Fd, Token>)
    | DropEpoll(epoll: EpollId)

  function HandleMessage(r: Ring, m: Message): Option<Ring> {
    match m
    case NewKick(kick, closing) => SetVringKick(r, kick, closing)
    case NewCall => SetVringCall(r)
    case GetBase(closing) => GetVringBase(r, closing)
    case Reset(survivors) => ResetDevice(r, survivors)
    case Activation(e, token) => Unwrapped(RegisterSelf(r, e, token))
    case NewEpoll(e, watching) => Some(Perform(r, Create(e, watching)).0)
    case DropEpoll(e) => Some(Perform(r, Drop(e)).0)
  }

  /** What the kernel provides: new descriptors and new epoll instances are new. */
  ghost predicate Permitted(r: Ring, m: Message) {
    match m
    case NewKick(kick, _) => kick.Some? ==> Opened(r, kick.value)
    case Activation(e, token) => Allowed(r, DoRegister(e, token))
    case NewEpoll(e, watching) => Allowed(r, Create(e, watching))
    case _ => true
  }

  /** The messages that panic: a request for the ring base or a reset, if some live instance misses the
      kick; a kick that replaces a watched one that nothing else holds open, or one that some instance
      misses; and a call descriptor for a stopped ring whose kick some instance watches. */
  predicate Panics(r: Ring, m: Message) {
    r.kick.Some? &&
    match m
    case NewKick(_, closing) => r.ready && if closing.Held? then SomeMisses(r, r.kick.value) else AnyLive(r)
    case NewCall => !r.ready && SomeWatches(r, r.kick.value)
    case GetBase(_) => SomeMisses(r, r.kick.value)
    case Reset(_) => SomeMisses(r, r.kick.value)
    case _ => false
  }

  /** No other message panics, in whatever state the registrations are. */
  lemma MessagePanicsIff(r: Ring, m: Message)
    requires DistinctEpolls(r.epolls) && Permitted(r, m)
    requires m.Activation? && r.kick.Some? ==> r.kick.value in r.fds
    ensures HandleMessage(r, m).None? <==> Panics(r, m)
  {
    match m
    case NewKick(kick, closing) => NewKickPanicsIff(r, kick, closing);
    case NewCall => SetVringCallPanicsIff(r);
    case GetBase(_) => StopSucceedsIff(r);
    case Reset(_) => StopSucceedsIff(r);
    case _ =>
  }

  lemma NewKickPanicsIff(r: Ring, kick: Option<Fd>, closing: Closing)
    requires DistinctEpolls(r.epolls) && (kick.Some? ==> Opened(r, kick.value))
    ensures SetVringKick(r, kick, closing).None? <==> Panics(r, NewKick(kick, closing))
  {
    hide UpdateEpolls, Forget;
    SetKickSucceedsIff(r, kick, closing);
    if !r.ready && kick.Some? {
      var r1 := SetKick(r, kick, closing).0;
      StartSucceedsIff(r1);
      forall e ensures Watched(r1.tables, e).Keys <= Watched(r.tables, e).Keys {
        if r.kick.Some? {
          ForgetsOneFd(r.tables, r.kick.value, e);
        }
      }
    }
  }

  /** With right registrations, missing the kick means that the ring is stale, and nobody watches the
      kick of a stopped ring. */
  lemma RegisteredRing(r: Ring)
    requires Registered(r)
    ensures r.kick.Some? ==> (SomeMisses(r, r.kick.value) <==> Stale(r))
    ensures r.kick.Some? && !r.ready ==> !SomeWatches(r, r.kick.value)
  {
    if r.kick.Some? {
      forall i | 0 <= i < |r.epolls| && r.epolls[i].epoll in r.live
        ensures r.kick.value in Watched(r.tables, r.epolls[i].epoll) <==> r.ready
      {
        assert Sees(r, r.epolls[i], r.kick.value);
      }
    }
  }

  /** From right registrations, the only message that spoils them is a worker's registration on a stopped
      ring that has a kick, and the only one that makes a ring stale is a reset that a listed instance
      outlives. */
  lemma MessageKeepsRegistrationIff(r: Ring, m: Message)
    requires Registered(r) && Permitted(r, m) && HandleMessage(r, m).Some?
    ensures Registered(HandleMessage(r, m).value) <==> (m.Activation? && r.kick.Some? ==> r.ready)
    ensures DistinctEpolls(HandleMessage(r, m).value.epolls)
    ensures !Stale(r) && !m.Activation? ==>
              (Stale(HandleMessage(r, m).value) <==> m.Reset? && r.kick.Some? && AnySurvives(r, m.survivors))
  {
    hide Stop, Start, SetKick, Registered;
    match m {
      case NewKick(kick, closing) => SetVringKickPanicsIff(r, kick, closing);
      case NewCall => SetVringCallStarts(r);
      case GetBase(closing) => GetVringBasePanicsIff(r, closing);
      case Reset(survivors) => ResetPanicsIff(r, survivors);
      case Activation(e, token) =>
        RegisterKeepsRegistration(r, e, token);
        RegisteredAreDistinct(r);
        RegistrationIsDistinct(r, e, token);
      case NewEpoll(e, watching) =>
        PerformKeepsRegistration(r, Create(e, watching));
        StaleStays(r, HandleMessage(r, m).value);
      case DropEpoll(e) =>
        PerformKeepsRegistration(r, Drop(e));
        StaleStays(r, HandleMessage(r, m).value);
    }
    if Registered(HandleMessage(r, m).value) {
      RegisteredAreDistinct(HandleMessage(r, m).value);
    }
  }

  lemma RegisteredAreDistinct(r: Ring)
    requires Registered(r)
    ensures DistinctEpolls(r.epolls)
  {
  }

  lemma RegistrationIsDistinct(r: Ring, e: EpollId, token: Token)
    requires DistinctEpolls(r.epolls) && Foreign(r, e)
    ensures DistinctEpolls(RegisterSelf(r, e, token).0.epolls)
  {
    var pruned := Prune(r.epolls, r.live);
    PruneKeepsDistinct(r.epolls, r.live);
    assert forall i :: 0 <= i < |pruned| ==> pruned[i] in pruned;
  }

  lemma StaleStays(r: Ring, r': Ring)
    requires r'.kick == r.kick && r'.ready == r.ready && r'.epolls == r.epolls
    requires forall l :: l in r.epolls && l.epoll in r'.live ==> l.epoll in r.live
    ensures Stale(r') ==> Stale(r)
  {
  }

  /** None as soon as a message panics. */
  function HandleMessages(r: Ring, messages: seq<Message>): Option<Ring>
    decreases messages
  {
    if messages == [] then Some(r)
    else
      var next := HandleMessage(r, messages[0]);
      if next.None? then None else HandleMessages(next.value, messages[1..])
  }

  ghost predicate PermittedRun(r: Ring, messages: seq<Message>)
    decreases messages
  {
    messages == [] ||
    (Permitted(r, messages[0]) &&
     (HandleMessage(r, messages[0]).Some? ==> PermittedRun(HandleMessage(r, messages[0]).value, messages[1..])))
  }

  /** A kick that replaces a watched one leaves the old one held open elsewhere, a reset of the device
      ends all workers that listen to a ring with a kick, and a worker registers with a ring that has a
      kick only while the ring is started. */
  predicate Harmless(r: Ring, m: Message) {
    match m
    case NewKick(_, closing) => Replaces(r) ==> closing.Held?
    case Reset(survivors) => r.kick.Some? ==> !AnySurvives(r, survivors)
    case Activation(_, _) => r.kick.Some? ==> r.ready
    case _ => true
  }

  predicate HarmlessRun(r: Ring, messages: seq<Message>)
    decreases messages
  {
    messages != [] ==>
      && Harmless(r, messages[0])
      && (HandleMessage(r, messages[0]).Some? ==> HarmlessRun(HandleMessage(r, messages[0]).value, messages[1..]))
  }

  /** A harmless message does not panic, and keeps the ring from panicking. */
  lemma HarmlessMessage(r: Ring, m: Message)
    requires Registered(r) && !Stale(r) && Permitted(r, m) && Harmless(r, m)
    ensures HandleMessage(r, m).Some?
    ensures Registered(HandleMessage(r, m).value) && !Stale(HandleMessage(r, m).value)
  {
    hide HandleMessage, SomeWatches, SomeMisses;
    RegisteredRing(r);
    MessagePanicsIff(r, m);
    MessageKeepsRegistrationIff(r, m);
    if m.Activation? {
      RegistrationIsNotStale(r, m.epoll, m.token);
    }
  }

  lemma RegistrationIsNotStale(r: Ring, e: EpollId, token: Token)
    requires r.kick.Some? ==> r.ready
    ensures HandleMessage(r, Activation(e, token)).Some? ==> !Stale(HandleMessage(r, Activation(e, token)).value)
  {
  }

  /** No run of harmless messages panics, and none leaves a stale ring. */
  lemma {:induction false} HandlerNeverPanics(r: Ring, messages: seq<Message>)
    requires Registered(r) && !Stale(r) && PermittedRun(r, messages) && HarmlessRun(r, messages)
    ensures HandleMessages(r, messages).Some?
    ensures Registered(HandleMessages(r, messages).value) && !Stale(HandleMessages(r, messages).value)
    decreases messages
  {
    hide HandleMessage, Registered, Stale, Harmless, Permitted;
    if messages != [] {
      HarmlessMessage(r, messages[0]);
      HandlerNeverPanics(HandleMessage(r, messages[0]).value, messages[1..]);
    }
  }

  // ---- which workers a run of messages leaves registered ----

  predicate EndsWorker(m: Message, e: EpollId) {
    m == DropEpoll(e) || (m.Reset? && e !in m.survivors)
  }

  predicate NeverEnds(messages: seq<Message>, e: EpollId) {
    forall k :: 0 <= k < |messages| ==> !EndsWorker(messages[k], e)
  }

  /** A worker registered through this instance and has not ended since. */
  ghost predicate WorkerSince(messages: seq<Message>, l: Listed) {
    exists j :: 0 <= j < |messages| && messages[j] == Activation(l.epoll, l.token)
                && NeverEnds(messages[j + 1..], l.epoll)
  }

  lemma MessageLists(r: Ring, m: Message, l: Listed)
    requires Permitted(r, m) && HandleMessage(r, m).Some? && (r.kick.Some? ==> r.kick.value in r.fds)
    ensures var r' := HandleMessage(r, m).value;
            && (r'.kick.Some? ==> r'.kick.value in r'.fds)
            && (ListedAlive(r', l) <==>
                  m == Activation(l.epoll, l.token) || (ListedAlive(r, l) && !EndsWorker(m, l.epoll)))
  {
    hide UpdateEpolls, Forget;
    match m
    case NewKick(kick, closing) =>
      OperationsKeepTheList(r, kick, closing);
      OperationsKeepTheList(SetKick(r, kick, closing).0, None, Held);
    case GetBase(closing) =>
      OperationsKeepTheList(r, None, closing);
      OperationsKeepTheList(Stop(r).0, None, closing);
    case Activation(e, token) => OperationLists(r, DoRegister(e, token), l);
    case NewEpoll(e, watching) => OperationLists(r, Create(e, watching), l);
    case DropEpoll(e) => OperationLists(r, Drop(e), l);
    case _ => OperationsKeepTheList(r, None, Held);
  }

  lemma FirstEnds(m: Message, rest: seq<Message>, e: EpollId)
    ensures NeverEnds([m] + rest, e) <==> !EndsWorker(m, e) && NeverEnds(rest, e)
  {
    hide EndsWorker;
    var run := [m] + rest;
    if NeverEnds(run, e) {
      assert !EndsWorker(run[0], e);
      forall k | 0 <= k < |rest| ensures !EndsWorker(rest[k], e) { assert !EndsWorker(run[k + 1], e); }
    }
  }

  lemma FirstMessage(m: Message, rest: seq<Message>, l: Listed)
    ensures WorkerSince([m] + rest, l) <==>
              WorkerSince(rest, l) || (m == Activation(l.epoll, l.token) && NeverEnds(rest, l.epoll))
  {
    hide NeverEnds;
    var run := [m] + rest;
    assert run[0] == m && run[1..] == rest;
    if WorkerSince(rest, l) {
      var j :| 0 <= j < |rest| && rest[j] == Activation(l.epoll, l.token) && NeverEnds(rest[j + 1..], l.epoll);
      assert run[j + 1] == rest[j] && run[j + 2..] == rest[j + 1..];
    }
    if WorkerSince(run, l) {
      var j :| 0 <= j < |run| && run[j] == Activation(l.epoll, l.token) && NeverEnds(run[j + 1..], l.epoll);
      assert j > 0 ==> rest[j - 1] == run[j] && rest[j..] == run[j + 1..];
    }
  }

  /** After any messages an instance is listed and alive exactly if its worker registered, or was listed
      at the start, and has not ended since. */
  lemma {:induction false} WorkerIsListedIff(r: Ring, messages: seq<Message>, l: Listed)
    requires PermittedRun(r, messages) && HandleMessages(r, messages).Some?
    requires r.kick.Some? ==> r.kick.value in r.fds
    ensures ListedAlive(HandleMessages(r, messages).value, l) <==>
              WorkerSince(messages, l) || (ListedAlive(r, l) && NeverEnds(messages, l.epoll))
    decreases messages
  {
    hide Permitted, HandleMessage, ListedAlive, EndsWorker, NeverEnds, WorkerSince;
    if messages == [] {
      NothingSaid(l);
    } else {
      assert messages == [messages[0]] + messages[1..];
      MessageLists(r, messages[0], l);
      FirstEnds(messages[0], messages[1..], l.epoll);
      FirstMessage(messages[0], messages[1..], l);
      WorkerIsListedIff(HandleMessage(r, messages[0]).value, messages[1..], l);
    }
  }

  lemma NothingSaid(l: Listed)
    ensures NeverEnds([], l.epoll) && !WorkerSince([], l)
  {
  }

  /** No kick is lost: after harmless messages to a new ring, every worker that registered and has not
      ended watches the kick of the started ring under its own token, and none watches another one. */
  lemma WorkersAreWoken(messages: seq<Message>, l: Listed, fd: Fd)
    requires PermittedRun(INITIAL, messages) && HarmlessRun(INITIAL, messages) && WorkerSince(messages, l)
    ensures HandleMessages(INITIAL, messages).Some?
    ensures var r := HandleMessages(INITIAL, messages).value;
            && (fd in r.fds || r.kick == Some(fd) ==>
                  (fd in Watched(r.tables, l.epoll) <==> r.ready && r.kick == Some(fd)))
            && (r.ready && r.kick == Some(fd) ==> Watched(r.tables, l.epoll)[fd] == l.token)
  {
    hide WorkerSince, PermittedRun, HarmlessRun, HandleMessages;
    HandlerNeverPanics(INITIAL, messages);
    WorkerIsListedIff(INITIAL, messages, l);
    var r := HandleMessages(INITIAL, messages).value;
    assert fd in r.fds ==> Sees(r, l, fd);
  }

  /** The messages that stop or start a ring without naming a new kick. */
  predicate Probes(m: Message) {
    m.GetBase? || m.Reset? || m.NewCall?
  }

  ghost predicate ProbedSafely(r: Ring) {
    forall next: Message :: Probes(next) ==> HandleMessage(r, next).Some?
  }

  lemma ProbedSafelyIff(r: Ring)
    requires DistinctEpolls(r.epolls)
    ensures ProbedSafely(r) <==>
              (r.kick.Some? ==> !SomeMisses(r, r.kick.value) && (r.ready || !SomeWatches(r, r.kick.value)))
  {
    hide HandleMessage, SomeWatches, SomeMisses;
    forall next: Message | Probes(next) ensures HandleMessage(r, next).None? <==> Panics(r, next) {
      MessagePanicsIff(r, next);
    }
    assert Probes(NewCall) && Probes(Reset({}));
  }

  /** From right registrations, a message is harmless exactly if it does not panic and no request for the
      ring base, reset or call descriptor right after it would. */
  lemma HarmlessIff(r: Ring, m: Message)
    requires Registered(r) && !Stale(r) && Permitted(r, m)
    ensures Harmless(r, m) <==> HandleMessage(r, m).Some? && ProbedSafely(HandleMessage(r, m).value)
  {
    hide HandleMessage, SomeWatches, SomeMisses, ProbedSafely;
    RegisteredRing(r);
    MessagePanicsIff(r, m);
    if HandleMessage(r, m).Some? {
      var r' := HandleMessage(r, m).value;
      MessageKeepsRegistrationIff(r, m);
      ProbedSafelyIff(r');
      if Harmless(r, m) {
        HarmlessMessage(r, m);
      }
      if Registered(r') {
        RegisteredRing(r');
      } else {
        RegisteredTooEarly(r, m.epoll, m.token);
      }
    }
  }

  /** A worker that registers with a stopped ring watches its kick too early: the ring can no longer be
      started. */
  lemma RegisteredTooEarly(r: Ring, e: EpollId, token: Token)
    requires Registered(r) && Allowed(r, DoRegister(e, token))
    ensures HandleMessage(r, Activation(e, token)) == Some(RegisterSelf(r, e, token).0)
    ensures SetVringCall(RegisterSelf(r, e, token).0).Some? <==> (r.kick.Some? ==> r.ready)
    ensures var r' := RegisterSelf(r, e, token).0;
            r.kick.Some? && !r.ready ==> r'.kick == r.kick && !r'.ready && SomeWatches(r', r.kick.value)
  {
    RegisterKeepsRegistration(r, e, token);
    var r' := RegisterSelf(r, e, token).0;
    RegistrationIsDistinct(r, e, token);
    SetVringCallPanicsIff(r');
    assert r'.epolls[|r'.epolls| - 1] == Listed(e, token);
  }

  lemma {:induction false} OneMoreMessage(r: Ring, run: seq<Message>, m: Message)
    requires PermittedRun(r, run) && HandleMessages(r, run).Some? && Permitted(HandleMessages(r, run).value, m)
    ensures PermittedRun(r, run + [m])
    ensures HandleMessages(r, run + [m]) == HandleMessage(HandleMessages(r, run).value, m)
    decreases run
  {
    hide HandleMessage, Permitted;
    if run == [] {
      assert ([] + [m])[1..] == [] && ([] + [m])[0] == m;
    } else {
      assert (run + [m])[1..] == run[1..] + [m];
      OneMoreMessage(HandleMessage(r, run[0]).value, run[1..], m);
    }
  }

  const EPOLL_MADE := Ring(None, false, [], map[0 := map[]], {0}, {})
  const KICKED := Ring(Some(5), true, [], map[0 := map[]], {0}, {5})
  const ACTIVE := Ring(Some(5), true, [Listed(0, 7)], map[0 := map[5 := 7]], {0}, {5})

  lemma WitnessSteps(closing: Closing)
    ensures HandleMessage(INITIAL, NewEpoll(0, map[])) == Some(EPOLL_MADE)
    ensures HandleMessage(EPOLL_MADE, NewKick(Some(5), closing)) == Some(KICKED)
    ensures HandleMessage(KICKED, Activation(0, 7)) == Some(ACTIVE)
  {
    assert Perform(INITIAL, Create(0, map[])).0 == EPOLL_MADE;
    var swapped := EPOLL_MADE.(kick := Some(5), fds := {5});
    assert EPOLL_MADE.fds + {5} == {5};
    assert SetKick(EPOLL_MADE, Some(5), closing) == (swapped, true);
    assert Start(swapped) == (KICKED, true);
    assert KICKED.tables[0 := map[][5 := 7]] == ACTIVE.tables;
    assert EpollAdd(KICKED.tables, 0, 5, 7) == Some(ACTIVE.tables);
    assert Prune(KICKED.epolls, KICKED.live) + [Listed(0, 7)] == ACTIVE.epolls;
    assert RegisterSelf(KICKED, 0, 7) == (ACTIVE, true);
  }

  /** Kick 5 arrives, and the device's worker with epoll instance 0 starts. */
  lemma ActiveRing() returns (run: seq<Message>)
    ensures run == [NewEpoll(0, map[]), NewKick(Some(5), Closed), Activation(0, 7)]
    ensures PermittedRun(INITIAL, run) && HandleMessages(INITIAL, run) == Some(ACTIVE) && Registered(ACTIVE)
  {
    WitnessSteps(Closed);
    OneMoreMessage(INITIAL, [], NewEpoll(0, map[]));
    run := [] + [NewEpoll(0, map[])];
    assert HandleMessages(INITIAL, run) == Some(EPOLL_MADE);
    OneMoreMessage(INITIAL, run, NewKick(Some(5), Closed));
    run := run + [NewKick(Some(5), Closed)];
    assert HandleMessages(INITIAL, run) == Some(KICKED);
    OneMoreMessage(INITIAL, run, Activation(0, 7));
    run := run + [Activation(0, 7)];
  }

  const LISTENING := Ring(None, false, [Listed(0, 7)], map[0 := map[]], {0}, {})

  /** A worker that registers with a ring before its kick arrives is woken by that kick. */
  lemma LateKickIsWatched(closing: Closing)
    ensures HandleMessages(INITIAL, [NewEpoll(0, map[]), Activation(0, 7), NewKick(Some(5), closing)]) == Some(ACTIVE)
  {
    hide HandleMessages, HandleMessage;
    WitnessSteps(closing);
    RegisteredWithoutKick(closing);
    assert HandleMessages(ACTIVE, []) == Some(ACTIVE) by { NoMessages(ACTIVE); }
    FirstOf(LISTENING, NewKick(Some(5), closing), []);
    FirstOf(EPOLL_MADE, Activation(0, 7), [NewKick(Some(5), closing)]);
    FirstOf(INITIAL, NewEpoll(0, map[]), [Activation(0, 7), NewKick(Some(5), closing)]);
    assert [NewKick(Some(5), closing)] + [] == [NewKick(Some(5), closing)];
    assert [Activation(0, 7)] + [NewKick(Some(5), closing)] == [Activation(0, 7), NewKick(Some(5), closing)];
    assert [NewEpoll(0, map[])] + [Activation(0, 7), NewKick(Some(5), closing)]
        == [NewEpoll(0, map[]), Activation(0, 7), NewKick(Some(5), closing)];
  }

  lemma NoMessages(r: Ring)
    ensures HandleMessages(r, []) == Some(r)
  {
  }

  lemma FirstOf(r: Ring, m: Message, rest: seq<Message>)
    requires HandleMessage(r, m).Some?
    ensures HandleMessages(r, [m] + rest) == HandleMessages(HandleMessage(r, m).value, rest)
  {
    hide HandleMessage;
    assert ([m] + rest)[1..] == rest;
  }

  lemma RegisteredWithoutKick(closing: Closing)
    ensures HandleMessage(EPOLL_MADE, Activation(0, 7)) == Some(LISTENING)
    ensures HandleMessage(LISTENING, NewKick(Some(5), closing)) == Some(ACTIVE)
  {
    assert Prune([], {0}) + [Listed(0, 7)] == [Listed(0, 7)];
    assert RegisterSelf(EPOLL_MADE, 0, 7) == (LISTENING, true);
    var swapped := LISTENING.(kick := Some(5), fds := {5});
    assert LISTENING.fds + {5} == {5};
    assert SetKick(LISTENING, Some(5), closing) == (swapped, true);
    assert swapped.tables[0 := map[][5 := 7]] == ACTIVE.tables;
    assert EpollAdd(swapped.tables, 0, 5, 7) == Some(ACTIVE.tables);
    assert UpdateOne(swapped.tables, Listed(0, 7), None, true, Some(5)) == (ACTIVE.tables, true);
    assert [Listed(0, 7)][1..] == [];
    assert UpdateEpolls(swapped.tables, {0}, [Listed(0, 7)], None, true, Some(5)) == (ACTIVE.tables, true);
    assert Start(swapped) == (ACTIVE, true);
  }

  /** If an instance outlives the reset of its device, a second reset or a request for the ring base
      panics: a run from a new ring that gets there. */
  lemma SecondResetPanics(last: Message) returns (run: seq<Message>)
    requires last.Reset? || last.GetBase?
    ensures PermittedRun(INITIAL, run + [last])
    ensures HandleMessages(INITIAL, run).Some? && HandleMessages(INITIAL, run + [last]).None?
  {
    hide PermittedRun, HandleMessages, HandleMessage, Registered, Stale;
    run := ActiveRing();
    OneMoreMessage(INITIAL, run, Reset({0}));
    ActiveIsReset();
    run := run + [Reset({0})];
    OneMoreMessage(INITIAL, run, last);
    StaleRingPanics(HandleMessages(INITIAL, run).value, last);
  }

  lemma StaleRingPanics(r: Ring, m: Message)
    requires Registered(r) && Stale(r) && (m.Reset? || m.GetBase?)
    ensures HandleMessage(r, m).None?
  {
    RegisteredRing(r);
    MessagePanicsIff(r, m);
  }

  lemma ActiveIsReset()
    requires Registered(ACTIVE)
    ensures HandleMessage(ACTIVE, Reset({0})).Some?
    ensures var r := HandleMessage(ACTIVE, Reset({0})).value; Registered(r) && Stale(r)
  {
    assert ACTIVE.epolls[0].epoll in ACTIVE.live;
    ResetPanicsIff(ACTIVE, {0});
  }

  /** A second kick for a ring that a worker listens to panics, unless something else holds the first
      one open: a run from a new ring without any reset. The ring then has the new kick while the
      instance still watches the old one, or, if that is closed everywhere, nothing. */
  lemma SecondKickPanics(closing: Closing) returns (run: seq<Message>)
    requires !closing.Held?
    ensures PermittedRun(INITIAL, run + [NewKick(Some(6), closing)])
    ensures HandleMessages(INITIAL, run) == Some(ACTIVE)
    ensures HandleMessages(INITIAL, run + [NewKick(Some(6), closing)]).None?
    ensures var (broken, ok) := SetKick(ACTIVE, Some(6), closing);
            && !ok && broken.ready && broken.kick == Some(6) && !Registered(broken)
            && Watched(broken.tables, 0) == if closing.Closed? then map[5 := 7] else map[]
  {
    run := ActiveRing();
    assert ACTIVE.epolls[0].epoll in ACTIVE.live;
    assert Opened(ACTIVE, 6);
    OneMoreMessage(INITIAL, run, NewKick(Some(6), closing));
    SetVringKickPanicsIff(ACTIVE, Some(6), closing);
    SetKickKeepsRegistration(ACTIVE, Some(6), closing);
    ForgetsOneFd(ACTIVE.tables, 5, 0);
  }

  // ---- the objects ----

  class Epolls {
    var tables: Tables
    var live: set<EpollId>

    constructor ()
      ensures tables == map[] && live == {}
    {
      tables, live := map[], {};
    }

    method Add(e: EpollId, fd: Fd, token: Token) returns (ok: bool)
      modifies this`tables
      ensures ok <==> EpollAdd(old(tables), e, fd, token).Some?
      ensures tables == EpollAdd(old(tables), e, fd, token).GetOr(old(tables))
    {
      var added := EpollAdd(tables, e, fd, token);
      tables := added.GetOr(tables);
      return added.Some?;
    }

    /** The kernel's part in closing a descriptor. */
    method Close(fd: Fd, closing: Closing)
      modifies this`tables
      ensures tables == if closing.Forgotten? then Forget(old(tables), fd) else old(tables)
    {
      if closing.Forgotten? {
        tables := Forget(tables, fd);
      }
    }

    method Delete(e: EpollId, fd: Fd) returns (ok: bool)
      modifies this`tables
      ensures ok <==> EpollDelete(old(tables), e, fd).Some?
      ensures tables == EpollDelete(old(tables), e, fd).GetOr(old(tables))
    {
      var deleted := EpollDelete(tables, e, fd);
      tables := deleted.GetOr(tables);
      return deleted.Some?;
    }
  }

  class Vring {
    const kernel: Epolls
    var kick: Option<Fd>
    var ready: bool
    var epolls: seq<Listed>
    ghost var fds: set<Fd>

    ghost function State(): Ring
      reads this, kernel
    {
      Ring(kick, ready, epolls, kernel.tables, kernel.live, fds)
    }

    constructor (kernel: Epolls)
      ensures this.kernel == kernel
      ensures State() == INITIAL.(tables := kernel.tables, live := kernel.live)
    {
      this.kernel := kernel;
      kick, ready, epolls, fds := None, false, [], {};
    }

    method UpdateEpollsLoop(oldKick: Option<Fd>, open: bool, newKick: Option<Fd>) returns (ok: bool)
      modifies kernel`tables
      ensures (kernel.tables, ok) == UpdateEpolls(old(kernel.tables), kernel.live, epolls, oldKick, open, newKick)
    {
      var i := 0;
      while i < |epolls|
        invariant i <= |epolls|
        invariant UpdateEpolls(old(kernel.tables), kernel.live, epolls, oldKick, open, newKick)
               == UpdateEpolls(kernel.tables, kernel.live, epolls[i..], oldKick, open, newKick)
      {
        var l := epolls[i];
        assert epolls[i..][0] == l && epolls[i..][1..] == epolls[i + 1..];
        if l.epoll in kernel.live {
          if oldKick.Some? {
            if !open {
              return false;
            }
            var deleted := kernel.Delete(l.epoll, oldKick.value);
            if !deleted {
              return false;
            }
          }
          if newKick.Some? {
            var added := kernel.Add(l.epoll, newKick.value, l.token);
            if !added {
              return false;
            }
          }
        }
        i := i + 1;
      }
      return true;
    }

    method StopRing() returns (ok: bool)
      modifies this`ready, kernel`tables
      ensures (State(), ok) == Stop(old(State()))
    {
      if kick.Some? {
        var updated := UpdateEpollsLoop(kick, true, None);
        if !updated {
          return false;
        }
      }
      ready := false;
      return true;
    }

    method StartRing() returns (ok: bool)
      modifies this`ready, kernel`tables
      ensures (State(), ok) == Start(old(State()))
    {
      ready := true;
      ok := UpdateEpollsLoop(None, true, kick);
    }

    /** The old kick is let go of before the registrations are updated. */
    method SetKickFd(newKick: Option<Fd>, closing: Closing) returns (ok: bool)
      modifies this`kick, this`fds, kernel`tables
      ensures (State(), ok) == SetKick(old(State()), newKick, closing)
    {
      var oldKick := kick;
      kick := newKick;
      fds := fds + if newKick.Some? then {newKick.value} else {};
      if oldKick.Some? {
        kernel.Close(oldKick.value, closing);
      }
      if ready {
        ok := UpdateEpollsLoop(oldKick, closing.Held?, newKick);
      } else {
        ok := true;
      }
    }

    method Register(e: EpollId, token: Token) returns (ok: bool)
      modifies this`epolls, kernel`tables
      ensures (State(), ok) == RegisterSelf(old(State()), e, token)
    {
      if kick.Some? {
        var added := kernel.Add(e, kick.value, token);
        if !added {
          return false;
        }
      }
      epolls := Prune(epolls, kernel.live);
      epolls := epolls + [Listed(e, token)];
      return true;
    }

    method Unregister(e: EpollId) returns (ok: bool)
      modifies this`epolls, kernel`tables
      ensures (State(), ok) == UnregisterSelf(old(State()), e)
    {
      epolls := Prune(epolls, kernel.live - {e});
      if kick.Some? {
        var deleted := kernel.Delete(e, kick.value);
        return deleted;
      }
      return true;
    }
  }
}
