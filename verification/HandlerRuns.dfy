/** Runs of a handler, from its start, that show where activation and the kicks of its rings go wrong. */
module HandlerRuns {
  import opened Activation
  import opened Wrappers
  import MM = MemoryMap
  import SR = SharedRings
  import VK = VringKick

  function NewHandler(rings: nat): Handler {
    Handler(MM.Memory([], []), false, SR.Rings(seq(rings, _ => SR.NEW_PART), map[], {}), false)
  }

  lemma Extend(h: Handler, run: seq<Message>, now: Handler, message: Message) returns (longer: seq<Message>)
    requires HandleAll(h, run) == Some(now)
    ensures longer == run + [message] && HandleAll(h, longer) == Handle(now, message)
  {
    longer := run + [message];
    assert longer[..|run|] == run;
  }

  lemma ExtendOnRing(h: Handler, run: seq<Message>, now: Handler, i: nat, m: VK.Message, rings: SR.Rings)
    returns (longer: seq<Message>)
    requires HandleAll(h, run) == Some(now) && SR.Handle(now.rings, i, m) == Some(rings)
    ensures longer == run + [OnRing(i, m)]
    ensures HandleAll(h, longer)
         == Some(now.(rings := rings, activated := now.activated || (now.memoryUpdated && StartsRing(now.rings, i, m))))
  {
    hide SR.Handle, HandleAll;
    longer := Extend(h, run, now, OnRing(i, m));
  }

  lemma ExtendWithTable(h: Handler, run: seq<Message>, now: Handler, a: MM.Announced) returns (longer: seq<Message>)
    requires HandleAll(h, run) == Some(now) && MM.NewRegion(a).Some?
    ensures longer == run + [OnMemory(MM.SetTable([a], 1))]
    ensures HandleAll(h, longer)
         == Some(now.(memory := MM.Memory([MM.MappingOf(a)], [MM.NewRegion(a).value]), memoryUpdated := true))
  {
    hide MM.Handle, HandleAll;
    TableOfOne(a, now.memory);
    longer := Extend(h, run, now, OnMemory(MM.SetTable([a], 1)));
  }

  /** A frontend that announces memory region by region and then starts its ring: the ring runs, but the
      device is not activated, and a table that comes later does not activate it either. */
  lemma AddedMemoryDoesNotActivate(a: MM.Announced) returns (run: seq<Message>, end: Handler)
    requires MM.NewRegion(a).Some?
    ensures run == [OnMemory(MM.Add(a)), OnRing(0, VK.NewKick(Some(5), VK.Closed)), OnMemory(MM.SetTable([a], 1))]
    ensures HandleAll(NewHandler(1), run) == Some(end)
    ensures end.rings.parts == [Started(5)] && end.memoryUpdated && !end.activated && |end.memory.regions| == 1
  {
    hide HandleAll, SR.Handle, MM.Handle, MM.NewRegion;
    var h := NewHandler(1);
    var memory := MM.Memory([MM.MappingOf(a)], [MM.NewRegion(a).value]);
    AddOfOne(a, memory);
    KickStarts(h.rings, 0, 5);
    Nothing(h);
    run := Extend(h, [], h, OnMemory(MM.Add(a)));
    var h1 := h.(memory := memory);
    assert h.rings.parts[0 := Started(5)] == [Started(5)];
    run := ExtendOnRing(h, run, h1, 0, VK.NewKick(Some(5), VK.Closed), SR.Rings([Started(5)], map[], {}));
    run := ExtendWithTable(h, run, h1.(rings := SR.Rings([Started(5)], map[], {})), a);
    end := HandleAll(h, run).value;
  }

  lemma Nothing(h: Handler)
    ensures HandleAll(h, []) == Some(h)
  {
  }

  /** A part that has just been started with its first kick. */
  function Started(fd: VK.Fd): SR.Part {
    SR.Part(Some(fd), true, [], {fd})
  }

  lemma KickStarts(rings: SR.Rings, i: nat, fd: VK.Fd)
    requires i < |rings.parts| && rings.parts[i] == SR.NEW_PART
    ensures SR.Handle(rings, i, VK.NewKick(Some(fd), VK.Closed)) == Some(rings.(parts := rings.parts[i := Started(fd)]))
  {
    var r := SR.View(rings, i);
    assert {} + {fd} == {fd};
    var kicked := r.(kick := Some(fd), fds := {fd});
    assert VK.SetKick(r, Some(fd), VK.Closed) == (kicked, true);
    assert VK.Start(kicked) == (kicked.(ready := true), true);
    SR.HandleIs(rings, i, VK.NewKick(Some(fd), VK.Closed), kicked.(ready := true),
                rings.(parts := rings.parts[i := Started(fd)]));
  }

  lemma EpollIsMade(rings: SR.Rings, made: SR.Rings)
    requires rings.parts != [] && rings.tables == map[] && rings.live == {}
    requires made == rings.(tables := map[0 := map[]], live := {0})
    ensures SR.Handle(rings, 0, VK.NewEpoll(0, map[])) == Some(made)
  {
    var r := SR.View(rings, 0);
    assert r.tables[0 := map[]] == made.tables && r.live + {0} == made.live;
    SR.HandleIs(rings, 0, VK.NewEpoll(0, map[]), r.(tables := made.tables, live := made.live), made);
  }

  lemma AddOfOne(a: MM.Announced, memory: MM.Memory)
    requires MM.NewRegion(a).Some? && memory == MM.Memory([MM.MappingOf(a)], [MM.NewRegion(a).value])
    ensures MM.Handle(MM.Memory([], []), MM.Add(a)) == (memory, true)
  {
    assert MM.InsertSorted([], MM.NewRegion(a).value) == memory.regions;
    assert [] + [MM.MappingOf(a)] == memory.mappings;
  }

  lemma TableOfOne(a: MM.Announced, before: MM.Memory)
    requires MM.NewRegion(a).Some?
    ensures MM.Handle(before, MM.SetTable([a], 1)) == (MM.Memory([MM.MappingOf(a)], [MM.NewRegion(a).value]), true)
  {
    var built, memory := MM.Build([a]), MM.Memory([MM.MappingOf(a)], [MM.NewRegion(a).value]);
    assert [a][..0] == [] && [a][0] == a;
    assert MM.Build([]) == Some(MM.Memory([], []));
    assert built.Some? && built.value.mappings == memory.mappings && built.value.regions == memory.regions;
    assert built == Some(memory);
  }

  /** A device that was activated and then reset: its worker is gone, a new call descriptor starts the
      ring again, but nothing activates the device any more. */
  lemma ResetEndsTheDevice(a: MM.Announced) returns (run: seq<Message>, end: Handler)
    requires MM.NewRegion(a).Some?
    ensures run == [OnMemory(MM.SetTable([a], 1)), OnRing(0, VK.NewKick(Some(5), VK.Closed)),
                    OnRing(0, VK.NewEpoll(0, map[])), OnRing(0, VK.Activation(0, 7)),
                    OnRing(0, VK.Reset({})), OnRing(0, VK.NewCall)]
    ensures HandleAll(NewHandler(1), run) == Some(end) && |end.memory.regions| == 1
    ensures end.rings.parts == [SR.Part(Some(5), true, [VK.Listed(0, 7)], {5})] && end.rings.live == {}
    ensures forall more: seq<Message>, j :: |run| <= j < |run + more| ==> !ActivatesAt(NewHandler(1), run + more, j)
  {
    hide HandleAll, SR.Handle, MM.Handle, MM.NewRegion, ActivatesAt;
    var h := NewHandler(1);
    Nothing(h);
    run := ExtendWithTable(h, [], h, a);
    var h1 := HandleAll(h, run).value;
    KickStarts(h.rings, 0, 5);
    assert h.rings.parts[0 := Started(5)] == [Started(5)];
    var started, listening := SR.Rings([Started(5)], map[], {}), SR.Rings([Started(5)], map[0 := map[]], {0});
    run := ExtendOnRing(h, run, h1, 0, VK.NewKick(Some(5), VK.Closed), started);
    EpollIsMade(started, listening);
    run := ExtendOnRing(h, run, HandleAll(h, run).value, 0, VK.NewEpoll(0, map[]), listening);
    RegistersActive();
    run := ExtendOnRing(h, run, HandleAll(h, run).value, 0, VK.Activation(0, 7), ACTIVE);
    StopsActive();
    run := ExtendOnRing(h, run, HandleAll(h, run).value, 0, VK.Reset({}), STOPPED);
    RestartsStopped();
    run := ExtendOnRing(h, run, HandleAll(h, run).value, 0, VK.NewCall, STOPPED.(parts := ACTIVE.parts));
    end := HandleAll(h, run).value;
    forall more: seq<Message>, j | |run| <= j < |run + more| ensures !ActivatesAt(h, run + more, j) {
      KickActivates(a, run + more);
      ActivatedOnce(h, run + more, 1, j);
    }
  }

  /** A table and then a kick: the second message activates the device. */
  lemma KickActivates(a: MM.Announced, run: seq<Message>)
    requires MM.NewRegion(a).Some? && |run| >= 2
    requires run[0] == OnMemory(MM.SetTable([a], 1)) && run[1] == OnRing(0, VK.NewKick(Some(5), VK.Closed))
    ensures ActivatesAt(NewHandler(1), run, 1)
  {
    hide HandleAll, MM.Handle, MM.NewRegion;
    Nothing(NewHandler(1));
    var first := ExtendWithTable(NewHandler(1), [], NewHandler(1), a);
    assert run[..1] == first;
  }

  const ACTIVE := SR.Rings([SR.Part(Some(5), true, [VK.Listed(0, 7)], {5})], map[0 := map[5 := 7]], {0})
  const STOPPED := SR.Rings([SR.Part(Some(5), false, [VK.Listed(0, 7)], {5})], map[0 := map[]], {})

  lemma RegistersActive()
    ensures SR.Handle(SR.Rings([Started(5)], map[0 := map[]], {0}), 0, VK.Activation(0, 7)) == Some(ACTIVE)
  {
    var r := VK.Ring(Some(5), true, [], map[0 := map[]], {0}, {5});
    assert r.tables[0 := map[][5 := 7]] == ACTIVE.tables;
    assert VK.EpollAdd(r.tables, 0, 5, 7) == Some(ACTIVE.tables);
    assert VK.Prune([], {0}) + [VK.Listed(0, 7)] == [VK.Listed(0, 7)];
    assert VK.RegisterSelf(r, 0, 7) == (SR.View(ACTIVE, 0), true);
    SR.HandleIs(SR.Rings([Started(5)], map[0 := map[]], {0}), 0, VK.Activation(0, 7), SR.View(ACTIVE, 0), ACTIVE);
  }

  lemma StopsActive()
    ensures SR.Handle(ACTIVE, 0, VK.Reset({})) == Some(STOPPED)
  {
    var r := SR.View(ACTIVE, 0);
    assert map[5 := 7] - {5} == map[] && ACTIVE.tables[0 := map[]] == STOPPED.tables;
    assert VK.EpollDelete(r.tables, 0, 5) == Some(STOPPED.tables);
    assert r.epolls[1..] == [];
    assert VK.UpdateEpolls(STOPPED.tables, {0}, [], Some(5), true, None) == (STOPPED.tables, true);
    assert VK.UpdateEpolls(r.tables, r.live, r.epolls, r.kick, true, None) == (STOPPED.tables, true);
    var stopped := SR.Write(ACTIVE, 0, VK.Stop(r).0);
    assert stopped.parts == STOPPED.parts && stopped == STOPPED.(live := {0});
    assert SR.StopFrom(stopped, 1) == Some(stopped) == SR.StopFrom(ACTIVE, 0);
    assert {0} * {} == {};
  }

  lemma RestartsStopped()
    ensures SR.Handle(STOPPED, 0, VK.NewCall) == Some(STOPPED.(parts := ACTIVE.parts))
  {
    var r := SR.View(STOPPED, 0);
    assert r.epolls[1..] == [];
    assert VK.UpdateEpolls(r.tables, r.live, [], None, true, r.kick) == (r.tables, true);
    assert VK.Start(r) == (r.(ready := true), true);
    SR.HandleIs(STOPPED, 0, VK.NewCall, r.(ready := true), STOPPED.(parts := ACTIVE.parts));
  }

  /** A reset before activation leaves ring 0 stopped with its kick. When ring 1 starts, the device is
      activated and its worker registers with both rings through one epoll instance; the next call
      descriptor for ring 0 panics. No kick is replaced and no instance is alive at the reset. */
  lemma EarlyResetPanics(a: MM.Announced) returns (run: seq<Message>, before: Handler)
    requires MM.NewRegion(a).Some?
    ensures run == [OnRing(0, VK.NewKick(Some(5), VK.Closed)), OnRing(0, VK.Reset({})),
                    OnMemory(MM.SetTable([a], 1)), OnRing(1, VK.NewKick(Some(6), VK.Closed)),
                    OnRing(0, VK.NewEpoll(0, map[])), OnRing(0, VK.Activation(0, 7)), OnRing(1, VK.Activation(0, 8))]
    ensures HandleAll(NewHandler(2), run) == Some(before) && before.activated
    ensures HandleAll(NewHandler(2), run + [OnRing(0, VK.NewCall)]).None?
  {
    hide HandleAll, SR.Handle, MM.Handle, MM.NewRegion;
    var h, kept := NewHandler(2), SR.Part(Some(5), false, [], {5});
    Nothing(h);
    KickStarts(h.rings, 0, 5);
    assert h.rings.parts[0 := Started(5)] == [Started(5), SR.NEW_PART];
    run := ExtendOnRing(h, [], h, 0, VK.NewKick(Some(5), VK.Closed), SR.Rings([Started(5), SR.NEW_PART], map[], {}));
    EarlyReset();
    var reset := SR.Rings([kept, SR.NEW_PART], map[], {});
    run := ExtendOnRing(h, run, HandleAll(h, run).value, 0, VK.Reset({}), reset);
    run := ExtendWithTable(h, run, HandleAll(h, run).value, a);
    KickStarts(reset, 1, 6);
    assert reset.parts[1 := Started(6)] == [kept, Started(6)];
    var started := SR.Rings([kept, Started(6)], map[], {});
    run := ExtendOnRing(h, run, HandleAll(h, run).value, 1, VK.NewKick(Some(6), VK.Closed), started);
    run, before := WorkerRegisters(h, run, HandleAll(h, run).value);
    var longer := Extend(h, run, before, OnRing(0, VK.NewCall));
    WatchedKickPanics(before.rings);
  }

  const EARLY := SR.Part(Some(5), false, [VK.Listed(0, 7)], {5})
  const REGISTERED_BOTH :=
    SR.Rings([EARLY, SR.Part(Some(6), true, [VK.Listed(0, 8)], {6})], map[0 := map[5 := 7, 6 := 8]], {0})

  /** The worker of the activated device makes an epoll instance and registers with both rings. */
  lemma WorkerRegisters(h: Handler, run: seq<Message>, now: Handler) returns (longer: seq<Message>, after: Handler)
    requires HandleAll(h, run) == Some(now) && now.activated
    requires now.rings == SR.Rings([SR.Part(Some(5), false, [], {5}), Started(6)], map[], {})
    ensures longer == run + [OnRing(0, VK.NewEpoll(0, map[])), OnRing(0, VK.Activation(0, 7)),
                             OnRing(1, VK.Activation(0, 8))]
    ensures HandleAll(h, longer) == Some(after) && after.activated && after.rings == REGISTERED_BOTH
  {
    hide HandleAll, SR.Handle;
    var listening := now.rings.(tables := map[0 := map[]], live := {0});
    EpollIsMade(now.rings, listening);
    longer := ExtendOnRing(h, run, now, 0, VK.NewEpoll(0, map[]), listening);
    RegistersEarly(listening);
    var once := SR.Rings([EARLY, Started(6)], map[0 := map[5 := 7]], {0});
    longer := ExtendOnRing(h, longer, HandleAll(h, longer).value, 0, VK.Activation(0, 7), once);
    RegistersSecond(once);
    longer := ExtendOnRing(h, longer, HandleAll(h, longer).value, 1, VK.Activation(0, 8), REGISTERED_BOTH);
    after := HandleAll(h, longer).value;
  }

  lemma WatchedKickPanics(rings: SR.Rings)
    requires rings == REGISTERED_BOTH
    ensures SR.Handle(rings, 0, VK.NewCall).None?
  {
    var r := SR.View(rings, 0);
    assert r.epolls[0].epoll in r.live && 5 in VK.Watched(r.tables, 0);
    VK.SetVringCallPanicsIff(r);
  }

  lemma EarlyReset()
    ensures SR.Handle(SR.Rings([Started(5), SR.NEW_PART], map[], {}), 0, VK.Reset({}))
         == Some(SR.Rings([SR.Part(Some(5), false, [], {5}), SR.NEW_PART], map[], {}))
  {
    var s := SR.Rings([Started(5), SR.NEW_PART], map[], {});
    var s1 := SR.Write(s, 0, VK.Stop(SR.View(s, 0)).0);
    assert s1.parts == [SR.Part(Some(5), false, [], {5}), SR.NEW_PART];
    var s2 := SR.Write(s1, 1, VK.Stop(SR.View(s1, 1)).0);
    assert s2.parts == s1.parts;
    assert SR.StopFrom(s2, 2) == Some(s2) == SR.StopFrom(s1, 1) == SR.StopFrom(s, 0);
    assert s2.live * {} == {};
  }

  lemma RegistersEarly(s: SR.Rings)
    requires s == SR.Rings([SR.Part(Some(5), false, [], {5}), Started(6)], map[0 := map[]], {0})
    ensures SR.Handle(s, 0, VK.Activation(0, 7))
         == Some(SR.Rings([SR.Part(Some(5), false, [VK.Listed(0, 7)], {5}), Started(6)], map[0 := map[5 := 7]], {0}))
  {
    var r := SR.View(s, 0);
    assert r.tables[0 := map[][5 := 7]] == map[0 := map[5 := 7]];
    assert VK.EpollAdd(r.tables, 0, 5, 7) == Some(map[0 := map[5 := 7]]);
    assert VK.Prune([], {0}) + [VK.Listed(0, 7)] == [VK.Listed(0, 7)];
    SR.HandleIs(s, 0, VK.Activation(0, 7), VK.RegisterSelf(r, 0, 7).0,
                SR.Rings([SR.Part(Some(5), false, [VK.Listed(0, 7)], {5}), Started(6)], map[0 := map[5 := 7]], {0}));
  }

  lemma RegistersSecond(s: SR.Rings)
    requires s == SR.Rings([SR.Part(Some(5), false, [VK.Listed(0, 7)], {5}), Started(6)], map[0 := map[5 := 7]], {0})
    ensures SR.Handle(s, 1, VK.Activation(0, 8))
         == Some(SR.Rings([s.parts[0], SR.Part(Some(6), true, [VK.Listed(0, 8)], {6})],
                          map[0 := map[5 := 7, 6 := 8]], {0}))
  {
    var r := SR.View(s, 1);
    assert r.tables[0 := map[5 := 7][6 := 8]] == map[0 := map[5 := 7, 6 := 8]];
    assert VK.EpollAdd(r.tables, 0, 6, 8) == Some(map[0 := map[5 := 7, 6 := 8]]);
    assert VK.Prune([], {0}) + [VK.Listed(0, 8)] == [VK.Listed(0, 8)];
    SR.HandleIs(s, 1, VK.Activation(0, 8), VK.RegisterSelf(r, 0, 8).0,
                SR.Rings([s.parts[0], SR.Part(Some(6), true, [VK.Listed(0, 8)], {6})],
                         map[0 := map[5 := 7, 6 := 8]], {0}));
  }
}
