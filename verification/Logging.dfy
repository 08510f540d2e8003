/** Which regions of guest memory log their writes. A log is installed in the regions that exist when it
    arrives; a region made later starts without one. */
module Logging {
  import opened Wrappers
  import DL = DirtyLog
  import MM = MemoryMap

  /** `logged` are the regions with a bitmap installed. */
  datatype Tracked = Tracked(memory: MM.Memory, logged: set<MM.Region>)

  /** A message for the memory, or a new log of `len` bytes; `mapped` says whether mapping it succeeds. */
  datatype Message = OnMemory(m: MM.Message) | SetLogBase(len: nat, mapped: bool)

  const NEW := Tracked(MM.Memory([], []), {})

  predicate HasBitmap(r: MM.Region, logLen: nat) {
    r.base <= DL.USIZE_MAX && r.size <= DL.USIZE_MAX && DL.NewBitmap(r.base, r.size, logLen).Some?
  }

  /** All bitmaps are made before any is installed, so a log is accepted for all regions or for none. */
  predicate AcceptsLog(t: Tracked, len: nat, mapped: bool) {
    mapped && forall r :: r in t.memory.regions ==> HasBitmap(r, len)
  }

  /** A log is accepted exactly if it can be mapped and holds a bit for every byte of guest memory. */
  lemma AcceptsLogIff(t: Tracked, len: nat, mapped: bool)
    requires MM.Agree(t.memory)
    ensures AcceptsLog(t, len, mapped) <==>
              mapped && forall r, a :: r in t.memory.regions && r.base <= a < r.base + r.size ==> DL.HasBit(a, len)
  {
    hide DL.NewBitmap, DL.HasBit;
    forall r | r in t.memory.regions
      ensures HasBitmap(r, len) <==> forall a :: r.base <= a < r.base + r.size ==> DL.HasBit(a, len)
    {
      DL.NewBitmapIff(r.base, r.size, len);
    }
  }

  function RegionsOf(m: MM.Memory): set<MM.Region> {
    set r | r in m.regions
  }

  function Handle(t: Tracked, message: Message): Tracked {
    match message
    case SetLogBase(len, mapped) =>
      if AcceptsLog(t, len, mapped) then t.(logged := RegionsOf(t.memory)) else t
    case OnMemory(m) =>
      var (memory, ok) := MM.Handle(t.memory, m);
      if !ok then t
      else
        match m
        case SetTable(_, _) => Tracked(memory, {})
        case Add(_) => Tracked(memory, t.logged)
        case Remove(a) => Tracked(memory, t.logged - {MM.Region(a.guestPhysAddr, a.memorySize)})
  }

  function After(t: Tracked, run: seq<Message>): Tracked
    decreases |run|
  {
    if run == [] then t else Handle(After(t, run[..|run| - 1]), run[|run| - 1])
  }

  /** Message `k` installs a log in every region. */
  predicate LogsAt(t: Tracked, run: seq<Message>, k: nat) {
    k < |run| && run[k].SetLogBase? && AcceptsLog(After(t, run[..k]), run[k].len, run[k].mapped)
  }

  /** Message `k` makes a region anew: it is an accepted table, or adds the region. */
  predicate MakesAt(t: Tracked, run: seq<Message>, k: nat, r: MM.Region) {
    k < |run| && run[k].OnMemory? &&
    MM.Handle(After(t, run[..k]).memory, run[k].m).1 &&
    match run[k].m
    case SetTable(_, _) => true
    case Add(a) => MM.NewRegion(a) == Some(r)
    case Remove(_) => false
  }

  /** A log was installed before message `n`, and the region was not made anew since. */
  ghost predicate LoggedBefore(t: Tracked, run: seq<Message>, n: nat, r: MM.Region) {
    exists j :: 0 <= j < n && LogsAt(t, run, j) && forall k :: j < k < n ==> !MakesAt(t, run, k, r)
  }

  lemma PrefixSaysTheSame(t: Tracked, run: seq<Message>, r: MM.Region)
    requires run != []
    ensures LoggedBefore(t, run[..|run| - 1], |run| - 1, r) <==> LoggedBefore(t, run, |run| - 1, r)
  {
    var n, before := |run| - 1, run[..|run| - 1];
    forall k | 0 <= k < n
      ensures LogsAt(t, before, k) <==> LogsAt(t, run, k)
      ensures MakesAt(t, before, k, r) <==> MakesAt(t, run, k, r)
    {
      assert before[..k] == run[..k];
    }
  }

  lemma OneMoreMessage(t: Tracked, run: seq<Message>, n: nat, r: MM.Region)
    ensures LoggedBefore(t, run, n + 1, r) <==>
              LogsAt(t, run, n) || (LoggedBefore(t, run, n, r) && !MakesAt(t, run, n, r))
  {
    hide LogsAt, MakesAt;
    if LoggedBefore(t, run, n, r) && !MakesAt(t, run, n, r) {
      var j :| 0 <= j < n && LogsAt(t, run, j) && forall k :: j < k < n ==> !MakesAt(t, run, k, r);
      assert forall k :: j < k < n + 1 ==> !MakesAt(t, run, k, r);
    }
  }

  /** Present regions are made by some message. */
  lemma PresentOrMade(m: MM.Memory, message: MM.Message, r: MM.Region)
    requires MM.Agree(m) && MM.Handle(m, message).1 && r in MM.Handle(m, message).0.regions && !message.SetTable?
    ensures r in m.regions || (message.Add? && MM.NewRegion(message.region) == Some(r))
    ensures message.Remove? ==> r != MM.Region(message.region.guestPhysAddr, message.region.memorySize)
  {
    match message
    case Add(a) =>
      assert r in multiset(MM.InsertSorted(m.regions, MM.NewRegion(a).value));
    case Remove(a) =>
      var i := MM.IndexOfBase(m.regions, a.guestPhysAddr).value;
      var rest := MM.Without(m.regions, i);
      assert r in multiset(rest);
      MM.OneRegionPerBase(m.regions, i, r);
  }

  lemma AddedWasAbsent(m: MM.Memory, a: MM.Announced, r: MM.Region)
    requires MM.Agree(m) && MM.AddMemRegion(m, a).1 && MM.NewRegion(a) == Some(r)
    ensures r !in m.regions
  {
    MM.AddMemRegionAcceptedIff(m, a);
    forall i | 0 <= i < |m.regions| ensures m.regions[i] != r {
      assert MM.Apart(r, m.regions[i]);
    }
  }

  /** One message, for a region that is present afterwards. */
  lemma HandleLogsIff(t: Tracked, message: Message, r: MM.Region)
    requires MM.Agree(t.memory) && t.logged <= RegionsOf(t.memory) && r in Handle(t, message).memory.regions
    ensures r in Handle(t, message).logged <==>
              match message
              case SetLogBase(len, mapped) => AcceptsLog(t, len, mapped) || r in t.logged
              case OnMemory(m) =>
                r in t.logged
                && !(MM.Handle(t.memory, m).1 && (m.SetTable? || (m.Add? && MM.NewRegion(m.region) == Some(r))))
  {
    hide MM.SetMemTable, MM.RemoveMemRegion, MM.Agree;
    if message.OnMemory? && MM.Handle(t.memory, message.m).1 && !message.m.SetTable? {
      PresentOrMade(t.memory, message.m, r);
      if message.m.Add? && MM.NewRegion(message.m.region) == Some(r) {
        AddedWasAbsent(t.memory, message.m.region, r);
      }
    }
  }

  lemma LoggedArePresent(t: Tracked, message: Message)
    requires MM.Agree(t.memory) && t.logged <= RegionsOf(t.memory)
    ensures var t' := Handle(t, message); MM.Agree(t'.memory) && t'.logged <= RegionsOf(t'.memory)
  {
    if message.OnMemory? {
      MM.HandleAgrees(t.memory, message.m);
      if MM.Handle(t.memory, message.m).1 {
        match message.m
        case SetTable(_, _) =>
        case Add(a) =>
          forall r | r in t.logged ensures r in MM.Handle(t.memory, message.m).0.regions {
            assert r in multiset(MM.InsertSorted(t.memory.regions, MM.NewRegion(a).value));
          }
        case Remove(a) => RemovedIsGone(t.memory, a);
      }
    }
  }

  lemma RemovedIsGone(m: MM.Memory, a: MM.Announced)
    requires MM.Agree(m) && MM.RemoveMemRegion(m, a).1
    ensures forall r :: r in m.regions && r != MM.Region(a.guestPhysAddr, a.memorySize) ==>
                          r in MM.RemoveMemRegion(m, a).0.regions
  {
    hide MM.Retain, MM.Agree, MM.IndexOfBase;
    var i := MM.IndexOfBase(m.regions, a.guestPhysAddr).value;
    var rest := MM.RemoveMemRegion(m, a).0.regions;
    assert rest == m.regions[..i] + m.regions[i + 1..];
    forall r | r in m.regions && r != MM.Region(a.guestPhysAddr, a.memorySize) ensures r in rest {
      var j :| 0 <= j < |m.regions| && m.regions[j] == r;
      assert rest[if j < i then j else j - 1] == r;
    }
  }

  /** After any run, a present region logs its writes exactly if a log was installed after the region was
      last made: by a table, or by being added. */
  lemma {:induction false} LogsIff(run: seq<Message>, r: MM.Region)
    ensures var t := After(NEW, run);
            && MM.Agree(t.memory) && t.logged <= RegionsOf(t.memory)
            && (r in t.memory.regions ==> (r in t.logged <==> LoggedBefore(NEW, run, |run|, r)))
    decreases |run|
  {
    hide Handle, LogsAt, MakesAt, LoggedBefore, MM.Agree, MM.Handle;
    if run == [] {
      NothingLogged(r);
    } else {
      var n, before := |run| - 1, After(NEW, run[..|run| - 1]);
      LogsIff(run[..n], r);
      LoggedArePresent(before, run[n]);
      PrefixSaysTheSame(NEW, run, r);
      OneMoreMessage(NEW, run, n, r);
      if r in Handle(before, run[n]).memory.regions {
        LastMessage(run, r);
      }
    }
  }

  lemma NothingLogged(r: MM.Region)
    ensures MM.Agree(NEW.memory) && After(NEW, []) == NEW && !LoggedBefore(NEW, [], 0, r)
  {
  }

  lemma LastMessage(run: seq<Message>, r: MM.Region)
    requires run != [] && r in After(NEW, run).memory.regions
    requires var before := After(NEW, run[..|run| - 1]);
             MM.Agree(before.memory) && before.logged <= RegionsOf(before.memory)
    ensures var n, before := |run| - 1, After(NEW, run[..|run| - 1]);
            && (r in After(NEW, run).logged <==>
                  LogsAt(NEW, run, n) || (r in before.logged && !MakesAt(NEW, run, n, r)))
            && (!LogsAt(NEW, run, n) && !MakesAt(NEW, run, n, r) ==> r in before.memory.regions)
  {
    hide MM.Agree;
    var before, message := After(NEW, run[..|run| - 1]), run[|run| - 1];
    HandleLogsIff(before, message, r);
    if message.OnMemory? && MM.Handle(before.memory, message.m).1 && !message.m.SetTable? {
      PresentOrMade(before.memory, message.m, r);
    } else if message.OnMemory? {
      MM.HandleAgrees(before.memory, message.m);
    }
  }

  /** Hence all of memory is logged exactly if that holds of every region. */
  lemma AllLogIff(run: seq<Message>)
    ensures var t := After(NEW, run);
            (forall r :: r in t.memory.regions ==> r in t.logged) <==>
              forall r :: r in t.memory.regions ==> LoggedBefore(NEW, run, |run|, r)
  {
    hide After, LoggedBefore, MM.Agree;
    var t := After(NEW, run);
    forall r ensures r in t.memory.regions ==> (r in t.logged <==> LoggedBefore(NEW, run, |run|, r)) {
      LogsIff(run, r);
    }
  }

  // ---- a region that is never logged ----

  const FIRST := MM.Announced(0, 0x1000, 0, true)
  const LATER := MM.Announced(0x1000, 0x1000, 0x1000, true)
  const R0 := MM.Region(0, 0x1000)
  const R1 := MM.Region(0x1000, 0x1000)

  lemma Steps()
    ensures MM.Handle(NEW.memory, MM.SetTable([FIRST], 1)) == (MM.Memory([MM.MappingOf(FIRST)], [R0]), true)
    ensures MM.Handle(MM.Memory([MM.MappingOf(FIRST)], [R0]), MM.Add(LATER))
         == (MM.Memory([MM.MappingOf(FIRST), MM.MappingOf(LATER)], [R0, R1]), true)
  {
    assert [FIRST][..0] == [] && MM.Build([]) == Some(MM.Memory([], []));
    var built := MM.Build([FIRST]);
    assert built.Some? && built.value.mappings == [MM.MappingOf(FIRST)] && built.value.regions == [R0];
    assert MM.InsertSorted([R0], R1) == [R0, R1];
    assert [MM.MappingOf(FIRST)] + [MM.MappingOf(LATER)] == [MM.MappingOf(FIRST), MM.MappingOf(LATER)];
  }

  /** A table of one page, a log that covers all of memory, and a region added later, which the log would
      cover too: its writes are not logged. */
  lemma LateRegionIsNotLogged()
    ensures var run := [OnMemory(MM.SetTable([FIRST], 1)), SetLogBase(1, true), OnMemory(MM.Add(LATER))];
            var t := After(NEW, run);
            t.memory.regions == [R0, R1] && HasBitmap(R1, 1) && t.logged == {R0}
  {
    hide MM.Handle;
    Steps();
    var run := [OnMemory(MM.SetTable([FIRST], 1)), SetLogBase(1, true), OnMemory(MM.Add(LATER))];
    var t1 := Tracked(MM.Memory([MM.MappingOf(FIRST)], [R0]), {});
    var t2 := t1.(logged := {R0});
    assert run[..1] == [run[0]] && run[..1][..0] == [] && run[..2][..1] == run[..1] && run[..2][1] == run[1];
    assert After(NEW, run[..1]) == t1;
    assert RegionsOf(t1.memory) == {R0};
    assert Handle(t1, run[1]) == t2;
    assert After(NEW, run[..2]) == t2;
  }
}
