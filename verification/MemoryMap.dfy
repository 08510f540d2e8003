/** The guest memory known to the vhost-user handler, kept twice: as the sorted regions of the guest
    memory object, and as a list of mappings from the frontend's addresses to guest addresses. */
module MemoryMap {
  import opened Wrappers

  const U64_SIZE: nat := 0x1_0000_0000_0000_0000

  datatype Region = Region(base: nat, size: nat) {
    predicate Contains(address: nat) { base <= address < base + size }
  }

  datatype AddrMapping = AddrMapping(vmmAddr: nat, size: nat, gpaBase: nat) {
    function Guest(): Region { Region(gpaBase, size) }
    predicate Covers(va: nat) { vmmAddr <= va < vmmAddr + size }
  }

  /** A region as announced by the frontend; `mapped` says whether mapping its file succeeds. */
  datatype Announced = Announced(guestPhysAddr: nat, memorySize: nat, userAddr: nat, mapped: bool)

  // ---- the guest memory library ----

  /** Mapping an empty file range fails, and so does a region that ends past the address space. */
  function NewRegion(a: Announced): Option<Region> {
    if !a.mapped || a.memorySize == 0 || a.guestPhysAddr + a.memorySize >= U64_SIZE then None
    else Some(Region(a.guestPhysAddr, a.memorySize))
  }

  /** In plain terms: the file can be mapped, the region is not empty, and it ends within 64 bits. */
  lemma NewRegionIff(a: Announced)
    ensures NewRegion(a).Some? <==>
              a.mapped && a.memorySize > 0 && a.guestPhysAddr + a.memorySize <= 0xffff_ffff_ffff_ffff
    ensures NewRegion(a).Some? ==> NewRegion(a).value == Region(a.guestPhysAddr, a.memorySize)
  {
  }

  predicate SortedApart(regions: seq<Region>) {
    forall i :: 0 <= i < |regions| - 1 ==>
      regions[i].base <= regions[i + 1].base && regions[i].base + regions[i].size <= regions[i + 1].base
  }

  /** `from_regions`: at least one region, sorted and without overlap. */
  predicate Acceptable(regions: seq<Region>) {
    regions != [] && SortedApart(regions)
  }

  function InsertSorted(regions: seq<Region>, r: Region): (s: seq<Region>)
    ensures multiset(s) == multiset(regions) + multiset{r}
  {
    if regions == [] then [r]
    else if regions[|regions| - 1].base <= r.base then regions + [r]
    else
      assert regions == regions[..|regions| - 1] + [regions[|regions| - 1]];
      InsertSorted(regions[..|regions| - 1], r) + [regions[|regions| - 1]]
  }

  function IndexOfBase(regions: seq<Region>, base: nat): (i: Option<nat>)
    ensures i.Some? ==> i.value < |regions| && regions[i.value].base == base
    ensures i.None? ==> forall r :: r in regions ==> r.base != base
  {
    if regions == [] then None
    else if regions[|regions| - 1].base == base then Some(|regions| - 1)
    else
      assert regions == regions[..|regions| - 1] + [regions[|regions| - 1]];
      IndexOfBase(regions[..|regions| - 1], base)
  }

  function RemoveRegion(regions: seq<Region>, base: nat, size: nat): Option<seq<Region>> {
    var i := IndexOfBase(regions, base);
    if i.Some? && regions[i.value].size == size then Some(regions[..i.value] + regions[i.value + 1..]) else None
  }

  // ---- the handler's messages, on values ----

  datatype Memory = Memory(mappings: seq<AddrMapping>, regions: seq<Region>)

  function MappingOf(a: Announced): AddrMapping {
    AddrMapping(a.userAddr, a.memorySize, a.guestPhysAddr)
  }

  /** All announced regions mapped in order, or None if one of them cannot be. */
  function Build(announced: seq<Announced>): (r: Option<Memory>)
    ensures r.Some? ==> |r.value.mappings| == |r.value.regions| == |announced|
    ensures r.Some? ==> forall i :: 0 <= i < |announced| ==>
                                      r.value.mappings[i] == MappingOf(announced[i])
                                      && Some(r.value.regions[i]) == NewRegion(announced[i])
    ensures r.None? <==> exists i :: 0 <= i < |announced| && NewRegion(announced[i]).None?
  {
    if announced == [] then Some(Memory([], []))
    else
      var n := |announced| - 1;
      var before, region := Build(announced[..n]), NewRegion(announced[n]);
      if before.None? || region.None? then None
      else Some(Memory(before.value.mappings + [MappingOf(announced[n])], before.value.regions + [region.value]))
  }

  function SetMemTable(m: Memory, announced: seq<Announced>, files: nat): (Memory, bool) {
    var built := Build(if files < |announced| then announced[..files] else announced);
    if built.Some? && Acceptable(built.value.regions) then (built.value, true) else (m, false)
  }

  function AddMemRegion(m: Memory, a: Announced): (Memory, bool) {
    var region := NewRegion(a);
    if region.Some? && Acceptable(InsertSorted(m.regions, region.value)) then
      (Memory(m.mappings + [MappingOf(a)], InsertSorted(m.regions, region.value)), true)
    else (m, false)
  }

  function Retain(mappings: seq<AddrMapping>, gpaBase: nat): seq<AddrMapping> {
    if mappings == [] then []
    else (if mappings[0].gpaBase != gpaBase then [mappings[0]] else []) + Retain(mappings[1..], gpaBase)
  }

  function RemoveMemRegion(m: Memory, a: Announced): (Memory, bool) {
    var rest := RemoveRegion(m.regions, a.guestPhysAddr, a.memorySize);
    if rest.Some? then (Memory(Retain(m.mappings, a.guestPhysAddr), rest.value), true) else (m, false)
  }

  // ---- the two tables agree ----

  predicate WellFormed(regions: seq<Region>) {
    && (forall r :: r in regions ==> r.size > 0 && r.base + r.size < U64_SIZE)
    && (forall i, j :: 0 <= i < j < |regions| ==> regions[i].base + regions[i].size <= regions[j].base)
  }

  function Guests(mappings: seq<AddrMapping>): multiset<Region> {
    if mappings == [] then multiset{} else multiset{mappings[0].Guest()} + Guests(mappings[1..])
  }

  predicate Agree(m: Memory) {
    WellFormed(m.regions) && Guests(m.mappings) == multiset(m.regions)
  }

  lemma {:induction false} SortedApartFar(regions: seq<Region>, i: nat, j: nat)
    requires SortedApart(regions) && i < j < |regions|
    ensures regions[i].base + regions[i].size <= regions[j].base
  {
    if i < j - 1 {
      SortedApartFar(regions, i, j - 1);
      assert regions[j - 1].base + regions[j - 1].size <= regions[j - 1 + 1].base;
    } else {
      assert regions[i].base + regions[i].size <= regions[i + 1].base;
    }
  }

  lemma AcceptableIsWellFormed(regions: seq<Region>)
    requires Acceptable(regions) && forall r :: r in regions ==> r.size > 0 && r.base + r.size < U64_SIZE
    ensures WellFormed(regions)
  {
    forall i, j | 0 <= i < j < |regions| ensures regions[i].base + regions[i].size <= regions[j].base {
      SortedApartFar(regions, i, j);
    }
  }

  lemma GuestsFirst(mapping: AddrMapping, rest: seq<AddrMapping>)
    ensures Guests([mapping] + rest) == multiset{mapping.Guest()} + Guests(rest)
  {
    assert ([mapping] + rest)[1..] == rest;
  }

  lemma {:induction false} GuestsOneMore(mappings: seq<AddrMapping>, mapping: AddrMapping)
    ensures Guests(mappings + [mapping]) == Guests(mappings) + multiset{mapping.Guest()}
  {
    if mappings == [] {
      GuestsFirst(mapping, []);
      assert [] + [mapping] == [mapping] + [];
    } else {
      hide Guests;
      var first, rest := mappings[0], mappings[1..];
      assert mappings == [first] + rest && mappings + [mapping] == [first] + (rest + [mapping]);
      GuestsOneMore(rest, mapping);
      GuestsFirst(first, rest);
      GuestsFirst(first, rest + [mapping]);
    }
  }

  lemma {:induction false} GuestsInStep(mappings: seq<AddrMapping>, regions: seq<Region>)
    requires |mappings| == |regions| && forall i :: 0 <= i < |regions| ==> mappings[i].Guest() == regions[i]
    ensures Guests(mappings) == multiset(regions)
  {
    if regions != [] {
      GuestsInStep(mappings[1..], regions[1..]);
      assert regions == [regions[0]] + regions[1..];
    }
  }

  /** Dropping the mappings of one base drops the one region with that base. */
  lemma {:induction false} RetainDropsBase(mappings: seq<AddrMapping>, base: nat, r: Region)
    ensures Guests(Retain(mappings, base))[r] == if r.base == base then 0 else Guests(mappings)[r]
  {
    if mappings != [] {
      hide Guests;
      var first, rest := mappings[0], mappings[1..];
      assert mappings == [first] + rest;
      RetainDropsBase(rest, base, r);
      GuestsFirst(first, rest);
      GuestsFirst(first, Retain(rest, base));
      assert [] + Retain(rest, base) == Retain(rest, base);
    } else {
      assert Guests([])[r] == 0;
    }
  }

  lemma SetMemTableAgrees(m: Memory, announced: seq<Announced>, files: nat)
    requires Agree(m)
    ensures Agree(SetMemTable(m, announced, files).0)
  {
    var taken := if files < |announced| then announced[..files] else announced;
    var built := Build(taken);
    if built.Some? && Acceptable(built.value.regions) {
      forall r | r in built.value.regions ensures r.size > 0 && r.base + r.size < U64_SIZE {
        var i :| 0 <= i < |taken| && built.value.regions[i] == r;
        assert Some(r) == NewRegion(taken[i]);
      }
      AcceptableIsWellFormed(built.value.regions);
      forall i | 0 <= i < |taken| ensures built.value.mappings[i].Guest() == built.value.regions[i] {
        assert Some(built.value.regions[i]) == NewRegion(taken[i]);
      }
      GuestsInStep(built.value.mappings, built.value.regions);
    }
  }

  lemma AddMemRegionAgrees(m: Memory, a: Announced)
    requires Agree(m)
    ensures Agree(AddMemRegion(m, a).0)
  {
    if AddMemRegion(m, a).1 {
      var region := NewRegion(a).value;
      var regions := InsertSorted(m.regions, region);
      forall r | r in regions ensures r.size > 0 && r.base + r.size < U64_SIZE {
        assert r in multiset(regions);
        assert r in m.regions || r == region;
      }
      AcceptableIsWellFormed(regions);
      GuestsOneMore(m.mappings, MappingOf(a));
    }
  }

  function Without(regions: seq<Region>, i: nat): seq<Region>
    requires i < |regions|
  {
    regions[..i] + regions[i + 1..]
  }

  lemma WithoutCounts(regions: seq<Region>, i: nat)
    requires i < |regions|
    ensures multiset(regions) == multiset(Without(regions, i)) + multiset{regions[i]}
  {
    assert regions == regions[..i] + [regions[i]] + regions[i + 1..];
  }

  /** In well-formed memory no other region starts where a given one does. */
  lemma OneRegionPerBase(regions: seq<Region>, i: nat, r: Region)
    requires WellFormed(regions) && i < |regions|
    ensures WellFormed(Without(regions, i))
    ensures r.base == regions[i].base ==> multiset(Without(regions, i))[r] == 0
  {
    var rest := Without(regions, i);
    forall k | 0 <= k < |rest| ensures rest[k].base != regions[i].base {
      var j := if k < i then k else k + 1;
      assert rest[k] == regions[j] && regions[j] in regions && regions[i] in regions;
    }
    forall s | s in rest ensures s in regions {}
  }

  lemma RemoveMemRegionAgrees(m: Memory, a: Announced)
    requires Agree(m)
    ensures Agree(RemoveMemRegion(m, a).0)
  {
    if RemoveMemRegion(m, a).1 {
      hide WellFormed, Guests, Retain, IndexOfBase;
      var base := a.guestPhysAddr;
      var i := IndexOfBase(m.regions, base).value;
      var rest := Without(m.regions, i);
      WithoutCounts(m.regions, i);
      forall r ensures Guests(Retain(m.mappings, base))[r] == multiset(rest)[r] {
        RetainDropsBase(m.mappings, base, r);
        OneRegionPerBase(m.regions, i, r);
      }
      assert Guests(Retain(m.mappings, base)) == multiset(rest);
      OneRegionPerBase(m.regions, i, m.regions[i]);
    }
  }

  // ---- every run ----

  datatype Message =
    | SetTable(announced: seq<Announced>, files: nat)
    | Add(region: Announced)
    | Remove(region: Announced)

  function Handle(m: Memory, message: Message): (Memory, bool) {
    match message
    case SetTable(announced, files) => SetMemTable(m, announced, files)
    case Add(a) => AddMemRegion(m, a)
    case Remove(a) => RemoveMemRegion(m, a)
  }

  function AfterMessages(m: Memory, messages: seq<Message>): Memory
    decreases messages
  {
    if messages == [] then m else AfterMessages(Handle(m, messages[0]).0, messages[1..])
  }

  /** One message keeps the tables in agreement, and a refused one changes neither. */
  lemma HandleAgrees(m: Memory, message: Message)
    requires Agree(m)
    ensures Agree(Handle(m, message).0)
    ensures !Handle(m, message).1 ==> Handle(m, message).0 == m
  {
    hide Agree, Build, InsertSorted, RemoveRegion;
    match message {
      case SetTable(announced, files) => SetMemTableAgrees(m, announced, files);
      case Add(a) => AddMemRegionAgrees(m, a);
      case Remove(a) => RemoveMemRegionAgrees(m, a);
    }
  }

  /** After any sequence of messages, refused ones included, both tables describe the same regions. */
  lemma {:induction false} TablesAlwaysAgree(m: Memory, messages: seq<Message>)
    requires Agree(m)
    ensures Agree(AfterMessages(m, messages))
    decreases messages
  {
    if messages != [] {
      hide Agree, Handle;
      HandleAgrees(m, messages[0]);
      TablesAlwaysAgree(Handle(m, messages[0]).0, messages[1..]);
    }
  }

  // ---- translation ----

  /** Addition of u64 values, wrapping. */
  function WrappingAdd(a: nat, b: nat): nat {
    (a + b) % U64_SIZE
  }

  function VmmVaToGpa(mappings: seq<AddrMapping>, va: nat): Option<nat> {
    if mappings == [] then None
    else if mappings[0].vmmAddr <= va < WrappingAdd(mappings[0].vmmAddr, mappings[0].size) then
      Some(va - mappings[0].vmmAddr + mappings[0].gpaBase)
    else VmmVaToGpa(mappings[1..], va)
  }

  predicate NoOverflow(mapping: AddrMapping) {
    mapping.vmmAddr + mapping.size < U64_SIZE
  }

  predicate U64Mapping(mapping: AddrMapping) {
    mapping.vmmAddr < U64_SIZE && mapping.size < U64_SIZE
  }

  predicate Translates(mapping: AddrMapping, va: nat) {
    NoOverflow(mapping) && mapping.Covers(va)
  }

  /** The mapping that translates an address: the first whose range holds it and does not wrap. */
  lemma {:induction false} TranslatingMapping(mappings: seq<AddrMapping>, va: nat) returns (i: nat)
    requires VmmVaToGpa(mappings, va).Some? && forall m :: m in mappings ==> U64Mapping(m)
    ensures i < |mappings| && Translates(mappings[i], va) && forall j :: 0 <= j < i ==> !Translates(mappings[j], va)
    ensures VmmVaToGpa(mappings, va).value == va - mappings[i].vmmAddr + mappings[i].gpaBase
  {
    var first := mappings[0];
    assert first in mappings;
    if first.vmmAddr <= va < WrappingAdd(first.vmmAddr, first.size) {
      i := 0;
    } else {
      var j := TranslatingMapping(mappings[1..], va);
      i := j + 1;
      assert forall k :: 1 <= k < i ==> mappings[k] == mappings[1..][k - 1];
    }
  }

  /** An address translates exactly if some mapping that does not wrap holds it. */
  lemma {:induction false} TranslatesIff(mappings: seq<AddrMapping>, va: nat)
    requires forall m :: m in mappings ==> U64Mapping(m)
    ensures VmmVaToGpa(mappings, va).Some? <==> exists m :: m in mappings && NoOverflow(m) && m.Covers(va)
  {
    if mappings != [] {
      var first := mappings[0];
      assert first in mappings;
      assert mappings == [first] + mappings[1..];
      TranslatesIff(mappings[1..], va);
    }
  }

  lemma {:induction false} GuestOfMapping(mappings: seq<AddrMapping>, i: nat)
    requires i < |mappings|
    ensures mappings[i].Guest() in Guests(mappings)
  {
    if i > 0 {
      GuestOfMapping(mappings[1..], i - 1);
    }
  }

  /** A translated address lies in a guest region. */
  lemma TranslationLands(m: Memory, va: nat) returns (r: Region)
    requires Agree(m) && VmmVaToGpa(m.mappings, va).Some? && forall x :: x in m.mappings ==> U64Mapping(x)
    ensures r in m.regions && r.Contains(VmmVaToGpa(m.mappings, va).value)
  {
    var i := TranslatingMapping(m.mappings, va);
    r := m.mappings[i].Guest();
    GuestOfMapping(m.mappings, i);
    assert r in multiset(m.regions);
  }

  lemma {:induction false} TwoGuests(mappings: seq<AddrMapping>, i: nat, j: nat)
    requires i < j < |mappings| && mappings[i].Guest() == mappings[j].Guest()
    ensures Guests(mappings)[mappings[i].Guest()] >= 2
  {
    if i > 0 {
      TwoGuests(mappings[1..], i - 1, j - 1);
    } else {
      GuestOfMapping(mappings[1..], j - 1);
    }
  }

  lemma RegionsAreDistinct(regions: seq<Region>, r: Region)
    requires WellFormed(regions) && r in regions
    ensures multiset(regions)[r] == 1
  {
    var i :| 0 <= i < |regions| && regions[i] == r;
    WithoutCounts(regions, i);
    OneRegionPerBase(regions, i, r);
  }

  lemma RegionHolding(regions: seq<Region>, r: Region, s: Region, address: nat)
    requires WellFormed(regions) && r in regions && s in regions && r.Contains(address) && s.Contains(address)
    ensures r == s
  {
    var i :| 0 <= i < |regions| && regions[i] == r;
    var j :| 0 <= j < |regions| && regions[j] == s;
  }

  /** Different addresses never translate to the same guest address, even where the frontend's
      ranges overlap each other. */
  lemma TranslationIsInjective(m: Memory, va: nat, wa: nat)
    requires Agree(m) && forall x :: x in m.mappings ==> U64Mapping(x)
    requires VmmVaToGpa(m.mappings, va).Some? && VmmVaToGpa(m.mappings, va) == VmmVaToGpa(m.mappings, wa)
    ensures va == wa
  {
    var i := TranslatingMapping(m.mappings, va);
    var j := TranslatingMapping(m.mappings, wa);
    OneMappingPerGuestAddress(m, i, j, VmmVaToGpa(m.mappings, va).value);
  }

  lemma {:induction false} FirstCovering(mappings: seq<AddrMapping>, i: nat, va: nat)
    requires i < |mappings| && Translates(mappings[i], va)
    requires forall m :: m in mappings ==> U64Mapping(m)
    requires forall j :: 0 <= j < i ==> !Translates(mappings[j], va)
    ensures VmmVaToGpa(mappings, va) == Some(va - mappings[i].vmmAddr + mappings[i].gpaBase)
  {
    assert mappings[0] in mappings;
    if i > 0 {
      assert !Translates(mappings[0], va);
      FirstCovering(mappings[1..], i - 1, va);
    }
  }

  lemma {:induction false} MappingOfGuest(mappings: seq<AddrMapping>, r: Region) returns (i: nat)
    requires r in Guests(mappings)
    ensures i < |mappings| && mappings[i].Guest() == r
  {
    if mappings[0].Guest() == r {
      i := 0;
    } else {
      var j := MappingOfGuest(mappings[1..], r);
      i := j + 1;
    }
  }

  /** The only frontend address that can translate to a guest address of the region of mapping `i`. */
  function Candidate(mapping: AddrMapping, gpa: nat): nat
    requires gpa >= mapping.gpaBase
  {
    gpa - mapping.gpaBase + mapping.vmmAddr
  }

  /** A guest address is the translation of some address exactly if its mapping does not wrap and no
      earlier mapping translates the one candidate. */
  lemma GuestAddressIsReachedIff(m: Memory, i: nat, gpa: nat)
    requires Agree(m) && i < |m.mappings| && m.mappings[i].Guest().Contains(gpa)
    requires forall x :: x in m.mappings ==> U64Mapping(x)
    ensures (exists va: nat :: VmmVaToGpa(m.mappings, va) == Some(gpa)) <==>
              && NoOverflow(m.mappings[i])
              && forall j :: 0 <= j < i ==> !Translates(m.mappings[j], Candidate(m.mappings[i], gpa))
  {
    hide VmmVaToGpa, Agree;
    var candidate := Candidate(m.mappings[i], gpa);
    if NoOverflow(m.mappings[i]) && forall j :: 0 <= j < i ==> !Translates(m.mappings[j], candidate) {
      FirstCovering(m.mappings, i, candidate);
      assert VmmVaToGpa(m.mappings, candidate) == Some(gpa);
    }
    if exists va: nat :: VmmVaToGpa(m.mappings, va) == Some(gpa) {
      var va: nat :| VmmVaToGpa(m.mappings, va) == Some(gpa);
      var k := TranslatingMapping(m.mappings, va);
      OneMappingPerGuestAddress(m, i, k, gpa);
    }
  }

  lemma OneMappingPerGuestAddress(m: Memory, i: nat, k: nat, gpa: nat)
    requires Agree(m) && i < |m.mappings| && k < |m.mappings|
    requires m.mappings[i].Guest().Contains(gpa) && m.mappings[k].Guest().Contains(gpa)
    ensures i == k
  {
    var r, s := m.mappings[i].Guest(), m.mappings[k].Guest();
    GuestOfMapping(m.mappings, i);
    GuestOfMapping(m.mappings, k);
    assert r in multiset(m.regions) && s in multiset(m.regions);
    RegionHolding(m.regions, r, s, gpa);
    RegionsAreDistinct(m.regions, r);
    if i < k {
      TwoGuests(m.mappings, i, k);
    } else if k < i {
      TwoGuests(m.mappings, k, i);
    }
  }

  /** If the frontend's ranges neither wrap nor overlap, every guest address has a translation back. */
  lemma EveryGuestAddressIsReached(m: Memory, r: Region, gpa: nat) returns (va: nat)
    requires Agree(m) && r in m.regions && r.Contains(gpa)
    requires forall x :: x in m.mappings ==> U64Mapping(x) && NoOverflow(x)
    requires forall i, j, a: nat :: 0 <= i < j < |m.mappings| ==> !(m.mappings[i].Covers(a) && m.mappings[j].Covers(a))
    ensures VmmVaToGpa(m.mappings, va) == Some(gpa)
  {
    assert r in multiset(m.regions);
    var i := MappingOfGuest(m.mappings, r);
    va := Candidate(m.mappings[i], gpa);
    FirstCovering(m.mappings, i, va);
  }

  /** After a successful `add_mem_region` the announced range translates, byte by byte, to the guest
      range, unless an earlier mapping already holds the address. */
  lemma AddedRegionTranslates(m: Memory, a: Announced, k: nat)
    requires AddMemRegion(m, a).1 && k < a.memorySize
    requires forall x :: x in m.mappings + [MappingOf(a)] ==> U64Mapping(x) && NoOverflow(x)
    requires forall x :: x in m.mappings ==> !x.Covers(a.userAddr + k)
    ensures VmmVaToGpa(AddMemRegion(m, a).0.mappings, a.userAddr + k) == Some(a.guestPhysAddr + k)
  {
    var mappings := m.mappings + [MappingOf(a)];
    assert forall j :: 0 <= j < |m.mappings| ==> mappings[j] in m.mappings;
    FirstCovering(mappings, |m.mappings|, a.userAddr + k);
  }

  function Taken(announced: seq<Announced>, files: nat): nat {
    if files < |announced| then files else |announced|
  }

  /** The tables that `set_mem_table` builds, entry by entry. */
  lemma TableEntries(m: Memory, announced: seq<Announced>, files: nat)
    requires SetMemTable(m, announced, files).1
    ensures var table, n := SetMemTable(m, announced, files).0, Taken(announced, files);
            && |table.mappings| == |table.regions| == n > 0 && SortedApart(table.regions)
            && (forall j :: 0 <= j < n ==> table.mappings[j] == MappingOf(announced[j]))
            && (forall j :: 0 <= j < n ==> Some(table.regions[j]) == NewRegion(announced[j]))
  {
    var taken := if files < |announced| then announced[..files] else announced;
    assert forall j :: 0 <= j < |taken| ==> taken[j] == announced[j];
  }

  /** After a successful `set_mem_table` the first announced range that holds an address decides. */
  lemma AnnouncedRegionTranslates(m: Memory, announced: seq<Announced>, files: nat, i: nat, k: nat)
    requires SetMemTable(m, announced, files).1 && i < |announced| && i < files && k < announced[i].memorySize
    requires forall j :: 0 <= j < |announced| ==>
               U64Mapping(MappingOf(announced[j])) && NoOverflow(MappingOf(announced[j]))
    requires forall j :: 0 <= j < i ==> !MappingOf(announced[j]).Covers(announced[i].userAddr + k)
    ensures VmmVaToGpa(SetMemTable(m, announced, files).0.mappings, announced[i].userAddr + k)
         == Some(announced[i].guestPhysAddr + k)
  {
    hide SetMemTable, VmmVaToGpa;
    TableEntries(m, announced, files);
    FirstCovering(SetMemTable(m, announced, files).0.mappings, i, announced[i].userAddr + k);
  }

  predicate AnnouncedInOrder(announced: seq<Announced>, n: nat)
    requires n <= |announced|
  {
    forall i, j :: 0 <= i < j < n ==>
      announced[i].guestPhysAddr + announced[i].memorySize <= announced[j].guestPhysAddr
  }

  lemma AcceptedIsInOrder(m: Memory, announced: seq<Announced>, files: nat)
    requires SetMemTable(m, announced, files).1
    ensures var n := Taken(announced, files);
            && n > 0
            && (forall j :: 0 <= j < n ==> NewRegion(announced[j]).Some?)
            && AnnouncedInOrder(announced, n)
  {
    hide SetMemTable;
    TableEntries(m, announced, files);
    var regions, n := SetMemTable(m, announced, files).0.regions, Taken(announced, files);
    forall i, j | 0 <= i < j < n
      ensures announced[i].guestPhysAddr + announced[i].memorySize <= announced[j].guestPhysAddr
    {
      SortedApartFar(regions, i, j);
      assert Some(regions[i]) == NewRegion(announced[i]) && Some(regions[j]) == NewRegion(announced[j]);
    }
    forall j | 0 <= j < n ensures NewRegion(announced[j]).Some? {
      assert Some(regions[j]) == NewRegion(announced[j]);
    }
  }

  lemma InOrderIsAccepted(m: Memory, announced: seq<Announced>, files: nat)
    requires var n := Taken(announced, files);
             && n > 0
             && (forall j :: 0 <= j < n ==> NewRegion(announced[j]).Some?)
             && AnnouncedInOrder(announced, n)
    ensures SetMemTable(m, announced, files).1
  {
    var n, taken := Taken(announced, files), if files < |announced| then announced[..files] else announced;
    assert forall j :: 0 <= j < n ==> taken[j] == announced[j];
    var regions := Build(taken).value.regions;
    forall i | 0 <= i < n - 1
      ensures regions[i].base <= regions[i + 1].base && regions[i].base + regions[i].size <= regions[i + 1].base
    {
      assert Some(regions[i]) == NewRegion(taken[i]) && Some(regions[i + 1]) == NewRegion(taken[i + 1]);
    }
  }

  /** The table is accepted exactly if at least one region comes with a file and all those that do can
      be mapped, are sorted and do not overlap. */
  lemma SetMemTableAcceptedIff(m: Memory, announced: seq<Announced>, files: nat)
    ensures var n := Taken(announced, files);
            SetMemTable(m, announced, files).1 <==>
              && n > 0
              && (forall j :: 0 <= j < n ==> NewRegion(announced[j]).Some?)
              && AnnouncedInOrder(announced, n)
  {
    hide SetMemTable, AnnouncedInOrder, NewRegion;
    if SetMemTable(m, announced, files).1 {
      AcceptedIsInOrder(m, announced, files);
    }
    var n := Taken(announced, files);
    if n > 0 && (forall j :: 0 <= j < n ==> NewRegion(announced[j]).Some?) && AnnouncedInOrder(announced, n) {
      InOrderIsAccepted(m, announced, files);
    }
  }

  // ---- adding and removing a region ----

  predicate Apart(r: Region, s: Region) {
    r.base + r.size <= s.base || s.base + s.size <= r.base
  }

  predicate ApartFromAll(r: Region, regions: seq<Region>) {
    forall i :: 0 <= i < |regions| ==> Apart(r, regions[i])
  }

  predicate Inserted(s: seq<Region>, regions: seq<Region>, r: Region) {
    && |s| == |regions| + 1
    && (SortedApart(s) <==> ApartFromAll(r, regions))
    && (|| s[|regions|] == r
        || (regions != [] && s[|regions|] == regions[|regions| - 1] && r.base < regions[|regions| - 1].base))
  }

  /** A region can be inserted into well-formed memory exactly if it overlaps none of the regions. */
  lemma {:induction false} InsertedApart(regions: seq<Region>, r: Region)
    requires WellFormed(regions) && r.size > 0
    ensures Inserted(InsertSorted(regions, r), regions, r)
  {
    if regions != [] {
      var n := |regions| - 1;
      var init, last := regions[..n], regions[n];
      assert regions == init + [last];
      if last.base <= r.base {
        InsertedLast(regions, r);
      } else {
        InitWellFormed(regions);
        InsertedApart(init, r);
        InsertedBefore(init, last, r);
      }
    }
  }

  lemma InitWellFormed(regions: seq<Region>)
    requires WellFormed(regions) && regions != []
    ensures WellFormed(regions[..|regions| - 1]) && regions[|regions| - 1].size > 0
  {
    assert forall i :: 0 <= i < |regions| ==> regions[i] in regions;
  }

  lemma SortedLonger(s: seq<Region>, last: Region)
    requires s != []
    ensures var end := s[|s| - 1];
            SortedApart(s + [last]) <==> SortedApart(s) && end.base <= last.base && end.base + end.size <= last.base
  {
    var longer, n := s + [last], |s|;
    assert longer[n - 1] == s[n - 1] && longer[n] == last;
    if SortedApart(longer) {
      assert longer[n - 1].base <= longer[n - 1 + 1].base;
      assert longer[n - 1].base + longer[n - 1].size <= longer[n - 1 + 1].base;
      forall i | 0 <= i < n - 1 ensures s[i].base <= s[i + 1].base && s[i].base + s[i].size <= s[i + 1].base {
        assert longer[i] == s[i] && longer[i + 1] == s[i + 1];
      }
    }
  }

  lemma ApartLonger(r: Region, regions: seq<Region>, last: Region)
    ensures ApartFromAll(r, regions + [last]) <==> ApartFromAll(r, regions) && Apart(r, last)
  {
    var longer := regions + [last];
    assert longer[|regions|] == last && forall i :: 0 <= i < |regions| ==> longer[i] == regions[i];
  }

  lemma InsertedLast(regions: seq<Region>, r: Region)
    requires WellFormed(regions) && r.size > 0 && regions != [] && regions[|regions| - 1].base <= r.base
    ensures Inserted(regions + [r], regions, r)
  {
    hide SortedApart;
    var n := |regions| - 1;
    InitWellFormed(regions);
    SortedLonger(regions, r);
    WellFormedIsSorted(regions);
    if Apart(r, regions[n]) {
      forall i | 0 <= i < n ensures Apart(r, regions[i]) {
        assert regions[i].base + regions[i].size <= regions[n].base;
      }
    }
  }

  lemma WellFormedIsSorted(regions: seq<Region>)
    requires WellFormed(regions)
    ensures SortedApart(regions)
  {
    forall i | 0 <= i < |regions| - 1 ensures regions[i].base + regions[i].size <= regions[i + 1].base {}
  }

  lemma InsertedBefore(init: seq<Region>, last: Region, r: Region)
    requires WellFormed(init + [last]) && r.size > 0 && r.base < last.base
    requires Inserted(InsertSorted(init, r), init, r)
    ensures Inserted(InsertSorted(init, r) + [last], init + [last], r)
  {
    hide InsertSorted, SortedApart, ApartFromAll;
    var n, s, regions := |init|, InsertSorted(init, r), init + [last];
    SortedLonger(s, last);
    ApartLonger(r, init, last);
    assert regions[n] == last && last in regions;
    if n > 0 {
      assert regions[n - 1] == init[n - 1] && regions[n - 1] in regions;
      assert regions[n - 1].base + regions[n - 1].size <= regions[n].base;
      if s[n] != r && ApartFromAll(r, init) {
        ApartFromOne(r, init, n - 1);
      }
    }
  }

  lemma ApartFromOne(r: Region, regions: seq<Region>, i: nat)
    requires ApartFromAll(r, regions) && i < |regions|
    ensures Apart(r, regions[i])
  {
  }

  /** `add_mem_region` accepts exactly the regions that can be mapped and overlap none of the others. */
  lemma AddMemRegionAcceptedIff(m: Memory, a: Announced)
    requires Agree(m)
    ensures AddMemRegion(m, a).1 <==> NewRegion(a).Some? && ApartFromAll(NewRegion(a).value, m.regions)
  {
    if NewRegion(a).Some? {
      InsertedApart(m.regions, NewRegion(a).value);
    }
  }

  /** `remove_mem_region` succeeds exactly for a region of the memory. */
  lemma RemoveMemRegionAcceptedIff(m: Memory, a: Announced)
    requires Agree(m)
    ensures RemoveMemRegion(m, a).1 <==> Region(a.guestPhysAddr, a.memorySize) in m.regions
  {
    var r, found := Region(a.guestPhysAddr, a.memorySize), IndexOfBase(m.regions, a.guestPhysAddr);
    if r in m.regions {
      var i := found.value;
      var j :| 0 <= j < |m.regions| && m.regions[j] == r;
      assert m.regions[i] in m.regions;
    }
  }

  /** What the messages that add and remove one region leave of the others. */
  lemma OneRegionComesOrGoes(m: Memory, a: Announced)
    ensures AddMemRegion(m, a).1 ==>
              multiset(AddMemRegion(m, a).0.regions)
              == multiset(m.regions) + multiset{Region(a.guestPhysAddr, a.memorySize)}
    ensures RemoveMemRegion(m, a).1 ==>
              multiset(m.regions)
              == multiset(RemoveMemRegion(m, a).0.regions) + multiset{Region(a.guestPhysAddr, a.memorySize)}
  {
    if RemoveMemRegion(m, a).1 {
      WithoutCounts(m.regions, IndexOfBase(m.regions, a.guestPhysAddr).value);
    }
  }

  lemma {:induction false} RetainedMappings(mappings: seq<AddrMapping>, base: nat)
    ensures forall x :: x in Retain(mappings, base) ==> x in mappings && x.gpaBase != base
  {
    if mappings != [] {
      RetainedMappings(mappings[1..], base);
    }
  }

  /** Dropping the mappings of one base keeps a translation unless its own mapping is dropped. */
  lemma {:induction false} RetainTranslates(mappings: seq<AddrMapping>, base: nat, va: nat) returns (x: AddrMapping)
    requires VmmVaToGpa(mappings, va).Some? && forall m :: m in mappings ==> U64Mapping(m)
    ensures x in mappings && x.Covers(va) && VmmVaToGpa(mappings, va).value == va - x.vmmAddr + x.gpaBase
    ensures x.gpaBase != base ==> VmmVaToGpa(Retain(mappings, base), va) == VmmVaToGpa(mappings, va)
  {
    var first, rest := mappings[0], mappings[1..];
    assert first in mappings;
    var kept := Retain(rest, base);
    assert ([first] + kept)[1..] == kept && [] + kept == kept;
    if first.vmmAddr <= va < WrappingAdd(first.vmmAddr, first.size) {
      x := first;
    } else {
      x := RetainTranslates(rest, base, va);
    }
  }

  lemma GuestRegion(m: Memory, x: AddrMapping)
    requires Agree(m) && x in m.mappings
    ensures x.Guest() in m.regions
  {
    var i :| 0 <= i < |m.mappings| && m.mappings[i] == x;
    GuestOfMapping(m.mappings, i);
    assert x.Guest() in multiset(m.regions);
  }

  /** After a removal nothing translates into the removed region, and every other translation stays. */
  lemma RemovedRegionIsGone(m: Memory, a: Announced, va: nat)
    requires Agree(m) && RemoveMemRegion(m, a).1
    requires forall x :: x in m.mappings ==> U64Mapping(x)
    ensures var removed := Region(a.guestPhysAddr, a.memorySize);
            var before, after := VmmVaToGpa(m.mappings, va), VmmVaToGpa(RemoveMemRegion(m, a).0.mappings, va);
            && (after.Some? ==> !removed.Contains(after.value))
            && (before.Some? && !removed.Contains(before.value) ==> after == before)
  {
    hide Retain, Guests, IndexOfBase, VmmVaToGpa;
    var base, removed := a.guestPhysAddr, Region(a.guestPhysAddr, a.memorySize);
    RemoveMemRegionAcceptedIff(m, a);
    var kept := Retain(m.mappings, base);
    RetainedMappings(m.mappings, base);
    if VmmVaToGpa(kept, va).Some? {
      var i := TranslatingMapping(kept, va);
      var x := kept[i];
      assert x in kept;
      GuestRegion(m, x);
      if removed.Contains(VmmVaToGpa(kept, va).value) {
        RegionHolding(m.regions, x.Guest(), removed, VmmVaToGpa(kept, va).value);
        assert false;
      }
    }
    if VmmVaToGpa(m.mappings, va).Some? {
      var x := RetainTranslates(m.mappings, base, va);
      GuestRegion(m, x);
      if x.gpaBase == base {
        RegionHolding(m.regions, x.Guest(), removed, base);
      }
    }
  }

  // ---- the handler object ----

  class VhostUserHandler {
    var mappings: seq<AddrMapping>
    var regions: seq<Region>
    var memoryUpdated: bool

    function State(): Memory
      reads this
    {
      Memory(mappings, regions)
    }

    constructor ()
      ensures State() == Memory([], []) && Agree(State()) && !memoryUpdated
    {
      mappings, regions, memoryUpdated := [], [], false;
    }

    method SetMemTableMessage(announced: seq<Announced>, files: nat) returns (ok: bool)
      modifies this
      ensures (State(), ok) == SetMemTable(old(State()), announced, files)
      ensures memoryUpdated == (old(memoryUpdated) || ok)
      ensures old(Agree(State())) ==> Agree(State())
    {
      if Agree(State()) {
        SetMemTableAgrees(State(), announced, files);
      }
      var n := if files < |announced| then files else |announced|;
      var newRegions: seq<Region>, newMappings: seq<AddrMapping> := [], [];
      for i := 0 to n
        invariant Build(announced[..i]) == Some(Memory(newMappings, newRegions))
      {
        assert announced[..i + 1][..i] == announced[..i];
        var region := NewRegion(announced[i]);
        if region.None? {
          assert announced[..n][i] == announced[i];
          assert announced[..|announced|] == announced;
          return false;
        }
        newMappings := newMappings + [MappingOf(announced[i])];
        newRegions := newRegions + [region.value];
      }
      assert announced[..|announced|] == announced;
      if !Acceptable(newRegions) {
        return false;
      }
      regions := newRegions;
      memoryUpdated := true;
      mappings := newMappings;
      return true;
    }

    method AddMemRegionMessage(a: Announced) returns (ok: bool)
      modifies this`mappings, this`regions
      ensures (State(), ok) == AddMemRegion(old(State()), a)
      ensures old(Agree(State())) ==> Agree(State())
    {
      if Agree(State()) {
        AddMemRegionAgrees(State(), a);
      }
      var region := NewRegion(a);
      if region.None? {
        return false;
      }
      var inserted := InsertSorted(regions, region.value);
      if !Acceptable(inserted) {
        return false;
      }
      regions := inserted;
      mappings := mappings + [MappingOf(a)];
      return true;
    }

    method RemoveMemRegionMessage(a: Announced) returns (ok: bool)
      modifies this`mappings, this`regions
      ensures (State(), ok) == RemoveMemRegion(old(State()), a)
      ensures old(Agree(State())) ==> Agree(State())
    {
      if Agree(State()) {
        RemoveMemRegionAgrees(State(), a);
      }
      var rest := RemoveRegion(regions, a.guestPhysAddr, a.memorySize);
      if rest.None? {
        return false;
      }
      regions := rest.value;
      mappings := Retain(mappings, a.guestPhysAddr);
      return true;
    }

    method Translate(va: nat) returns (gpa: Option<nat>)
      ensures gpa == VmmVaToGpa(mappings, va)
    {
      for i := 0 to |mappings|
        invariant VmmVaToGpa(mappings, va) == VmmVaToGpa(mappings[i..], va)
      {
        var mapping := mappings[i];
        if mapping.vmmAddr <= va < WrappingAdd(mapping.vmmAddr, mapping.size) {
          return Some(va - mapping.vmmAddr + mapping.gpaBase);
        }
      }
      return None;
    }
  }
}
