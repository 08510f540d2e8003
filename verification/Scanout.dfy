/** Resource and scanout bookkeeping of the GPU device: a table from the 16 scanouts to the resource
    each one shows, and for every resource a bitmask of the scanouts that show it. The renderer and
    the frontend are reduced to what the bookkeeping depends on: which resource ids the renderer
    holds, whether a call succeeds, and the messages that reached the frontend. */
module Scanout {
  import opened Bits
  import opened Wrappers

  const MAX_SCANOUTS: nat := 16
  const USIZE_BITS: nat := 64
  const BYTES_PER_PIXEL: nat := 4

  type Slot = Option<nat>

  datatype Resource = Resource(id: nat, width: nat, height: nat, scanouts: nat)

  datatype Message =
    | Announce(scanout: nat, width: nat, height: nat)
    | Update(scanout: nat, width: nat, height: nat)

  datatype Response = OkNoData | ErrInvalidScanoutId | ErrInvalidResourceId | ErrUnspec | ErrRenderer

  datatype Gpu = Gpu(
    resources: map<nat, Resource>,
    slots: seq<Slot>,
    renderer: set<nat>,
    sent: seq<Message>)

  // ---- AssociatedScanouts ----

  function Enable(mask: nat, scanout: nat): nat {
    Or(mask, Pow2(scanout))
  }

  function Disable(mask: nat, scanout: nat): nat {
    Xor(mask, Pow2(scanout))
  }

  function EnabledFrom(mask: nat, from: nat): seq<nat>
    decreases MAX_SCANOUTS - from
  {
    if from >= MAX_SCANOUTS then []
    else (if BitAt(mask, from) then [from] else []) + EnabledFrom(mask, from + 1)
  }

  // ---- the commands ----

  function SetMask(g: Gpu, resource: nat, mask: nat): Gpu
    requires resource in g.resources
  {
    g.(resources := g.resources[resource := g.resources[resource].(scanouts := mask)])
  }

  function SetScanout(g: Gpu, scanout: nat, resource: nat, width: nat, height: nat, backendOk: bool): (Gpu, Response)
    requires |g.slots| == MAX_SCANOUTS
  {
    if scanout >= MAX_SCANOUTS then (g, ErrInvalidScanoutId)
    else
      var shown := g.slots[scanout];
      if shown.Some? && shown.value !in g.resources then (g, ErrInvalidResourceId)
      else
        var g1 := if shown.None? then g
                  else SetMask(g, shown.value, Disable(g.resources[shown.value].scanouts, scanout));
        if resource == 0 then
          var g2 := g1.(slots := g1.slots[scanout := None]);
          if backendOk then (g2.(sent := g2.sent + [Announce(scanout, 0, 0)]), OkNoData) else (g2, ErrUnspec)
        else if shown.None? && !backendOk then (g1, ErrUnspec)
        else
          var g2 := if shown.None? then g1.(sent := g1.sent + [Announce(scanout, width, height)]) else g1;
          if resource !in g2.resources then (g2, ErrInvalidResourceId)
          else
            var g3 := SetMask(g2, resource, Enable(g2.resources[resource].scanouts, scanout));
            (g3.(slots := g3.slots[scanout := Some(resource)]), OkNoData)
  }

  function CreateResource(g: Gpu, resource: nat, width: nat, height: nat, rendererOk: bool): (Gpu, Response) {
    if !rendererOk || resource in g.renderer then (g, ErrRenderer)
    else
      (g.(renderer := g.renderer + {resource},
          resources := g.resources[resource := Resource(resource, width, height, 0)]), OkNoData)
  }

  function UnrefResource(g: Gpu, resource: nat, rendererOk: bool): (Gpu, Response) {
    var removed := g.(resources := g.resources - {resource});
    if resource !in g.resources then (removed, ErrInvalidResourceId)
    else if g.resources[resource].scanouts != 0 then (removed, ErrUnspec)
    else if !rendererOk then (removed, ErrRenderer)
    else (removed.(renderer := removed.renderer - {resource}), OkNoData)
  }

  predicate SizeFits(r: Resource) {
    r.width * r.height < Pow2(USIZE_BITS) && r.width * r.height * BYTES_PER_PIXEL < Pow2(USIZE_BITS)
  }

  /** One turn of the flush loop: what is sent, and whether the loop goes on. A failed read skips
      the scanout, a failed send ends the loop. */
  function FlushOne(r: Resource, scanout: nat, readFails: set<nat>, sendFails: set<nat>): (seq<Message>, bool) {
    if !SizeFits(r) then ([], false)
    else if scanout in readFails then ([], true)
    else if scanout in sendFails then ([], false)
    else ([Update(scanout, r.width, r.height)], true)
  }

  /** The updates sent for `scanouts`, and whether the loop ran to its end. */
  function FlushUpdates(r: Resource, scanouts: seq<nat>, readFails: set<nat>, sendFails: set<nat>)
    : (seq<Message>, bool)
  {
    if scanouts == [] then ([], true)
    else
      var (messages, goOn) := FlushOne(r, scanouts[0], readFails, sendFails);
      if !goOn then (messages, false)
      else
        var (rest, done) := FlushUpdates(r, scanouts[1..], readFails, sendFails);
        (messages + rest, done)
  }

  function FlushResource(g: Gpu, resource: nat, readFails: set<nat>, sendFails: set<nat>): (Gpu, Response) {
    if resource == 0 then (g, OkNoData)
    else if resource !in g.resources then (g, ErrInvalidResourceId)
    else
      var r := g.resources[resource];
      var (updates, done) := FlushUpdates(r, EnabledFrom(r.scanouts, 0), readFails, sendFails);
      (g.(sent := g.sent + updates), if done then OkNoData else ErrUnspec)
  }

  // ---- coherence ----

  predicate ShowsAt(slots: seq<Slot>, k: nat, resource: nat) {
    k < |slots| && slots[k] == Some(resource)
  }

  /** Table and bitmasks are each other's inverse, and only live resources are shown. */
  ghost predicate Coherent(g: Gpu) {
    && |g.slots| == MAX_SCANOUTS
    && g.resources.Keys <= g.renderer
    && (forall k: nat :: k < MAX_SCANOUTS && g.slots[k].Some? ==>
          g.slots[k].value in g.resources && g.slots[k].value != 0)
    && (forall r, k: nat :: r in g.resources ==> (BitAt(g.resources[r].scanouts, k) <==> ShowsAt(g.slots, k, r)))
  }

  lemma EnableBit(mask: nat, scanout: nat, k: nat)
    ensures BitAt(Enable(mask, scanout), k) <==> BitAt(mask, k) || k == scanout
  {
    OrBit(mask, Pow2(scanout), k);
    Pow2Bit(scanout, k);
  }

  lemma DisableBit(mask: nat, scanout: nat, k: nat)
    ensures BitAt(Disable(mask, scanout), k) <==> (BitAt(mask, k) != (k == scanout))
  {
    XorBit(mask, Pow2(scanout), k);
    Pow2Bit(scanout, k);
  }

  /** In a coherent state the XOR of `set_scanout` clears the one bit it names and nothing else. */
  lemma DisableOnlyClears(g: Gpu, scanout: nat, k: nat)
    requires Coherent(g) && scanout < MAX_SCANOUTS && g.slots[scanout].Some?
    ensures var mask := g.resources[g.slots[scanout].value].scanouts;
            && BitAt(mask, scanout)
            && (BitAt(Disable(mask, scanout), k) <==> BitAt(mask, k) && k != scanout)
  {
    var r := g.slots[scanout].value;
    assert ShowsAt(g.slots, scanout, r);
    DisableBit(g.resources[r].scanouts, scanout, k);
  }

  /** The calls of `set_scanout` that keep the bookkeeping coherent. */
  predicate KeepsBooks(g: Gpu, scanout: nat, resource: nat)
    requires |g.slots| == MAX_SCANOUTS
  {
    scanout >= MAX_SCANOUTS || g.slots[scanout].None? || resource == 0 || resource in g.resources
  }

  lemma SetScanoutCoherence(g: Gpu, scanout: nat, resource: nat, width: nat, height: nat, backendOk: bool)
    requires Coherent(g)
    ensures Coherent(SetScanout(g, scanout, resource, width, height, backendOk).0) <==> KeepsBooks(g, scanout, resource)
  {
    var g' := SetScanout(g, scanout, resource, width, height, backendOk).0;
    if KeepsBooks(g, scanout, resource) {
      forall r, k: nat | r in g'.resources
        ensures BitAt(g'.resources[r].scanouts, k) <==> ShowsAt(g'.slots, k, r)
      {
        SetScanoutBit(g, scanout, resource, width, height, backendOk, r, k);
      }
    } else {
      var r := g.slots[scanout].value;
      DisableOnlyClears(g, scanout, scanout);
      assert !BitAt(g'.resources[r].scanouts, scanout) && ShowsAt(g'.slots, scanout, r);
    }
  }

  lemma SetScanoutBit(g: Gpu, scanout: nat, resource: nat, width: nat, height: nat, backendOk: bool, r: nat, k: nat)
    requires Coherent(g) && KeepsBooks(g, scanout, resource) && r in g.resources
    ensures var g' := SetScanout(g, scanout, resource, width, height, backendOk).0;
            && g'.resources.Keys == g.resources.Keys && |g'.slots| == MAX_SCANOUTS
            && (BitAt(g'.resources[r].scanouts, k) <==> ShowsAt(g'.slots, k, r))
  {
    hide Or, Xor, BitAt, Pow2;
    var mask := g.resources[r].scanouts;
    assert BitAt(mask, k) <==> ShowsAt(g.slots, k, r);
    DisableBit(mask, scanout, k);
    EnableBit(mask, scanout, k);
    EnableBit(Disable(mask, scanout), scanout, k);
  }

  /** What a coherent `set_scanout` does to the table, and when it succeeds. */
  lemma SetScanoutOutcome(g: Gpu, scanout: nat, resource: nat, width: nat, height: nat, backendOk: bool)
    requires Coherent(g)
    ensures var (g', response) := SetScanout(g, scanout, resource, width, height, backendOk);
            var needsFrontend := resource == 0 || (scanout < MAX_SCANOUTS && g.slots[scanout].None?);
            && (response.OkNoData? <==>
                  scanout < MAX_SCANOUTS && (resource == 0 || resource in g.resources) && (needsFrontend ==> backendOk))
            && (response.OkNoData? ==>
                  g'.slots == g.slots[scanout := if resource == 0 then None else Some(resource)])
            && g'.resources.Keys == g.resources.Keys && g'.renderer == g.renderer
            && forall r :: r in g.resources ==> g'.resources[r].(scanouts := 0) == g.resources[r].(scanouts := 0)
  {
  }

  /** What reaches the frontend: at most one announcement, with an empty size if the scanout is switched
      off and with the requested size if it was free. A scanout that showed something is not announced
      again, and one is announced even if the resource then turns out to be missing. */
  lemma SetScanoutSends(g: Gpu, scanout: nat, resource: nat, width: nat, height: nat, backendOk: bool)
    requires Coherent(g)
    ensures SetScanout(g, scanout, resource, width, height, backendOk).0.sent
         == g.sent + if scanout < 16 && backendOk && resource == 0 then [Announce(scanout, 0, 0)]
                     else if scanout < 16 && backendOk && g.slots[scanout].None? then [Announce(scanout, width, height)]
                     else []
  {
  }

  /** Which error a coherent `set_scanout` answers with. */
  lemma SetScanoutErrors(g: Gpu, scanout: nat, resource: nat, width: nat, height: nat, backendOk: bool)
    requires Coherent(g)
    ensures var response := SetScanout(g, scanout, resource, width, height, backendOk).1;
            && (response.ErrInvalidScanoutId? <==> scanout >= 16)
            && (response.ErrUnspec? <==>
                  scanout < 16 && !backendOk && (resource == 0 || g.slots[scanout].None?))
            && (response.ErrInvalidResourceId? <==>
                  && scanout < 16 && resource != 0 && resource !in g.resources
                  && (backendOk || g.slots[scanout].Some?))
            && !response.ErrRenderer?
  {
  }

  /** Creation succeeds exactly if the renderer agrees and does not hold the id; it adds the resource, shown
      nowhere, and changes nothing otherwise. */
  lemma CreateOutcome(g: Gpu, resource: nat, width: nat, height: nat, rendererOk: bool)
    ensures var (g', response) := CreateResource(g, resource, width, height, rendererOk);
            if rendererOk && resource !in g.renderer then
              && response == OkNoData && g'.slots == g.slots && g'.sent == g.sent
              && (forall r :: r in g'.renderer <==> r in g.renderer || r == resource)
              && (forall r :: r in g'.resources <==> r in g.resources || r == resource)
              && (forall r :: r in g.resources && r != resource ==> g'.resources[r] == g.resources[r])
              && g'.resources[resource].id == resource && g'.resources[resource].scanouts == 0
              && g'.resources[resource].width == width && g'.resources[resource].height == height
            else g' == g && response == ErrRenderer
  {
  }

  /** An unref answers with success exactly if the resource exists, no scanout shows it and the renderer
      agrees. Whatever the answer, the device forgets this resource and no other; the renderer does so
      only on success. */
  lemma UnrefOutcome(g: Gpu, resource: nat, rendererOk: bool)
    requires Coherent(g)
    ensures var (g', response) := UnrefResource(g, resource, rendererOk);
            && response == (if resource !in g.resources then ErrInvalidResourceId
                            else if exists k: nat :: ShowsAt(g.slots, k, resource) then ErrUnspec
                            else if !rendererOk then ErrRenderer
                            else OkNoData)
            && g'.slots == g.slots && g'.sent == g.sent
            && (forall r :: r in g'.resources <==> r in g.resources && r != resource)
            && (forall r :: r in g'.resources ==> g'.resources[r] == g.resources[r])
            && (forall r :: r in g'.renderer <==> r in g.renderer && !(response.OkNoData? && r == resource))
  {
    UnrefCoherence(g, resource, rendererOk);
  }

  lemma UnrefCoherence(g: Gpu, resource: nat, rendererOk: bool)
    requires Coherent(g)
    ensures Coherent(UnrefResource(g, resource, rendererOk).0) <==> forall k: nat :: !ShowsAt(g.slots, k, resource)
    ensures resource in g.resources ==>
              (UnrefResource(g, resource, rendererOk).1 == ErrUnspec <==>
                 exists k: nat :: ShowsAt(g.slots, k, resource))
  {
    if resource in g.resources {
      var mask := g.resources[resource].scanouts;
      if mask != 0 {
        var k := SomeBit(mask);
        assert ShowsAt(g.slots, k, resource);
      } else {
        forall k: nat ensures !ShowsAt(g.slots, k, resource) { ZeroBit(k); }
        var g' := UnrefResource(g, resource, rendererOk).0;
        forall k: nat | k < MAX_SCANOUTS && g.slots[k].Some? ensures g.slots[k].value in g'.resources {
          assert !ShowsAt(g.slots, k, resource);
        }
      }
    } else {
      assert g.resources - {resource} == g.resources;
      forall k: nat ensures !ShowsAt(g.slots, k, resource) {}
    }
  }

  lemma CreateCoherence(g: Gpu, resource: nat, width: nat, height: nat, rendererOk: bool)
    requires Coherent(g)
    ensures Coherent(CreateResource(g, resource, width, height, rendererOk).0)
  {
    forall k: nat ensures !BitAt(0, k) { ZeroBit(k); }
  }

  // ---- agreement with the frontend ----

  /** Whether the last announcement for a scanout gave it a non-empty size. */
  predicate FrontendShows(sent: seq<Message>, scanout: nat) {
    if sent == [] then false
    else
      var last := sent[|sent| - 1];
      if last.Announce? && last.scanout == scanout then last.width > 0 && last.height > 0
      else FrontendShows(sent[..|sent| - 1], scanout)
  }

  ghost predicate FrontendAgrees(g: Gpu) {
    |g.slots| == MAX_SCANOUTS && forall k: nat :: k < MAX_SCANOUTS ==> (FrontendShows(g.sent, k) <==> g.slots[k].Some?)
  }

  /** The calls of `set_scanout` that keep table, bitmasks and frontend together. */
  predicate KeepsAll(g: Gpu, scanout: nat, resource: nat, width: nat, height: nat, backendOk: bool)
    requires |g.slots| == MAX_SCANOUTS
  {
    if scanout >= MAX_SCANOUTS then true
    else if resource == 0 then backendOk || g.slots[scanout].None?
    else if g.slots[scanout].Some? then resource in g.resources
    else !backendOk || (resource in g.resources <==> width > 0 && height > 0)
  }

  lemma SetScanoutAgreement(g: Gpu, scanout: nat, resource: nat, width: nat, height: nat, backendOk: bool)
    requires Coherent(g) && FrontendAgrees(g)
    ensures var g' := SetScanout(g, scanout, resource, width, height, backendOk).0;
            Coherent(g') && FrontendAgrees(g') <==> KeepsAll(g, scanout, resource, width, height, backendOk)
  {
    hide Or, Xor, BitAt, Pow2;
    SetScanoutCoherence(g, scanout, resource, width, height, backendOk);
    var g' := SetScanout(g, scanout, resource, width, height, backendOk).0;
    var w, h := if resource == 0 then 0 else width, if resource == 0 then 0 else height;
    assert g'.sent == g.sent || g'.sent == g.sent + [Announce(scanout, w, h)];
    assert (g.sent + [Announce(scanout, w, h)])[..|g.sent|] == g.sent;
    if scanout < MAX_SCANOUTS {
      assert FrontendShows(g.sent, scanout) <==> g.slots[scanout].Some?;
      assert FrontendAgrees(g') ==> (FrontendShows(g'.sent, scanout) <==> g'.slots[scanout].Some?);
    }
  }

  lemma {:induction false} UpdatesDoNotAnnounce(sent: seq<Message>, updates: seq<Message>, k: nat)
    requires forall i :: 0 <= i < |updates| ==> updates[i].Update?
    ensures FrontendShows(sent + updates, k) == FrontendShows(sent, k)
  {
    if updates == [] {
      assert sent + updates == sent;
    } else {
      var n := |updates| - 1;
      assert (sent + updates)[..|sent + updates| - 1] == sent + updates[..n];
      UpdatesDoNotAnnounce(sent, updates[..n], k);
    }
  }

  // ---- flush ----

  /** The scanouts at or above `from` that show a resource, ascending. */
  function ShowingFrom(slots: seq<Slot>, resource: nat, from: nat): (shown: seq<nat>)
    ensures forall k :: k in shown <==> k >= from && ShowsAt(slots, k, resource)
    ensures forall i, j :: 0 <= i < j < |shown| ==> shown[i] < shown[j]
    decreases |slots| - from
  {
    if from >= |slots| then []
    else
      var rest := ShowingFrom(slots, resource, from + 1);
      assert forall j :: 0 <= j < |rest| ==> rest[j] in rest;
      if ShowsAt(slots, from, resource) then [from] + rest else rest
  }

  lemma {:induction false} EnabledAreShowing(g: Gpu, resource: nat, from: nat)
    requires Coherent(g) && resource in g.resources && from <= MAX_SCANOUTS
    ensures EnabledFrom(g.resources[resource].scanouts, from) == ShowingFrom(g.slots, resource, from)
    decreases MAX_SCANOUTS - from
  {
    if from < MAX_SCANOUTS {
      EnabledAreShowing(g, resource, from + 1);
      assert BitAt(g.resources[resource].scanouts, from) <==> ShowsAt(g.slots, from, resource);
    }
  }

  /** One whole-resource update per scanout. */
  function UpdatesFor(scanouts: seq<nat>, r: Resource): seq<Message> {
    seq(|scanouts|, i requires 0 <= i < |scanouts| => Update(scanouts[i], r.width, r.height))
  }

  lemma {:induction false} UpdatesSent(r: Resource, scanouts: seq<nat>, readFails: set<nat>, sendFails: set<nat>)
    ensures var (updates, done) := FlushUpdates(r, scanouts, readFails, sendFails);
            && (forall i :: 0 <= i < |updates| ==> updates[i].Update?)
            && (SizeFits(r) && readFails == {} && sendFails == {} ==>
                  done && updates == UpdatesFor(scanouts, r))
  {
    if scanouts != [] {
      UpdatesSent(r, scanouts[1..], readFails, sendFails);
    }
  }

  /** A successful flush sends one whole-resource update to each scanout showing the resource, in
      ascending order, and nothing else. */
  lemma FlushReachesExactlyTheShowing(g: Gpu, resource: nat)
    requires Coherent(g) && resource in g.resources && resource != 0 && SizeFits(g.resources[resource])
    ensures var r := g.resources[resource];
            var shown := ShowingFrom(g.slots, resource, 0);
            FlushResource(g, resource, {}, {}) ==
              (g.(sent := g.sent + UpdatesFor(shown, r)), OkNoData)
  {
    EnabledAreShowing(g, resource, 0);
    UpdatesSent(g.resources[resource], ShowingFrom(g.slots, resource, 0), {}, {});
  }

  lemma FlushChangesNoBooks(g: Gpu, resource: nat, readFails: set<nat>, sendFails: set<nat>)
    requires Coherent(g)
    ensures var g' := FlushResource(g, resource, readFails, sendFails).0;
            Coherent(g') && (FrontendAgrees(g') <==> FrontendAgrees(g))
  {
    var g' := FlushResource(g, resource, readFails, sendFails).0;
    if resource != 0 && resource in g.resources {
      var r := g.resources[resource];
      UpdatesSent(r, EnabledFrom(r.scanouts, 0), readFails, sendFails);
      var updates := FlushUpdates(r, EnabledFrom(r.scanouts, 0), readFails, sendFails).0;
      forall k: nat ensures FrontendShows(g'.sent, k) == FrontendShows(g.sent, k) {
        UpdatesDoNotAnnounce(g.sent, updates, k);
      }
    }
  }

  /** A resource can be read back if its four bytes per pixel fit into 64 bits. */
  lemma SizeFitsIff(r: Resource)
    ensures SizeFits(r) <==> 4 * (r.width * r.height) < 0x1_0000_0000_0000_0000
  {
    hide Pow2;
    Pow2Of64();
  }

  lemma Pow2Of64()
    ensures Pow2(64) == 0x1_0000_0000_0000_0000
  {
    assert Pow2(8) == 0x100;
    hide Pow2;
    Pow2Add(8, 8);
    Pow2Add(16, 16);
    Pow2Add(32, 32);
  }

  /** The frontend takes no update for this scanout. */
  predicate Breaks(scanout: nat, readFails: set<nat>, sendFails: set<nat>) {
    scanout !in readFails && scanout in sendFails
  }

  /** A scanout of the list can be read and comes before the first one at which sending fails. */
  predicate Reached(k: nat, scanouts: seq<nat>, readFails: set<nat>, sendFails: set<nat>) {
    k in scanouts && k !in readFails && forall j :: j in scanouts && j <= k ==> !Breaks(j, readFails, sendFails)
  }

  /** Updates of the whole resource for different scanouts, ascending. */
  predicate WholeUpdates(updates: seq<Message>, r: Resource) {
    && (forall i :: 0 <= i < |updates| ==> updates[i] == Update(updates[i].scanout, r.width, r.height))
    && (forall i, j :: 0 <= i < j < |updates| ==> updates[i].scanout < updates[j].scanout)
  }

  ghost predicate SentUntilFailure(updates: seq<Message>, done: bool, r: Resource, scanouts: seq<nat>,
                                   readFails: set<nat>, sendFails: set<nat>)
  {
    && WholeUpdates(updates, r)
    && (forall k: nat :: Update(k, r.width, r.height) in updates <==> Reached(k, scanouts, readFails, sendFails))
    && (done <==> forall j :: j in scanouts ==> !Breaks(j, readFails, sendFails))
  }

  lemma {:induction false} FlushUntilFailure(r: Resource, scanouts: seq<nat>, readFails: set<nat>, sendFails: set<nat>)
    requires SizeFits(r) && forall i, j :: 0 <= i < j < |scanouts| ==> scanouts[i] < scanouts[j]
    ensures var (updates, done) := FlushUpdates(r, scanouts, readFails, sendFails);
            SentUntilFailure(updates, done, r, scanouts, readFails, sendFails)
  {
    if scanouts != [] {
      var first, rest := scanouts[0], scanouts[1..];
      assert scanouts == [first] + rest;
      assert forall k :: k in rest ==> first < k;
      FlushUntilFailure(r, rest, readFails, sendFails);
      hide SizeFits, WholeUpdates, Reached;
      var (updates, done) := FlushUpdates(r, rest, readFails, sendFails);
      FirstOfFlush(r, first, rest, updates, done, readFails, sendFails);
    }
  }

  lemma FirstOfFlush(r: Resource, first: nat, rest: seq<nat>, updates: seq<Message>, done: bool,
                     readFails: set<nat>, sendFails: set<nat>)
    requires SizeFits(r) && (forall k :: k in rest ==> first < k)
    requires SentUntilFailure(updates, done, r, rest, readFails, sendFails)
    ensures var (one, goOn) := FlushOne(r, first, readFails, sendFails);
            if goOn then SentUntilFailure(one + updates, done, r, [first] + rest, readFails, sendFails)
            else SentUntilFailure(one, false, r, [first] + rest, readFails, sendFails)
  {
    hide SizeFits, Reached, WholeUpdates;
    FirstReached(first, rest, readFails, sendFails);
    NoUpdates(r);
    if first in readFails {
      assert [] + updates == updates;
    } else if first !in sendFails {
      SentFirst(r, first, rest, updates, readFails, sendFails);
    }
  }

  lemma NoUpdates(r: Resource)
    ensures WholeUpdates([], r)
  {
  }

  lemma FirstReached(first: nat, rest: seq<nat>, readFails: set<nat>, sendFails: set<nat>)
    requires forall k :: k in rest ==> first < k
    ensures forall k: nat :: Reached(k, [first] + rest, readFails, sendFails) <==>
              !Breaks(first, readFails, sendFails)
              && ((k == first && k !in readFails) || Reached(k, rest, readFails, sendFails))
    ensures (forall j :: j in [first] + rest ==> !Breaks(j, readFails, sendFails)) <==>
              !Breaks(first, readFails, sendFails) && forall j :: j in rest ==> !Breaks(j, readFails, sendFails)
  {
    hide Breaks;
    var all := [first] + rest;
    assert forall j :: j in all <==> j == first || j in rest;
    forall k: nat
      ensures Reached(k, all, readFails, sendFails) <==>
                !Breaks(first, readFails, sendFails)
                && ((k == first && k !in readFails) || Reached(k, rest, readFails, sendFails))
    {
    }
  }

  lemma SentFirst(r: Resource, first: nat, rest: seq<nat>, updates: seq<Message>,
                  readFails: set<nat>, sendFails: set<nat>)
    requires WholeUpdates(updates, r) && (forall k :: k in rest ==> first < k)
    requires forall k: nat :: Update(k, r.width, r.height) in updates <==> Reached(k, rest, readFails, sendFails)
    ensures WholeUpdates([Update(first, r.width, r.height)] + updates, r)
    ensures forall k: nat :: Update(k, r.width, r.height) in [Update(first, r.width, r.height)] + updates <==>
                             k == first || Update(k, r.width, r.height) in updates
  {
    var longer := [Update(first, r.width, r.height)] + updates;
    forall i | 0 <= i < |updates| ensures first < updates[i].scanout && longer[i + 1] == updates[i] {
      assert updates[i] == Update(updates[i].scanout, r.width, r.height) && updates[i] in updates;
    }
    hide Reached;
    forall i, j | 0 <= i < j < |longer| ensures longer[i].scanout < longer[j].scanout {
      assert longer[j] == updates[j - 1] && first < updates[j - 1].scanout;
    }
  }

  /** What a flush sends for any failures of reads and sends: one update of the whole resource for every
      scanout showing it, ascending, that can be read and comes before the first one the frontend takes
      no update for; it succeeds exactly if there is no such one. A resource too large to be read back
      is not sent at all, and flushing it fails if it is shown. Flushing resource 0 does nothing. */
  lemma FlushOutcome(g: Gpu, resource: nat, readFails: set<nat>, sendFails: set<nat>)
    requires Coherent(g)
    ensures var (g', response) := FlushResource(g, resource, readFails, sendFails);
            && g' == g.(sent := g'.sent) && g.sent <= g'.sent
            && if resource == 0 then g'.sent == g.sent && response == OkNoData
               else if resource !in g.resources then g'.sent == g.sent && response == ErrInvalidResourceId
               else
                 var r, shown := g.resources[resource], ShowingFrom(g.slots, resource, 0);
                 && (response.OkNoData? || response.ErrUnspec?)
                 && if SizeFits(r) then
                      SentUntilFailure(g'.sent[|g.sent|..], response.OkNoData?, r, shown, readFails, sendFails)
                    else g'.sent == g.sent && (response.OkNoData? <==> shown == [])
  {
    if resource != 0 && resource in g.resources {
      EnabledAreShowing(g, resource, 0);
      var r, shown := g.resources[resource], ShowingFrom(g.slots, resource, 0);
      if SizeFits(r) {
        FlushUntilFailure(r, shown, readFails, sendFails);
      }
    }
  }

  lemma FlushOneScanout(r: Resource, from: nat, readFails: set<nat>, sendFails: set<nat>)
    requires from < MAX_SCANOUTS
    ensures var all := FlushUpdates(r, EnabledFrom(r.scanouts, from), readFails, sendFails);
            var rest := FlushUpdates(r, EnabledFrom(r.scanouts, from + 1), readFails, sendFails);
            var one := FlushOne(r, from, readFails, sendFails);
            all == if !BitAt(r.scanouts, from) then rest
                   else if !one.1 then one
                   else (one.0 + rest.0, rest.1)
  {
    var tail := EnabledFrom(r.scanouts, from + 1);
    if BitAt(r.scanouts, from) {
      assert ([from] + tail)[1..] == tail;
    } else {
      assert [] + tail == tail;
    }
  }

  lemma NothingLeftToFlush(r: Resource, readFails: set<nat>, sendFails: set<nat>)
    ensures FlushUpdates(r, EnabledFrom(r.scanouts, MAX_SCANOUTS), readFails, sendFails) == ([], true)
  {
  }

  // ---- every run ----

  datatype Command =
    | Create(resource: nat, width: nat, height: nat, rendererOk: bool)
    | Unref(resource: nat, rendererOk: bool)
    | Set(scanout: nat, resource: nat, width: nat, height: nat, backendOk: bool)
    | Flush(resource: nat, readFails: set<nat>, sendFails: set<nat>)

  function Step(g: Gpu, c: Command): Gpu
    requires |g.slots| == MAX_SCANOUTS
  {
    match c
    case Create(r, w, h, ok) => CreateResource(g, r, w, h, ok).0
    case Unref(r, ok) => UnrefResource(g, r, ok).0
    case Set(s, r, w, h, ok) => SetScanout(g, s, r, w, h, ok).0
    case Flush(r, rf, sf) => FlushResource(g, r, rf, sf).0
  }

  const INITIAL := Gpu(map[], seq(MAX_SCANOUTS, _ => None), {}, [])

  /** What a driver and a working frontend have to respect. */
  predicate Disciplined(g: Gpu, c: Command)
    requires |g.slots| == MAX_SCANOUTS
  {
    match c
    case Unref(r, _) => forall k: nat | k < MAX_SCANOUTS :: g.slots[k] != Some(r)
    case Set(s, r, w, h, ok) => KeepsAll(g, s, r, w, h, ok)
    case _ => true
  }

  ghost predicate InOrder(g: Gpu) {
    Coherent(g) && FrontendAgrees(g)
  }

  lemma StepKeepsOrder(g: Gpu, c: Command)
    requires InOrder(g)
    ensures InOrder(Step(g, c)) <==> Disciplined(g, c)
  {
    match c
    case Create(r, w, h, ok) => CreateCoherence(g, r, w, h, ok);
    case Unref(r, ok) =>
      UnrefCoherence(g, r, ok);
      assert (forall k: nat :: !ShowsAt(g.slots, k, r)) <==> Disciplined(g, c) by {
        if !Disciplined(g, c) {
          var k: nat :| k < MAX_SCANOUTS && g.slots[k] == Some(r);
          assert ShowsAt(g.slots, k, r);
        }
      }
    case Set(s, r, w, h, ok) => SetScanoutAgreement(g, s, r, w, h, ok);
    case Flush(r, rf, sf) => FlushChangesNoBooks(g, r, rf, sf);
  }

  /** Whether every state of a run is in order, the first one included. */
  ghost predicate OrderedRun(g: Gpu, run: seq<Command>)
    decreases run
  {
    InOrder(g) && (run != [] ==> OrderedRun(Step(g, run[0]), run[1..]))
  }

  ghost predicate DisciplinedRun(g: Gpu, run: seq<Command>)
    decreases run
  {
    |g.slots| == MAX_SCANOUTS && (run != [] ==> Disciplined(g, run[0]) && DisciplinedRun(Step(g, run[0]), run[1..]))
  }

  /** From any state in order, a run stays in order exactly as long as its commands are disciplined. */
  lemma {:induction false} RunsStayInOrder(g: Gpu, run: seq<Command>)
    requires InOrder(g)
    ensures OrderedRun(g, run) <==> DisciplinedRun(g, run)
    decreases run
  {
    if run != [] {
      StepKeepsOrder(g, run[0]);
      if Disciplined(g, run[0]) {
        RunsStayInOrder(Step(g, run[0]), run[1..]);
      }
    }
  }

  lemma EveryDisciplinedRun(run: seq<Command>)
    ensures OrderedRun(INITIAL, run) <==> DisciplinedRun(INITIAL, run)
  {
    RunsStayInOrder(INITIAL, run);
  }

  /** A resource created with a size, put on a free scanout and flushed reaches the frontend as one
      announcement of the requested size and one update of the resource's size. */
  lemma CreateSetFlush(g: Gpu, resource: nat, width: nat, height: nat, scanout: nat, shownWidth: nat, shownHeight: nat)
    requires Coherent(g) && resource !in g.renderer && resource != 0
    requires scanout < MAX_SCANOUTS && g.slots[scanout].None? && SizeFits(Resource(resource, width, height, 0))
    ensures var g1 := Step(g, Create(resource, width, height, true));
            var g2 := Step(g1, Set(scanout, resource, shownWidth, shownHeight, true));
            var g3 := Step(g2, Flush(resource, {}, {}));
            && Coherent(g3)
            && g3.sent == g.sent + [Announce(scanout, shownWidth, shownHeight), Update(scanout, width, height)]
  {
    hide EnabledFrom, FlushUpdates, SizeFits, BitAt, Or, Xor, Pow2;
    var g1 := Step(g, Create(resource, width, height, true));
    CreateCoherence(g, resource, width, height, true);
    SetScanoutCoherence(g1, scanout, resource, shownWidth, shownHeight, true);
    var g2 := Step(g1, Set(scanout, resource, shownWidth, shownHeight, true));
    SizeIgnoresScanouts(g2.resources[resource], Resource(resource, width, height, 0));
    FlushReachesExactlyTheShowing(g2, resource);
    FlushChangesNoBooks(g2, resource, {}, {});
    forall k: nat | k < MAX_SCANOUTS ensures g.slots[k] != Some(resource) {}
    forall k: nat ensures ShowsAt(g2.slots, k, resource) <==> k == scanout {}
    OnlyOneShowing(g2.slots, resource, scanout);
  }

  lemma SizeIgnoresScanouts(a: Resource, b: Resource)
    requires a.width == b.width && a.height == b.height
    ensures SizeFits(a) == SizeFits(b)
  {
  }

  lemma OnlyOneShowing(slots: seq<Slot>, resource: nat, scanout: nat)
    requires forall k: nat :: ShowsAt(slots, k, resource) <==> k == scanout
    ensures ShowingFrom(slots, resource, 0) == [scanout]
  {
    var shown := ShowingFrom(slots, resource, 0);
    assert |shown| > 1 ==> shown[0] < shown[1];
    assert ShowsAt(slots, scanout, resource);
    assert scanout in shown;
    forall i | 0 <= i < |shown| ensures shown[i] == scanout {
      assert shown[i] in shown;
    }
  }

  /** Naming a missing resource on an occupied scanout clears the old bit and keeps the old entry;
      the next `set_scanout` on it then sets a bit no entry stands for. */
  lemma MissingResourceBreaksCoherence()
    ensures var g := Step(Step(INITIAL, Create(1, 64, 64, true)), Set(0, 1, 64, 64, true));
            var broken := SetScanout(g, 0, 9, 64, 64, true);
            && Coherent(g)
            && broken.1 == ErrInvalidResourceId
            && broken.0.slots[0] == Some(1) && broken.0.resources[1].scanouts == 0
            && var worse := SetScanout(broken.0, 0, 0, 0, 0, true);
               worse.0.slots[0] == None && worse.0.resources[1].scanouts == 1
  {
    var g0 := Step(INITIAL, Create(1, 64, 64, true));
    CreateCoherence(INITIAL, 1, 64, 64, true);
    SetScanoutCoherence(g0, 0, 1, 64, 64, true);
  }

  /** After any unref the device no longer knows the resource: it can be neither flushed nor shown. The
      id becomes free for a new resource exactly if nothing showed it and the renderer let it go. */
  lemma UnrefFreesIdIff(g: Gpu, resource: nat, rendererOk: bool, width: nat, height: nat, scanout: nat)
    requires Coherent(g) && resource in g.resources && resource != 0 && scanout < MAX_SCANOUTS
    ensures var g' := UnrefResource(g, resource, rendererOk).0;
            && FlushResource(g', resource, {}, {}).1 == ErrInvalidResourceId
            && SetScanout(g', scanout, resource, width, height, true).1 == ErrInvalidResourceId
            && (CreateResource(g', resource, width, height, true).1.OkNoData? <==>
                  rendererOk && forall k: nat :: !ShowsAt(g.slots, k, resource))
            && forall r :: r in g.resources && r != resource ==> r in g'.resources && g'.resources[r] == g.resources[r]
  {
    UnrefCoherence(g, resource, rendererOk);
  }

  /** Refusing to unref a shown resource has already forgotten it. */
  lemma RefusedUnrefBreaksCoherence()
    ensures var g := Step(Step(INITIAL, Create(1, 64, 64, true)), Set(0, 1, 64, 64, true));
            var refused := UnrefResource(g, 1, true);
            && Coherent(g) && refused.1 == ErrUnspec
            && refused.0.slots[0] == Some(1) && 1 !in refused.0.resources && !Coherent(refused.0)
  {
    var g0 := Step(INITIAL, Create(1, 64, 64, true));
    CreateCoherence(INITIAL, 1, 64, 64, true);
    SetScanoutCoherence(g0, 0, 1, 64, 64, true);
  }

  // ---- the device object ----

  class RutabagaVirtioGpu {
    var resources: map<nat, Resource>
    const scanouts: array<Slot>
    var renderer: set<nat>
    var sent: seq<Message>

    ghost predicate Valid()
      reads this
    {
      scanouts.Length == MAX_SCANOUTS
    }

    function State(): (g: Gpu)
      reads this, scanouts
      ensures |g.slots| == scanouts.Length
    {
      Gpu(resources, scanouts[..], renderer, sent)
    }

    constructor ()
      ensures Valid() && fresh(scanouts)
      ensures State() == INITIAL
    {
      resources := map[];
      scanouts := new Slot[MAX_SCANOUTS](_ => None);
      renderer := {};
      sent := [];
      new;
      assert scanouts[..] == INITIAL.slots;
    }

    /** The frontend accepts or refuses a message. */
    method Send(message: Message, ok: bool)
      modifies this`sent
      ensures sent == if ok then old(sent) + [message] else old(sent)
    {
      if ok {
        sent := sent + [message];
      }
    }

    method SetScanoutCommand(scanout: nat, resource: nat, width: nat, height: nat, backendOk: bool)
      returns (response: Response)
      requires Valid()
      modifies this, scanouts
      ensures Valid()
      ensures (State(), response) == SetScanout(old(State()), scanout, resource, width, height, backendOk)
    {
      if scanout >= MAX_SCANOUTS {
        return ErrInvalidScanoutId;
      }
      var shown := scanouts[scanout];
      if shown.Some? {
        if shown.value !in resources {
          return ErrInvalidResourceId;
        }
        var r := resources[shown.value];
        resources := resources[shown.value := r.(scanouts := Disable(r.scanouts, scanout))];
      }
      if resource == 0 {
        scanouts[scanout] := None;
        Send(Announce(scanout, 0, 0), backendOk);
        return if backendOk then OkNoData else ErrUnspec;
      }
      if shown.None? {
        Send(Announce(scanout, width, height), backendOk);
        if !backendOk {
          return ErrUnspec;
        }
      }
      if resource !in resources {
        return ErrInvalidResourceId;
      }
      var r := resources[resource];
      resources := resources[resource := r.(scanouts := Enable(r.scanouts, scanout))];
      scanouts[scanout] := Some(resource);
      return OkNoData;
    }

    method CreateResourceCommand(resource: nat, width: nat, height: nat, rendererOk: bool) returns (response: Response)
      requires Valid()
      modifies this
      ensures Valid()
      ensures (State(), response) == CreateResource(old(State()), resource, width, height, rendererOk)
    {
      if !rendererOk || resource in renderer {
        return ErrRenderer;
      }
      renderer := renderer + {resource};
      resources := resources[resource := Resource(resource, width, height, 0)];
      return OkNoData;
    }

    method UnrefResourceCommand(resource: nat, rendererOk: bool) returns (response: Response)
      requires Valid()
      modifies this
      ensures Valid()
      ensures (State(), response) == UnrefResource(old(State()), resource, rendererOk)
    {
      var found := if resource in resources then Some(resources[resource]) else None;
      resources := resources - {resource};
      if found.None? {
        return ErrInvalidResourceId;
      }
      if found.value.scanouts != 0 {
        return ErrUnspec;
      }
      if !rendererOk {
        return ErrRenderer;
      }
      renderer := renderer - {resource};
      return OkNoData;
    }

    method FlushOneCommand(r: Resource, scanout: nat, readFails: set<nat>, sendFails: set<nat>) returns (goOn: bool)
      modifies this`sent
      ensures sent == old(sent) + FlushOne(r, scanout, readFails, sendFails).0
      ensures goOn == FlushOne(r, scanout, readFails, sendFails).1
    {
      if !SizeFits(r) {
        return false;
      }
      if scanout in readFails {
        return true;
      }
      if scanout in sendFails {
        return false;
      }
      Send(Update(scanout, r.width, r.height), true);
      return true;
    }

    method FlushResourceCommand(resource: nat, readFails: set<nat>, sendFails: set<nat>) returns (response: Response)
      requires Valid()
      modifies this`sent
      ensures (State(), response) == FlushResource(old(State()), resource, readFails, sendFails)
    {
      if resource == 0 {
        return OkNoData;
      }
      if resource !in resources {
        return ErrInvalidResourceId;
      }
      var r := resources[resource];
      var done := FlushEnabled(r, readFails, sendFails);
      return if done then OkNoData else ErrUnspec;
    }

    method FlushEnabled(r: Resource, readFails: set<nat>, sendFails: set<nat>) returns (done: bool)
      modifies this`sent
      ensures sent == old(sent) + FlushUpdates(r, EnabledFrom(r.scanouts, 0), readFails, sendFails).0
      ensures done == FlushUpdates(r, EnabledFrom(r.scanouts, 0), readFails, sendFails).1
    {
      hide FlushUpdates, FlushOne, EnabledFrom, BitAt;
      ghost var rest := FlushUpdates(r, EnabledFrom(r.scanouts, 0), readFails, sendFails);
      var scanout := 0;
      while scanout < MAX_SCANOUTS
        invariant scanout <= MAX_SCANOUTS
        invariant rest == FlushUpdates(r, EnabledFrom(r.scanouts, scanout), readFails, sendFails)
        invariant sent + rest.0 == old(sent + FlushUpdates(r, EnabledFrom(r.scanouts, 0), readFails, sendFails).0)
        invariant rest.1 == FlushUpdates(r, EnabledFrom(r.scanouts, 0), readFails, sendFails).1
      {
        FlushOneScanout(r, scanout, readFails, sendFails);
        if BitAt(r.scanouts, scanout) {
          var goOn := FlushOneCommand(r, scanout, readFails, sendFails);
          if !goOn {
            return false;
          }
        }
        scanout := scanout + 1;
        rest := FlushUpdates(r, EnabledFrom(r.scanouts, scanout), readFails, sendFails);
      }
      NothingLeftToFlush(r, readFails, sendFails);
      assert sent + [] == sent;
      return true;
    }
  }
}
