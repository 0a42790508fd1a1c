/** Whole readings of a selection, with other work of the session in between. */
module NavigationReading {
  import opened FrontierIds
  import opened Prelude
  import opened JsonValue
  import opened MemoryGraph
  import opened RecallSelection
  import opened Ledger
  import opened LedgerProofs
  import opened Navigation
  import opened NavigationProofs

  // ---- other work spares a reading -------------------------------------------------------

  /** Work that is not about Frontier `f` or its selection, within the same reality epoch. */
  ghost predicate Apart(nav: Nav, f: nat, id: string, a: NavAction) {
    match a
    case Continues(written, _) => Canonical(|nav.ledger.frontiers|, written) != Some(f)
    case AdvancesEpoch => false
    case OthersChange(recalls) => id in nav.recalls ==> id in recalls
    case _ => true
  }

  /** Frontier `f` still reads the same selection from the same cursor. */
  ghost predicate Spared(nav: Nav, nav1: Nav, f: nat, c: Cursor) {
    && CursorStands(nav1, f, c)
    && (c.snapshotId in nav.recalls ==> c.snapshotId in nav1.recalls
                                        && nav1.recalls[c.snapshotId] == nav.recalls[c.snapshotId])
  }

  lemma StandingNames(naming: Naming, nav: Nav, f: nat, c: Cursor)
    requires NavSound(naming, nav) && CursorStands(nav, f, c)
    ensures Names(nav.ledger, nav.ledger.frontiers[f].handle, c.snapshotId) && c.snapshotId in nav.mine
            && OnMemory(nav.ledger, f)
  {
    assert Names(nav.ledger, nav.ledger.frontiers[f].handle, c.snapshotId);
    assert HasCursor(nav.ledger, c.snapshotId);
  }

  lemma OtherContinueSpares(naming: Naming, nav: Nav, f: nat, c: Cursor, g: nat, other: Cursor)
    requires NavSound(naming, nav) && CursorStands(nav, f, c) && CursorStands(nav, g, other) && g != f
    ensures Spared(nav, ContinueFrontier(naming, nav, g).0, f, c)
  {
    StandingNames(naming, nav, f, c);
    StandingNames(naming, nav, g, other);
    assert nav.ledger.frontiers[f].handle != nav.ledger.frontiers[g].handle;
    assert other.snapshotId != c.snapshotId;
    StandingMaterialises(naming, nav, g, other);
    ConsumeKeeps(naming, nav.ledger, g);
    ConsumedUnnames(naming, nav.ledger, g, other);
    var nav0 := nav.(ledger := Consume(nav.ledger, g));
    assert CursorStands(nav0, f, c);
    if other.snapshotId in nav.recalls {
      assert Fits(nav.recalls, other);
      FitsFewer(nav.ledger, nav0.ledger, nav.recalls, nav.recalls);
      ReadSpares(naming, nav0, f, c, other);
    }
  }

  lemma ReadSpares(naming: Naming, nav: Nav, f: nat, c: Cursor, other: Cursor)
    requires MemorySound(naming, nav.ledger) && AllFit(nav.ledger, nav.recalls) && CursorStands(nav, f, c)
    requires !HasCursor(nav.ledger, other.snapshotId) && other.snapshotId != "" && other.snapshotId != c.snapshotId
    requires Fits(nav.recalls, other) && other.snapshotId in nav.recalls
    ensures Spared(nav, ContinueCursor(naming, nav, other).0, f, c)
  {
    var sel := nav.recalls[other.snapshotId];
    var last := Min(other.after + other.pageSize, sel.selected);
    ContinueCursorReads(naming, nav, other);
    var nav1 := ReadTo(naming, nav, other, sel, last).0;
    if last < sel.selected {
      PublishSpares(naming, nav, f, c, other.(after := last), sel.selected - last, nav1);
    }
  }

  lemma PublishSpares(naming: Naming, nav: Nav, f: nat, c: Cursor, other: Cursor, rest: nat, nav1: Nav)
    requires MemorySound(naming, nav.ledger) && AllFit(nav.ledger, nav.recalls) && CursorStands(nav, f, c)
    requires !HasCursor(nav.ledger, other.snapshotId) && other.snapshotId != ""
    requires Fits(nav.recalls, other) && rest > 0
    requires nav1.ledger == Publish(naming, nav.ledger, nav.epoch, other, rest).0
    requires nav1.recalls == nav.recalls && nav1.epoch == nav.epoch
    ensures Spared(nav, nav1, f, c)
  {
    PublishFits(naming, nav, other, rest);
    assert nav1.ledger.frontiers[f] == nav.ledger.frontiers[f];
  }

  lemma ContinuesSpares(naming: Naming, nav: Nav, f: nat, c: Cursor, written: string, revised: bool)
    requires NavSound(naming, nav) && CursorStands(nav, f, c) && Respects(naming, nav, Continues(written, revised))
    requires Canonical(|nav.ledger.frontiers|, written) != Some(f)
    ensures Spared(nav, Dispatch(naming, nav, written, revised), f, c)
  {
    DispatchLeads(naming, nav, written, revised);
    if Canonical(|nav.ledger.frontiers|, written).Some? {
      var g := Canonical(|nav.ledger.frontiers|, written).value;
      if OnMemory(nav.ledger, g) {
        if Resolve(nav.ledger, g, nav.epoch).Ok? {
          OtherContinueSpares(naming, nav, f, c, g, CursorOf(nav.ledger, nav.ledger.frontiers[g].handle).value);
        }
      } else {
        GenericSpares(naming, nav, f, c, g, revised);
      }
    }
  }

  lemma GenericSpares(naming: Naming, nav: Nav, f: nat, c: Cursor, g: nat, revised: bool)
    requires NavSound(naming, nav) && CursorStands(nav, f, c) && g != f && !OnMemory(nav.ledger, g)
    requires revised && IsOpen(nav.ledger, g) ==> !NextIsShared(naming, nav.ledger, g, nav.epoch)
    ensures Spared(nav, nav.(ledger := ContinueObservation(naming, nav.ledger, nav.epoch, g, revised)), f, c)
  {
    if revised {
      GenericReject(naming, nav.ledger, nav.epoch, g);
    } else {
      GenericContinue(naming, nav.ledger, nav.epoch, g);
    }
  }

  lemma ActivateSpares(naming: Naming, nav: Nav, f: nat, c: Cursor, id: string, created: Selection, pageSize: int,
                       selector: Json, selection: Json)
    requires NavSound(naming, nav) && CursorStands(nav, f, c) && id != c.snapshotId
    requires Respects(naming, nav, Activates(id, created, pageSize, selector, selection))
    ensures Spared(nav, Activate(naming, nav, id, created, pageSize, selector, selection).0, f, c)
  {
    ActivateDelivers(naming, nav, id, created, pageSize, selector, selection);
    var nav1 := Activate(naming, nav, id, created, pageSize, selector, selection).0;
    assert nav1.ledger == nav.ledger || nav1.ledger.frontiers[f] == nav.ledger.frontiers[f];
  }

  lemma ExposeSpares(naming: Naming, nav: Nav, f: nat, c: Cursor, handle: string, source: string, count: nat,
                     reason: string)
    requires NavSound(naming, nav) && CursorStands(nav, f, c)
    requires Respects(naming, nav, Exposes(handle, source, count, reason))
    ensures Spared(nav, PerformNav(naming, nav, Exposes(handle, source, count, reason)), f, c)
  {
    ExposeKeeps(naming, nav.ledger, handle, nav.epoch, source, count, reason);
    var l1 := Expose(nav.ledger, handle, nav.epoch, source, count, reason).0;
    assert l1.frontiers[f] == nav.ledger.frontiers[f];
  }

  lemma ApartSpares(naming: Naming, nav: Nav, f: nat, c: Cursor, a: NavAction)
    requires NavSound(naming, nav) && CursorStands(nav, f, c) && Respects(naming, nav, a)
    requires Apart(nav, f, c.snapshotId, a)
    ensures Spared(nav, PerformNav(naming, nav, a), f, c)
  {
    StandingNames(naming, nav, f, c);
    match a
    case Activates(id, created, pageSize, selector, selection) =>
      ActivateSpares(naming, nav, f, c, id, created, pageSize, selector, selection);
    case Continues(written, revised) =>
      ContinuesSpares(naming, nav, f, c, written, revised);
    case Registers(kind, payload, source, description, pageSize, offset) =>
      RegistersSound(naming, nav, kind, payload, source, description, pageSize, offset);
    case Exposes(handle, source, count, reason) =>
      ExposeSpares(naming, nav, f, c, handle, source, count, reason);
    case _ =>
  }

  ghost predicate ApartRun(naming: Naming, navs: seq<Nav>, actions: seq<NavAction>, f: nat, id: string) {
    IsNavRun(naming, navs, actions) && forall i :: 0 <= i < |actions| ==> Apart(navs[i], f, id, actions[i])
  }

  /** From one state to another by any amount of work apart from Frontier `f`. */
  ghost predicate Meanwhile(naming: Naming, from: Nav, to: Nav, f: nat, id: string) {
    exists navs, actions :: ApartRun(naming, navs, actions, f, id) && navs[0] == from && navs[|actions|] == to
  }

  lemma {:induction false} ApartRunSpares(naming: Naming, navs: seq<Nav>, actions: seq<NavAction>, f: nat, c: Cursor,
                                          n: nat)
    requires ApartRun(naming, navs, actions, f, c.snapshotId) && NavSound(naming, navs[0])
    requires CursorStands(navs[0], f, c) && n < |navs|
    ensures NavSound(naming, navs[n]) && Spared(navs[0], navs[n], f, c)
  {
    if n > 0 {
      ApartRunSpares(naming, navs, actions, f, c, n - 1);
      NavActionSound(naming, navs[n - 1], actions[n - 1]);
      ApartSpares(naming, navs[n - 1], f, c, actions[n - 1]);
    }
  }

  lemma MeanwhileSpares(naming: Naming, from: Nav, to: Nav, f: nat, c: Cursor)
    requires Meanwhile(naming, from, to, f, c.snapshotId) && NavSound(naming, from) && CursorStands(from, f, c)
    ensures NavSound(naming, to) && Spared(from, to, f, c)
  {
    var navs, actions :| ApartRun(naming, navs, actions, f, c.snapshotId) && navs[0] == from && navs[|actions|] == to;
    ApartRunSpares(naming, navs, actions, f, c, |actions|);
  }

  // ---- a whole reading -------------------------------------------------------------------

  datatype Turn = Turn(before: Nav, f: nat, delivery: Delivery)

  function After(naming: Naming, turn: Turn): Nav {
    ContinueFrontier(naming, turn.before, turn.f).0
  }

  predicate Succeeds(naming: Naming, turn: Turn) {
    ContinueFrontier(naming, turn.before, turn.f).1 == Ok(turn.delivery)
  }

  /** Each turn continues the Frontier the last one published, after any other work; the last publishes none. */
  ghost predicate IsReading(naming: Naming, turns: seq<Turn>, id: string)
    decreases |turns|
  {
    && |turns| > 0 && Succeeds(naming, turns[0])
    && if |turns| == 1 then turns[0].delivery.frontiers == []
       else && turns[0].delivery.frontiers == [turns[1].f]
            && Meanwhile(naming, After(naming, turns[0]), turns[1].before, turns[1].f, id)
            && IsReading(naming, turns[1..], id)
  }

  /** The state after the last turn. */
  function Final(naming: Naming, turns: seq<Turn>): Nav
    requires |turns| > 0
  {
    if |turns| == 1 then After(naming, turns[0]) else Final(naming, turns[1..])
  }

  function Gathered(turns: seq<Turn>): seq<NodeId> {
    if turns == [] then [] else turns[0].delivery.nodes + Gathered(turns[1..])
  }

  lemma NodesSplit(items: seq<Item>, i: nat, j: nat)
    requires i <= j <= |items|
    ensures NodesOfItems(items[i..]) == NodesOfItems(items[i..j]) + NodesOfItems(items[j..])
  {
  }

  /** Frontier `f` of a sound session reads the stored selection `sel` from the cursor `c`. */
  ghost predicate Reads(naming: Naming, nav: Nav, f: nat, c: Cursor, sel: Selection) {
    && NavSound(naming, nav) && CursorStands(nav, f, c)
    && c.snapshotId in nav.recalls && nav.recalls[c.snapshotId] == sel
  }

  /** What the first turn of a reading leaves for the others. */
  lemma TurnDelivers(naming: Naming, turns: seq<Turn>, c: Cursor, sel: Selection)
    requires IsReading(naming, turns, c.snapshotId) && Reads(naming, turns[0].before, turns[0].f, c, sel)
    ensures var last := Min(c.after + c.pageSize, sel.selected);
            && WellFormed(sel) && 0 <= c.after <= last && c.pageSize >= 1
            && turns[0].delivery.nodes == NodesOfItems(sel.items[c.after..last])
            && (|turns| == 1 <==> last == sel.selected)
            && (|turns| > 1 ==> IsReading(naming, turns[1..], c.snapshotId)
                                && Reads(naming, turns[1..][0].before, turns[1..][0].f, c.(after := last), sel))
  {
    ContinueDelivers(naming, turns[0].before, turns[0].f, c, sel);
    assert Fits(turns[0].before.recalls, c);
    if |turns| > 1 {
      var last := Min(c.after + c.pageSize, sel.selected);
      MeanwhileSpares(naming, After(naming, turns[0]), turns[1].before, turns[1].f, c.(after := last));
    }
  }

  /** The turns carry consecutive slices of the items, a full page each but the last, up to the end. */
  predicate Slices(turns: seq<Turn>, items: seq<Item>, after: nat, pageSize: nat)
    decreases |turns|
  {
    && |turns| > 0 && after <= |items|
    && var last := Min(after + pageSize, |items|);
       && turns[0].delivery.nodes == NodesOfItems(items[after..last])
       && if |turns| == 1 then last == |items| else last < |items| && Slices(turns[1..], items, last, pageSize)
  }

  lemma {:induction false} ReadingSlices(naming: Naming, turns: seq<Turn>, c: Cursor, sel: Selection)
    requires IsReading(naming, turns, c.snapshotId) && Reads(naming, turns[0].before, turns[0].f, c, sel)
    ensures 0 <= c.after <= sel.selected == |sel.items| && c.pageSize >= 1
    ensures Slices(turns, sel.items, c.after, c.pageSize)
    decreases |turns|
  {
    TurnDelivers(naming, turns, c, sel);
    if |turns| > 1 {
      ReadingSlices(naming, turns[1..], c.(after := Min(c.after + c.pageSize, sel.selected)), sel);
    }
  }

  lemma {:induction false} SlicesGather(turns: seq<Turn>, items: seq<Item>, after: nat, pageSize: nat)
    requires Slices(turns, items, after, pageSize)
    ensures Gathered(turns) == NodesOfItems(items[after..])
    ensures ExactPages(|turns|, |items|, after, pageSize)
    decreases |turns|
  {
    var last := Min(after + pageSize, |items|);
    NodesSplit(items, after, last);
    if |turns| > 1 {
      SlicesGather(turns[1..], items, last, pageSize);
      ExactPagesNext(|turns| - 1, |items|, after, pageSize);
    } else {
      assert items[last..] == [] && turns[1..] == [];
    }
  }

  /** A reading delivers the rest of its selection exactly once and in order, whatever happens in between, in
      exactly the expected number of pages. */
  lemma ReadingDelivers(naming: Naming, turns: seq<Turn>, c: Cursor, sel: Selection)
    requires IsReading(naming, turns, c.snapshotId) && Reads(naming, turns[0].before, turns[0].f, c, sel)
    ensures 0 <= c.after <= sel.selected == |sel.items| && c.pageSize >= 1
    ensures Gathered(turns) == NodesOfItems(sel.items[c.after..])
    ensures ExactPages(|turns|, sel.selected, c.after, c.pageSize)
  {
    ReadingSlices(naming, turns, c, sel);
    SlicesGather(turns, sel.items, c.after, c.pageSize);
  }

  /** After a reading the stored selection is gone and the session is sound. */
  lemma {:induction false} ReadingEnds(naming: Naming, turns: seq<Turn>, c: Cursor, sel: Selection)
    requires IsReading(naming, turns, c.snapshotId) && Reads(naming, turns[0].before, turns[0].f, c, sel)
    ensures NavSound(naming, Final(naming, turns)) && c.snapshotId !in Final(naming, turns).recalls
    decreases |turns|
  {
    TurnDelivers(naming, turns, c, sel);
    if |turns| > 1 {
      ReadingEnds(naming, turns[1..], c.(after := Min(c.after + c.pageSize, sel.selected)), sel);
    } else {
      ContinueDelivers(naming, turns[0].before, turns[0].f, c, sel);
    }
  }

  /** An activation whose remaining pages are then read, with any other work in between. */
  ghost predicate ReadsActivation(naming: Naming, nav: Nav, a: NavAction, turns: seq<Turn>)
    requires a.Activates?
  {
    var (nav1, first) := Activate(naming, nav, a.id, a.created, a.pageSize, a.selector, a.selection);
    if first.frontiers == [] then turns == []
    else && IsReading(naming, turns, a.id) && first.frontiers == [turns[0].f]
         && Meanwhile(naming, nav1, turns[0].before, turns[0].f, a.id)
  }

  /** Where the reading of an activation starts. */
  lemma ActivationReads(naming: Naming, nav: Nav, a: NavAction, turns: seq<Turn>)
    requires NavSound(naming, nav) && a.Activates? && Respects(naming, nav, a) && ReadsActivation(naming, nav, a, turns)
    ensures var (nav1, first) := Activate(naming, nav, a.id, a.created, a.pageSize, a.selector, a.selection);
            var last := Min(Max(1, a.pageSize), a.created.selected);
            && first.nodes == NodesOfItems(a.created.items[..last]) == nav1.view.nodes
            && (turns == [] ==> last == a.created.selected && a.id !in nav1.recalls)
            && (turns != [] ==> Reads(naming, turns[0].before, turns[0].f,
                                      Cursor(a.id, last, Max(1, a.pageSize), a.selector, a.selection), a.created))
  {
    ActivateDelivers(naming, nav, a.id, a.created, a.pageSize, a.selector, a.selection);
    var (nav1, first) := Activate(naming, nav, a.id, a.created, a.pageSize, a.selector, a.selection);
    if first.frontiers != [] {
      var c := Cursor(a.id, Min(Max(1, a.pageSize), a.created.selected), Max(1, a.pageSize), a.selector, a.selection);
      MeanwhileSpares(naming, nav1, turns[0].before, turns[0].f, c);
    }
  }

  /** Activation and then continuation deliver exactly the stored selection: once, in order, complete; afterwards
      it is no longer stored. */
  lemma SelectionIsDelivered(naming: Naming, nav: Nav, a: NavAction, turns: seq<Turn>)
    requires NavSound(naming, nav) && a.Activates? && Respects(naming, nav, a) && ReadsActivation(naming, nav, a, turns)
    ensures var (nav1, first) := Activate(naming, nav, a.id, a.created, a.pageSize, a.selector, a.selection);
            && first.nodes + Gathered(turns) == NodesOfItems(a.created.items)
            && a.id !in (if turns == [] then nav1 else Final(naming, turns)).recalls
  {
    ActivationReads(naming, nav, a, turns);
    var last := Min(Max(1, a.pageSize), a.created.selected);
    NodesSplit(a.created.items, 0, last);
    assert a.created.items[0..] == a.created.items && a.created.items[0..last] == a.created.items[..last];
    if turns != [] {
      var c := Cursor(a.id, last, Max(1, a.pageSize), a.selector, a.selection);
      ReadingDelivers(naming, turns, c, a.created);
      ReadingEnds(naming, turns, c, a.created);
    }
  }

  // ---- the view --------------------------------------------------------------------------

  predicate Unique(s: seq<string>) {
    forall i, j :: 0 <= i < j < |s| ==> s[i] != s[j]
  }

  lemma {:induction false} MergeIntoUnique(merged: seq<string>, rest: seq<string>)
    requires Unique(merged + rest)
    ensures MergeInto(merged, rest) == merged + rest
    decreases |rest|
  {
    if rest != [] {
      assert (merged + rest)[|merged|] == rest[0];
      assert forall i :: 0 <= i < |merged| ==> (merged + rest)[i] == merged[i];
      assert merged + [rest[0]] + rest[1..] == merged + rest;
      MergeIntoUnique(merged + [rest[0]], rest[1..]);
    } else {
      assert merged + rest == merged;
    }
  }

  /** Merging keeps the order, drops nothing and repeats nothing. */
  lemma {:induction false} MergeIntoIsSet(merged: seq<string>, rest: seq<string>)
    requires Unique(merged)
    ensures Unique(MergeInto(merged, rest)) && merged <= MergeInto(merged, rest)
    ensures forall x :: x in MergeInto(merged, rest) <==> x in merged || x in rest
    decreases |rest|
  {
    if rest != [] {
      var next := if rest[0] in merged then merged else merged + [rest[0]];
      MergeIntoIsSet(next, rest[1..]);
    }
  }

  /** Neither an activation nor a continuation of a Memory Frontier. */
  predicate Quiet(nav: Nav, a: NavAction) {
    && !a.Activates?
    && (a.Continues? ==>
          var f := Canonical(|nav.ledger.frontiers|, a.written);
          f.Some? ==> !OnMemory(nav.ledger, f.value))
  }

  /** Only an activation or a Memory continuation changes the view. */
  lemma OnlyMemoryChangesView(naming: Naming, nav: Nav, a: NavAction)
    requires Quiet(nav, a)
    ensures PerformNav(naming, nav, a).view == nav.view
  {
    if a.Continues? {
      DispatchLeads(naming, nav, a.written, a.revised);
    }
  }

  ghost predicate QuietRun(naming: Naming, navs: seq<Nav>, actions: seq<NavAction>, f: nat, id: string) {
    ApartRun(naming, navs, actions, f, id) && forall i :: 0 <= i < |actions| ==> Quiet(navs[i], actions[i])
  }

  /** As `Meanwhile`, with no other activation and no other Memory continuation in between. */
  ghost predicate QuietMeanwhile(naming: Naming, from: Nav, to: Nav, f: nat, id: string) {
    exists navs, actions :: QuietRun(naming, navs, actions, f, id) && navs[0] == from && navs[|actions|] == to
  }

  lemma {:induction false} QuietRunKeepsView(naming: Naming, navs: seq<Nav>, actions: seq<NavAction>, f: nat,
                                             id: string, n: nat)
    requires QuietRun(naming, navs, actions, f, id) && n < |navs|
    ensures navs[n].view == navs[0].view
  {
    if n > 0 {
      QuietRunKeepsView(naming, navs, actions, f, id, n - 1);
      OnlyMemoryChangesView(naming, navs[n - 1], actions[n - 1]);
    }
  }

  lemma QuietKeepsView(naming: Naming, from: Nav, to: Nav, f: nat, id: string)
    requires QuietMeanwhile(naming, from, to, f, id)
    ensures to.view == from.view
  {
    var navs, actions :| QuietRun(naming, navs, actions, f, id) && navs[0] == from && navs[|actions|] == to;
    QuietRunKeepsView(naming, navs, actions, f, id, |actions|);
  }

  /** Between the turns nothing else is activated and no other Memory Frontier is continued. */
  ghost predicate QuietTurns(naming: Naming, turns: seq<Turn>, id: string) {
    |turns| > 1 ==>
      && QuietMeanwhile(naming, After(naming, turns[0]), turns[1].before, turns[1].f, id)
      && QuietTurns(naming, turns[1..], id)
  }

  lemma {:induction false} ReadingFillsView(naming: Naming, turns: seq<Turn>, c: Cursor, sel: Selection)
    requires IsReading(naming, turns, c.snapshotId) && QuietTurns(naming, turns, c.snapshotId)
    requires Reads(naming, turns[0].before, turns[0].f, c, sel) && WellFormed(sel) && 0 <= c.after <= sel.selected
    requires turns[0].before.view.nodes == NodesOfItems(sel.items[..c.after])
    ensures Final(naming, turns).view.nodes == NodesOfItems(sel.items)
    decreases |turns|
  {
    TurnDelivers(naming, turns, c, sel);
    var last := Min(c.after + c.pageSize, sel.selected);
    assert After(naming, turns[0]).view.nodes == NodesOfItems(sel.items[..last]) by {
      ContinueDelivers(naming, turns[0].before, turns[0].f, c, sel);
      MergeIsPrefix(sel, c.after, last);
    }
    if |turns| > 1 {
      QuietKeepsView(naming, After(naming, turns[0]), turns[1].before, turns[1].f, c.snapshotId);
      ReadingFillsView(naming, turns[1..], c.(after := last), sel);
    } else {
      assert sel.items[..last] == sel.items;
    }
  }

  lemma PrefixUnique(items: seq<Item>, j: nat)
    requires NodesUnique(items) && j <= |items|
    ensures Unique(NodesOfItems(items[..j]))
  {
  }

  lemma PrefixSplits(items: seq<Item>, i: nat, j: nat)
    requires i <= j <= |items|
    ensures NodesOfItems(items[..i]) + NodesOfItems(items[i..j]) == NodesOfItems(items[..j])
  {
  }

  lemma MergeIsPrefix(sel: Selection, i: nat, j: nat)
    requires WellFormed(sel) && i <= j <= sel.selected
    ensures Merge(NodesOfItems(sel.items[..i]), NodesOfItems(sel.items[i..j])) == NodesOfItems(sel.items[..j])
  {
    PrefixSplits(sel.items, i, j);
    PrefixUnique(sel.items, j);
    var all := NodesOfItems(sel.items[..j]);
    assert [] + all == all;
    MergeIntoUnique([], all);
  }

  /** When nothing else is activated and no other Memory Frontier is continued in between, the view ends as exactly
      the selection. */
  lemma FinalViewIsSelection(naming: Naming, nav: Nav, a: NavAction, turns: seq<Turn>)
    requires NavSound(naming, nav) && a.Activates? && Respects(naming, nav, a) && ReadsActivation(naming, nav, a, turns)
    requires QuietTurns(naming, turns, a.id)
    requires turns != [] ==>
               QuietMeanwhile(naming, PerformNav(naming, nav, a), turns[0].before, turns[0].f, a.id)
    ensures var final := if turns == [] then PerformNav(naming, nav, a) else Final(naming, turns);
            final.view.nodes == NodesOfItems(a.created.items)
  {
    ActivationReads(naming, nav, a, turns);
    var last := Min(Max(1, a.pageSize), a.created.selected);
    if turns != [] {
      QuietKeepsView(naming, PerformNav(naming, nav, a), turns[0].before, turns[0].f, a.id);
      ReadingFillsView(naming, turns, Cursor(a.id, last, Max(1, a.pageSize), a.selector, a.selection), a.created);
    } else {
      assert a.created.items[..last] == a.created.items;
    }
  }
}
