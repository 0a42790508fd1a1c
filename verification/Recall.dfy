/** Persisted recall selections: how a selection is made from the graph and its index, paged, released and
    collected. FTS matching and the two ORDER BY clauses are parameters. */
module RecallSelection {
  import opened Prelude
  import opened MemoryGraph
  import opened MemoryStore

  type Matcher = IndexRow -> bool
  type Order = (string, string) -> bool

  /** Nature, volatility, relation and tag criteria are folded, as NOCASE compares them. */
  datatype Selector = Selector(
    scopes: Option<set<string>>, retention: Option<Retention>, domain: Option<Domain>, contextKey: Option<string>,
    natures: set<string>, volatilities: set<string>, relations: set<string>,
    ids: set<NodeId>, tags: set<string>, searching: bool, includeNeighbours: bool)

  datatype Source = Match | Neighbour(from: NodeId, via: EdgeId)

  datatype Item = Item(ordinal: nat, node: NodeId, source: Source)

  datatype Selection = Selection(owner: string, scoped: nat, matched: nat, selected: nat, items: seq<Item>)

  datatype RecallError = SelectorRequired | StoreInvalid | SnapshotNotFound

  // ---- the criteria ----------------------------------------------------------------------

  predicate InScope(g: Graph, sel: Selector, id: NodeId) {
    && id in g.nodes && g.nodes[id].status == Current
    && (sel.scopes.Some? ==> g.nodes[id].scope in sel.scopes.value)
    && (sel.retention.Some? ==> g.nodes[id].retention == sel.retention.value)
    && (sel.domain.Some? ==> g.nodes[id].domain == sel.domain.value)
    && (sel.contextKey.Some? ==> g.nodes[id].contextKey == sel.contextKey)
  }

  predicate Related(g: Graph, relations: set<string>, id: NodeId) {
    exists e :: e in g.edges && g.edges[e].status == Live && (g.edges[e].source == id || g.edges[e].target == id)
                && Fold(g.edges[e].relation) in relations
  }

  predicate InBase(g: Graph, sel: Selector, id: NodeId) {
    && InScope(g, sel, id)
    && (sel.natures != {} ==> Fold(g.nodes[id].epistemic.nature) in sel.natures)
    && (sel.volatilities != {} ==> Fold(g.nodes[id].epistemic.volatility) in sel.volatilities)
    && (sel.relations != {} ==> Related(g, sel.relations, id))
  }

  predicate ByEpistemic(sel: Selector) {
    sel.natures != {} || sel.volatilities != {} || sel.relations != {}
  }

  predicate Named(sel: Selector) {
    sel.searching || sel.ids != {} || sel.tags != {}
  }

  predicate Physical(sel: Selector) {
    sel.domain.Some? || sel.contextKey.Some?
  }

  /** With no criterion naming nodes, every node of the base is selected. */
  predicate TakesAll(sel: Selector) {
    !Named(sel) && (ByEpistemic(sel) || Physical(sel))
  }

  predicate Selective(sel: Selector) {
    Named(sel) || ByEpistemic(sel) || Physical(sel)
  }

  function Hits(rows: seq<IndexRow>, matches: Matcher): nat {
    if rows == [] then 0 else (if matches(rows[0]) then 1 else 0) + Hits(rows[1..], matches)
  }

  /** Rows of query_hits for one node: one per matching index row, or the LIKE fallback's single test. */
  function QueryHits(g: Graph, index: seq<IndexRow>, searchable: bool, sel: Selector, matches: Matcher, id: NodeId)
    : nat {
    if !sel.searching || id !in g.nodes then 0
    else if searchable then Hits(RowsOf(index, id), matches)
    else if matches(IndexRowOf(id, g.nodes[id], TagsOf(g, id))) then 1 else 0
  }

  predicate Wanted(g: Graph, sel: Selector, hits: nat, id: NodeId) {
    id in sel.ids || (exists t :: t in TagsOf(g, id) && t in sel.tags) || hits > 0 || TakesAll(sel)
  }

  /** A direct match of the selection. */
  predicate Matches(g: Graph, index: seq<IndexRow>, searchable: bool, sel: Selector, matches: Matcher, id: NodeId) {
    InBase(g, sel, id) && Wanted(g, sel, QueryHits(g, index, searchable, sel, matches, id), id)
  }

  /** A live edge between a node and a matched node. */
  predicate Joins(g: Graph, e: EdgeId, id: NodeId, matched: set<NodeId>) {
    && e in g.edges && g.edges[e].status == Live
    && ((g.edges[e].source == id && g.edges[e].target in matched)
        || (g.edges[e].target == id && g.edges[e].source in matched))
  }

  function OtherEnd(g: Graph, e: EdgeId, id: NodeId): NodeId
    requires e in g.edges
  {
    if g.edges[e].source == id then g.edges[e].target else g.edges[e].source
  }

  predicate IsNeighbour(g: Graph, sel: Selector, matched: set<NodeId>, id: NodeId) {
    InScope(g, sel, id) && id !in matched && exists e :: e in g.edges && Joins(g, e, id, matched)
  }

  // ---- ordering --------------------------------------------------------------------------

  ghost predicate TotalOrder(before: Order) {
    && (forall a, b :: before(a, b) || before(b, a))
    && (forall a, b, c :: before(a, b) && before(b, c) ==> before(a, c))
    && (forall a, b :: before(a, b) && before(b, a) ==> a == b)
  }

  ghost predicate Sorted(before: Order, s: seq<string>) {
    forall i, j :: 0 <= i < j < |s| ==> before(s[i], s[j])
  }

  function Insert(before: Order, s: seq<string>, x: string): (r: seq<string>)
    ensures multiset(r) == multiset(s) + multiset{x}
    ensures forall y :: y in r <==> y in s || y == x
  {
    if s == [] then [x]
    else if before(x, s[0]) then [x] + s
    else
      assert s == [s[0]] + s[1..];
      [s[0]] + Insert(before, s[1..], x)
  }

  lemma SortedCons(before: Order, x: string, s: seq<string>)
    requires Sorted(before, s) && forall y :: y in s ==> before(x, y)
    ensures Sorted(before, [x] + s)
  {
    var r := [x] + s;
    forall i, j | 0 <= i < j < |r|
      ensures before(r[i], r[j])
    {
      assert r[j] == s[j - 1];
      assert i > 0 ==> r[i] == s[i - 1];
    }
  }

  lemma SortedTail(before: Order, s: seq<string>)
    requires s != [] && Sorted(before, s)
    ensures Sorted(before, s[1..]) && forall y :: y in s[1..] ==> before(s[0], y)
  {
    forall y | y in s[1..]
      ensures before(s[0], y)
    {
      var m :| 0 <= m < |s[1..]| && s[1..][m] == y;
      assert before(s[0], s[m + 1]);
    }
  }

  lemma {:induction false} InsertSorts(before: Order, s: seq<string>, x: string)
    requires TotalOrder(before) && Sorted(before, s)
    ensures Sorted(before, Insert(before, s, x))
  {
    if s != [] {
      SortedTail(before, s);
      if before(x, s[0]) {
        assert s == [s[0]] + s[1..];
        assert forall y :: y in s ==> y == s[0] || y in s[1..];
        SortedCons(before, x, s);
      } else {
        assert before(s[0], x);
        InsertSorts(before, s[1..], x);
        SortedCons(before, s[0], Insert(before, s[1..], x));
      }
    }
  }

  // ---- a well-formed selection -----------------------------------------------------------

  predicate OrdinalsFromOne(items: seq<Item>) {
    forall i :: 0 <= i < |items| ==> items[i].ordinal == i + 1
  }

  predicate NodesUnique(items: seq<Item>) {
    forall i, j :: 0 <= i < j < |items| ==> items[i].node != items[j].node
  }

  function NodesIn(items: seq<Item>): (ids: set<NodeId>)
    ensures forall id :: id in ids <==> exists i :: 0 <= i < |items| && items[i].node == id
  {
    set i | 0 <= i < |items| :: items[i].node
  }

  /** The direct matches, in their order, then their in-scope neighbours with the least edge as witness. */
  ghost predicate SelectionOf(g: Graph, index: seq<IndexRow>, searchable: bool, sel: Selector, matches: Matcher,
                              byRank: Order, byId: Order, s: Selection)
  {
    && s.matched <= s.selected == |s.items|
    && s.scoped == |set id | id in g.nodes && InScope(g, sel, id)|
    && OrdinalsFromOne(s.items) && NodesUnique(s.items)
    && (forall id :: id in NodesIn(s.items[..s.matched]) <==> Matches(g, index, searchable, sel, matches, id))
    && (forall i :: 0 <= i < s.matched ==> s.items[i].source == Match)
    && (forall id :: id in NodesIn(s.items[s.matched..])
                     <==> sel.includeNeighbours && IsNeighbour(g, sel, NodesIn(s.items[..s.matched]), id))
    && (forall i :: s.matched <= i < s.selected ==> Witnessed(g, NodesIn(s.items[..s.matched]), byId, s.items[i]))
    && (TotalOrder(byRank) ==> forall i, j :: 0 <= i < j < s.matched ==> byRank(s.items[i].node, s.items[j].node))
    && (TotalOrder(byId) ==> forall i, j :: s.matched <= i < j < s.selected ==> byId(s.items[i].node, s.items[j].node))
  }

  ghost predicate Witnessed(g: Graph, matched: set<NodeId>, byId: Order, item: Item) {
    && item.source.Neighbour?
    && Joins(g, item.source.via, item.node, matched)
    && item.source.from == OtherEnd(g, item.source.via, item.node)
    && (TotalOrder(byId) ==> forall e :: e in g.edges && Joins(g, e, item.node, matched) ==> byId(item.source.via, e))
  }

  /** The query join gives every selected node one row only. */
  ghost predicate JoinIsUnique(g: Graph, index: seq<IndexRow>, searchable: bool, sel: Selector, matches: Matcher) {
    forall id :: InBase(g, sel, id) ==> QueryHits(g, index, searchable, sel, matches, id) <= 1
  }

  /** One index row per current node is what makes the join unique. */
  lemma ExactIndexJoinsOnce(g: Graph, index: seq<IndexRow>, searchable: bool, sel: Selector, matches: Matcher)
    requires searchable ==> IndexExact(index, g.nodes, g.tags)
    ensures JoinIsUnique(g, index, searchable, sel, matches)
    ensures forall id :: InBase(g, sel, id) ==>
              (QueryHits(g, index, searchable, sel, matches, id) > 0
               <==> sel.searching && matches(IndexRowOf(id, g.nodes[id], TagsOf(g, id))))
  {
    forall id | InBase(g, sel, id)
      ensures QueryHits(g, index, searchable, sel, matches, id) <= 1
      ensures QueryHits(g, index, searchable, sel, matches, id) > 0
              <==> sel.searching && matches(IndexRowOf(id, g.nodes[id], TagsOf(g, id)))
    {
      if searchable {
        var row := IndexRowOf(id, g.nodes[id], TagsOf(g, id));
        assert RowsOf(index, id) == Rebuilt(g.nodes, g.tags, id) == [row];
        assert [row][1..] == [];
        assert Hits([row], matches) == if matches(row) then 1 else 0;
      }
    }
  }

  // ---- what a selection holds, said of the stored rows -----------------------------------

  /** The row meets the criteria every selected node must meet. */
  predicate MeetsScope(row: NodeRow, sel: Selector) {
    && row.status == Current
    && (sel.scopes == None || row.scope in sel.scopes.value)
    && (sel.retention == None || sel.retention == Some(row.retention))
    && (sel.domain == None || sel.domain == Some(row.domain))
    && (sel.contextKey == None || sel.contextKey == row.contextKey)
  }

  predicate TouchedBy(edge: EdgeRow, id: NodeId, relations: set<string>) {
    edge.status == Live && id in {edge.source, edge.target} && Fold(edge.relation) in relations
  }

  /** The row meets the criteria of its own kind of knowledge and of its relations, where the selector has any. */
  predicate MeetsKnowledge(edges: map<EdgeId, EdgeRow>, id: NodeId, row: NodeRow, sel: Selector) {
    && (sel.natures == {} || Fold(row.epistemic.nature) in sel.natures)
    && (sel.volatilities == {} || Fold(row.epistemic.volatility) in sel.volatilities)
    && (sel.relations == {} || exists e :: e in edges && TouchedBy(edges[e], id, sel.relations))
  }

  /** The selector asks for the node by id, by tag or by text; or it names nothing at all. */
  predicate AsksFor(id: NodeId, row: NodeRow, tags: TagSet, sel: Selector, matches: Matcher) {
    || id in sel.ids
    || (exists t :: t in tags && t in sel.tags)
    || (sel.searching && matches(IndexRowOf(id, row, tags)))
    || (!sel.searching && sel.ids == {} && sel.tags == {})
  }

  /** Over an exact index a selection that was made holds, as direct matches, exactly the stored nodes that meet the
      scope and the criteria of knowledge and are asked for. */
  lemma MatchesAreExact(g: Graph, index: seq<IndexRow>, searchable: bool, sel: Selector, matches: Matcher,
                        byRank: Order, byId: Order, s: Selection, id: NodeId)
    requires SelectionOf(g, index, searchable, sel, matches, byRank, byId, s) && Selective(sel)
    requires searchable ==> IndexExact(index, g.nodes, g.tags)
    ensures id in NodesIn(s.items[..s.matched])
            <==> && id in g.nodes && MeetsScope(g.nodes[id], sel)
                 && MeetsKnowledge(g.edges, id, g.nodes[id], sel)
                 && AsksFor(id, g.nodes[id], TagsOf(g, id), sel, matches)
    ensures s.scoped == |set x | x in g.nodes && MeetsScope(g.nodes[x], sel)|
  {
    assert (set x | x in g.nodes && MeetsScope(g.nodes[x], sel)) == set x | x in g.nodes && InScope(g, sel, x);
    ExactIndexJoinsOnce(g, index, searchable, sel, matches);
    if id in g.nodes {
      assert forall e :: e in g.edges ==>
               (TouchedBy(g.edges[e], id, sel.relations)
                <==> g.edges[e].status == Live && (g.edges[e].source == id || g.edges[e].target == id)
                     && Fold(g.edges[e].relation) in sel.relations);
    }
  }

  /** Neighbours are asked for, and this one meets the scope without being matched and has a live edge to a match. */
  predicate NextToMatch(g: Graph, sel: Selector, matched: set<NodeId>, id: NodeId) {
    && sel.includeNeighbours && id in g.nodes && MeetsScope(g.nodes[id], sel) && id !in matched
    && exists e, m :: e in g.edges && m in matched && Connects(g.edges[e], id, m)
  }

  predicate Connects(edge: EdgeRow, a: NodeId, b: NodeId) {
    edge.status == Live && ((edge.source, edge.target) == (a, b) || (edge.source, edge.target) == (b, a))
  }

  /** Behind the matches stand exactly the nodes in scope that a live edge connects with one of them, and each names a
      match and a live edge that connects the two. */
  lemma NeighboursAreExact(g: Graph, index: seq<IndexRow>, searchable: bool, sel: Selector, matches: Matcher,
                           byRank: Order, byId: Order, s: Selection)
    requires SelectionOf(g, index, searchable, sel, matches, byRank, byId, s)
    ensures var matched := NodesIn(s.items[..s.matched]);
            && (forall id :: id in NodesIn(s.items[s.matched..]) <==> NextToMatch(g, sel, matched, id))
            && forall i :: s.matched <= i < s.selected ==>
                 && s.items[i].source.Neighbour? && s.items[i].source.from in matched
                 && s.items[i].source.via in g.edges
                 && Connects(g.edges[s.items[i].source.via], s.items[i].node, s.items[i].source.from)
  {
    var matched := NodesIn(s.items[..s.matched]);
    forall id
      ensures sel.includeNeighbours && IsNeighbour(g, sel, matched, id) <==> NextToMatch(g, sel, matched, id)
    {
      JoinsConnect(g, matched, id);
    }
    forall i | s.matched <= i < s.selected
      ensures s.items[i].source.Neighbour? && s.items[i].source.from in matched
      ensures s.items[i].source.via in g.edges
      ensures Connects(g.edges[s.items[i].source.via], s.items[i].node, s.items[i].source.from)
    {
      assert Witnessed(g, matched, byId, s.items[i]);
      var added := s.items[s.matched..];
      assert added[i - s.matched] == s.items[i];
      assert s.items[i].node in NodesIn(added);
    }
  }

  lemma JoinsConnect(g: Graph, matched: set<NodeId>, id: NodeId)
    ensures (exists e :: e in g.edges && Joins(g, e, id, matched))
            <==> exists e, m :: e in g.edges && m in matched && Connects(g.edges[e], id, m)
  {
    if e :| e in g.edges && Joins(g, e, id, matched) {
      var m := if g.edges[e].source == id && g.edges[e].target in matched then g.edges[e].target else g.edges[e].source;
      assert Connects(g.edges[e], id, m);
    }
    if e, m :| e in g.edges && m in matched && Connects(g.edges[e], id, m) {
      assert Joins(g, e, id, matched);
    }
  }

  // ---- making a selection ----------------------------------------------------------------

  /** The rows of `candidates`: every wanted node once per joined query row, and at least once. */
  method Candidates(g: Graph, index: seq<IndexRow>, searchable: bool, sel: Selector, matches: Matcher, byRank: Order)
    returns (rows: seq<NodeId>)
    ensures forall id :: multiset(rows)[id]
                         == if Matches(g, index, searchable, sel, matches, id)
                            then Max(1, QueryHits(g, index, searchable, sel, matches, id)) else 0
    ensures TotalOrder(byRank) ==> Sorted(byRank, rows)
  {
    rows := [];
    var rest := g.nodes.Keys;
    while rest != {}
      invariant rest <= g.nodes.Keys
      invariant forall id :: multiset(rows)[id]
                             == if id !in rest && Matches(g, index, searchable, sel, matches, id)
                                then Max(1, QueryHits(g, index, searchable, sel, matches, id)) else 0
      invariant TotalOrder(byRank) ==> Sorted(byRank, rows)
      decreases |rest|
    {
      var id :| id in rest;
      if Matches(g, index, searchable, sel, matches, id) {
        var copies := Max(1, QueryHits(g, index, searchable, sel, matches, id));
        rows := InsertCopies(byRank, rows, id, copies);
      }
      rest := rest - {id};
    }
  }

  method InsertCopies(before: Order, rows: seq<string>, x: string, copies: nat) returns (r: seq<string>)
    ensures forall y :: multiset(r)[y] == multiset(rows)[y] + if y == x then copies else 0
    ensures TotalOrder(before) && Sorted(before, rows) ==> Sorted(before, r)
  {
    r := rows;
    for i := 0 to copies
      invariant forall y :: multiset(r)[y] == multiset(rows)[y] + if y == x then i else 0
      invariant TotalOrder(before) && Sorted(before, rows) ==> Sorted(before, r)
    {
      if TotalOrder(before) && Sorted(before, rows) {
        InsertSorts(before, r, x);
      }
      r := Insert(before, r, x);
    }
  }

  /** The least live edge joining a neighbour to the matched set. */
  method LeastEdge(g: Graph, matched: set<NodeId>, id: NodeId, byId: Order) returns (via: EdgeId)
    requires exists e :: e in g.edges && Joins(g, e, id, matched)
    ensures via in g.edges && Joins(g, via, id, matched)
    ensures TotalOrder(byId) ==> forall e :: e in g.edges && Joins(g, e, id, matched) ==> byId(via, e)
  {
    via :| via in g.edges && Joins(g, via, id, matched);
    var rest := g.edges.Keys;
    while rest != {}
      invariant rest <= g.edges.Keys
      invariant via in g.edges && Joins(g, via, id, matched)
      invariant TotalOrder(byId) ==> forall e :: e in g.edges && e !in rest && Joins(g, e, id, matched) ==> byId(via, e)
      decreases |rest|
    {
      var e :| e in rest;
      if Joins(g, e, id, matched) && byId(e, via) {
        via := e;
      }
      rest := rest - {e};
    }
  }

  /** The nodes of a set in the given order. */
  method InOrder(ids: set<string>, byId: Order) returns (order: seq<string>)
    ensures forall id :: id in order <==> id in ids
    ensures forall i, j :: 0 <= i < j < |order| ==> order[i] != order[j]
    ensures TotalOrder(byId) ==> Sorted(byId, order)
  {
    order := [];
    var rest := ids;
    while rest != {}
      invariant rest <= ids
      invariant forall id :: multiset(order)[id] == if id in ids - rest then 1 else 0
      invariant TotalOrder(byId) ==> Sorted(byId, order)
      decreases |rest|
    {
      var id :| id in rest;
      if TotalOrder(byId) {
        InsertSorts(byId, order, id);
      }
      order := Insert(byId, order, id);
      rest := rest - {id};
    }
    CountedOnce(order);
    forall id
      ensures id in order <==> id in ids
    {
      assert id in order <==> multiset(order)[id] > 0;
    }
  }

  lemma CountedOnce(s: seq<string>)
    requires forall x :: multiset(s)[x] <= 1
    ensures forall i, j :: 0 <= i < j < |s| ==> s[i] != s[j]
  {
    forall i, j | 0 <= i < j < |s|
      ensures s[i] != s[j]
    {
      if s[i] == s[j] {
        assert s[..j][i] == s[i];
        CountedTwice(s, j, s[j]);
      }
    }
  }

  lemma CountedTwice(s: seq<string>, i: nat, x: string)
    requires i < |s| && s[i] == x && x in s[..i]
    ensures multiset(s)[x] >= 2
  {
    assert s == s[..i] + [s[i]] + s[i + 1..];
    assert x in multiset(s[..i]);
  }

  /** One selection: the matches, then their neighbours when asked for. */
  method Select(g: Graph, index: seq<IndexRow>, searchable: bool, sel: Selector, matches: Matcher, byRank: Order,
                byId: Order, owner: string)
    returns (r: Result<Selection, RecallError>)
    ensures r == Err(SelectorRequired) <==> !Selective(sel)
    ensures r.Ok? <==> Selective(sel) && WantedOnce(g, index, searchable, sel, matches)
    ensures r.Ok? ==> r.value.owner == Strip(owner)
                      && SelectionOf(g, index, searchable, sel, matches, byRank, byId, r.value)
  {
    if !Selective(sel) {
      return Err(SelectorRequired);
    }
    var scoped := |set id | id in g.nodes && InScope(g, sel, id)|;
    var direct := SelectMatches(g, index, searchable, sel, matches, byRank);
    if direct.Err? {
      return Err(direct.error);
    }
    var items := direct.value;
    var matched := |items|;
    if sel.includeNeighbours && matched > 0 {
      items := AddNeighbours(g, sel, items, byId);
    }
    r := Ok(Selection(Strip(owner), scoped, matched, |items|, items));
    Assembled(g, index, searchable, sel, matches, byRank, byId, direct.value, r.value);
  }

  /** Matches followed by what was added for them make a selection. */
  lemma Assembled(g: Graph, index: seq<IndexRow>, searchable: bool, sel: Selector, matches: Matcher, byRank: Order,
                  byId: Order, direct: seq<Item>, s: Selection)
    requires s.matched == |direct| <= |s.items| == s.selected && s.items[..s.matched] == direct
    requires s.scoped == |set id | id in g.nodes && InScope(g, sel, id)|
    requires OrdinalsFromOne(s.items) && NodesUnique(s.items)
    requires forall id :: id in NodesIn(direct) <==> Matches(g, index, searchable, sel, matches, id)
    requires forall i :: 0 <= i < |direct| ==> direct[i].source == Match
    requires TotalOrder(byRank) ==> forall i, j :: 0 <= i < j < |direct| ==> byRank(direct[i].node, direct[j].node)
    requires forall id :: id in NodesIn(s.items[s.matched..])
              <==> sel.includeNeighbours && IsNeighbour(g, sel, NodesIn(direct), id)
    requires forall i :: s.matched <= i < s.selected ==> Witnessed(g, NodesIn(direct), byId, s.items[i])
    requires TotalOrder(byId) ==> forall i, j :: s.matched <= i < j < s.selected
                                   ==> byId(s.items[i].node, s.items[j].node)
    ensures SelectionOf(g, index, searchable, sel, matches, byRank, byId, s)
  {
    assert forall i :: 0 <= i < s.matched ==> s.items[i] == direct[i];
  }

  class RecallTables {
    var snapshots: map<string, Selection>

    constructor ()
      ensures snapshots == map[]
    {
      snapshots := map[];
    }

    /** Selects once and stores only ids and ordinals. It fails, storing nothing, exactly when the selector is
        empty or the query join repeats a wanted node. */
    method CreateSnapshot(g: Graph, index: seq<IndexRow>, searchable: bool, sel: Selector, matches: Matcher,
                          byRank: Order, byId: Order, snapshotId: string, owner: string)
      returns (r: Result<Selection, RecallError>)
      requires snapshotId !in snapshots
      modifies this
      ensures r.Err? ==> snapshots == old(snapshots)
      ensures r == Err(SelectorRequired) <==> !Selective(sel)
      ensures r.Ok? <==> Selective(sel) && WantedOnce(g, index, searchable, sel, matches)
      ensures r.Ok? ==> snapshots == old(snapshots)[snapshotId := r.value] && r.value.owner == Strip(owner)
      ensures r.Ok? ==> SelectionOf(g, index, searchable, sel, matches, byRank, byId, r.value)
    {
      r := Select(g, index, searchable, sel, matches, byRank, byId, owner);
      if r.Ok? {
        snapshots := snapshots[snapshotId := r.value];
      }
    }

    method Release(snapshotId: string)
      modifies this
      ensures snapshots == old(snapshots) - {snapshotId}
    {
      snapshots := snapshots - {snapshotId};
    }

    /** Ownership collection: a snapshot goes unless it is preserved or a live execution owns it. */
    method CollectOrphans(live: set<string>, preserved: set<string>) returns (doomed: set<string>)
      modifies this
      ensures doomed == set id | id in old(snapshots) && !Kept(id, old(snapshots)[id].owner, live, preserved)
      ensures snapshots == old(snapshots) - doomed
    {
      doomed := {};
      var rest := snapshots.Keys;
      while rest != {}
        invariant rest <= snapshots.Keys && snapshots == old(snapshots)
        invariant doomed == set id | id in snapshots && id !in rest && !Kept(id, snapshots[id].owner, live, preserved)
        decreases |rest|
      {
        var id :| id in rest;
        if !Kept(id, snapshots[id].owner, live, preserved) {
          doomed := doomed + {id};
        }
        rest := rest - {id};
      }
      snapshots := snapshots - doomed;
    }
  }

  predicate Kept(id: string, owner: string, live: set<string>, preserved: set<string>) {
    id in preserved || (Strip(owner) != "" && Strip(owner) in live)
  }

  ghost predicate WantedOnce(g: Graph, index: seq<IndexRow>, searchable: bool, sel: Selector, matches: Matcher) {
    forall id :: Matches(g, index, searchable, sel, matches, id)
     ==> QueryHits(g, index, searchable, sel, matches, id) <= 1
  }

  /** Stores the candidate rows one by one; the (snapshot, node) key refuses a repeated node. */
  method SelectMatches(g: Graph, index: seq<IndexRow>, searchable: bool, sel: Selector, matches: Matcher, byRank: Order)
    returns (r: Result<seq<Item>, RecallError>)
    ensures r.Ok? <==> WantedOnce(g, index, searchable, sel, matches)
    ensures r.Err? ==> r.error == StoreInvalid
    ensures r.Ok? ==>
              && OrdinalsFromOne(r.value) && NodesUnique(r.value)
              && (forall id :: id in NodesIn(r.value) <==> Matches(g, index, searchable, sel, matches, id))
              && (forall i :: 0 <= i < |r.value| ==> r.value[i].source == Match)
              && (TotalOrder(byRank) ==> forall i, j :: 0 <= i < j < |r.value|
                                          ==> byRank(r.value[i].node, r.value[j].node))
  {
    var rows := Candidates(g, index, searchable, sel, matches, byRank);
    var items: seq<Item> := [];
    for i := 0 to |rows|
      invariant |items| == i && OrdinalsFromOne(items) && NodesUnique(items)
      invariant forall k :: 0 <= k < i ==> items[k].node == rows[k] && items[k].source == Match
    {
      if rows[i] in NodesIn(items) {
        CountedTwice(rows, i, rows[i]);
        return Err(StoreInvalid);
      }
      items := items + [Item(i + 1, rows[i], Match)];
    }
    MatchesCountOnce(g, index, searchable, sel, matches, rows, items);
    return Ok(items);
  }

  lemma MatchesCountOnce(g: Graph, index: seq<IndexRow>, searchable: bool, sel: Selector, matches: Matcher,
                         rows: seq<NodeId>, items: seq<Item>)
    requires forall id :: multiset(rows)[id]
                         == if Matches(g, index, searchable, sel, matches, id)
                            then Max(1, QueryHits(g, index, searchable, sel, matches, id)) else 0
    requires |items| == |rows| && NodesUnique(items) && forall k :: 0 <= k < |rows| ==> items[k].node == rows[k]
    ensures forall id :: id in NodesIn(items) <==> Matches(g, index, searchable, sel, matches, id)
    ensures WantedOnce(g, index, searchable, sel, matches)
  {
    forall id
      ensures id in NodesIn(items) <==> Matches(g, index, searchable, sel, matches, id)
      ensures multiset(rows)[id] <= 1
    {
      assert id in NodesIn(items) <==> id in rows;
      assert id in rows <==> multiset(rows)[id] > 0;
      UniqueCount(rows, id);
    }
  }

  lemma {:induction false} UniqueCount(s: seq<string>, x: string)
    requires forall i, j :: 0 <= i < j < |s| ==> s[i] != s[j]
    ensures multiset(s)[x] <= 1
  {
    if s != [] {
      assert s == [s[0]] + s[1..];
      UniqueCount(s[1..], x);
      assert s[0] !in s[1..];
      assert multiset(s[1..])[s[0]] == 0 by {
        assert s[0] !in multiset(s[1..]);
      }
    }
  }

  /** Appends the one-hop neighbours of the matches. */
  method AddNeighbours(g: Graph, sel: Selector, matches: seq<Item>, byId: Order) returns (items: seq<Item>)
    requires OrdinalsFromOne(matches) && NodesUnique(matches)
    ensures |matches| <= |items| && items[..|matches|] == matches
    ensures OrdinalsFromOne(items) && NodesUnique(items)
    ensures forall id :: id in NodesIn(items[|matches|..]) <==> IsNeighbour(g, sel, NodesIn(matches), id)
    ensures forall i :: |matches| <= i < |items| ==> Witnessed(g, NodesIn(matches), byId, items[i])
    ensures TotalOrder(byId) ==> forall i, j :: |matches| <= i < j < |items| ==> byId(items[i].node, items[j].node)
  {
    var matched, n := NodesIn(matches), |matches|;
    var order := InOrder((set id | id in g.nodes && IsNeighbour(g, sel, matched, id)), byId);
    var added: seq<Item> := [];
    for i := 0 to |order|
      invariant |added| == i
      invariant forall k :: 0 <= k < i ==> added[k].node == order[k] && added[k].ordinal == n + k + 1
      invariant forall k :: 0 <= k < i ==> Witnessed(g, matched, byId, added[k])
    {
      assert order[i] in order;
      var via := LeastEdge(g, matched, order[i], byId);
      var item := Item(n + i + 1, order[i], Neighbour(OtherEnd(g, via, order[i]), via));
      assert Witnessed(g, matched, byId, item);
      added := added + [item];
    }
    items := matches + added;
    assert items[n..] == added;
    forall id
      ensures id in NodesIn(added) <==> IsNeighbour(g, sel, matched, id)
    {
      assert id in NodesIn(added) <==> id in order;
    }
    forall i, j | 0 <= i < j < |items|
      ensures items[i].node != items[j].node
    {
      if i < n <= j {
        assert items[i].node in matched && items[j].node in NodesIn(added);
      }
    }
  }

  /** In a store whose index is exact, every selective request succeeds. */
  lemma ExactIndexSelects(g: Graph, index: seq<IndexRow>, searchable: bool, sel: Selector, matches: Matcher)
    requires searchable ==> IndexExact(index, g.nodes, g.tags)
    ensures WantedOnce(g, index, searchable, sel, matches)
  {
    ExactIndexJoinsOnce(g, index, searchable, sel, matches);
  }

  // ---- paging ----------------------------------------------------------------------------

  datatype Page = Page(items: seq<Item>, last: nat, remaining: nat)

  /** SELECT .. WHERE ordinal > after ORDER BY ordinal */
  function ItemsAfter(items: seq<Item>, after: nat): seq<Item> {
    if items == [] then [] else (if items[0].ordinal > after then [items[0]] else []) + ItemsAfter(items[1..], after)
  }

  function PageOf(s: Selection, after: nat, limit: int): Page {
    var later := ItemsAfter(s.items, after);
    var rows := later[..Min(Max(1, limit), |later|)];
    var last := if rows == [] then after else rows[|rows| - 1].ordinal;
    Page(rows, last, Max(0, s.selected - last))
  }

  function NodesOfItems(items: seq<Item>): seq<NodeId> {
    seq(|items|, i requires 0 <= i < |items| => items[i].node)
  }

  lemma {:induction false} ItemsAfterIsSuffix(items: seq<Item>, first: nat, after: nat)
    requires forall i :: 0 <= i < |items| ==> items[i].ordinal == first + i
    ensures ItemsAfter(items, after) == items[Min(Max(0, after + 1 - first), |items|)..]
    decreases |items|
  {
    if items != [] {
      ItemsAfterIsSuffix(items[1..], first + 1, after);
      assert items == [items[0]] + items[1..];
    }
  }

  /** A page of a well-formed selection is the slice after the cursor, with the exact rest still to come. */
  lemma PageIsSlice(s: Selection, after: nat, limit: int)
    requires OrdinalsFromOne(s.items) && s.selected == |s.items| && after <= s.selected
    ensures var page := PageOf(s, after, limit);
            && after <= page.last == Min(after + Max(1, limit), s.selected)
            && page.items == s.items[after..page.last]
            && page.remaining == s.selected - page.last
  {
    ItemsAfterIsSuffix(s.items, 1, after);
    var later := ItemsAfter(s.items, after);
    assert later == s.items[after..] && |later| == s.selected - after;
    TakeOfDrop(s.items, after, Min(Max(1, limit), |later|));
  }

  lemma TakeOfDrop(items: seq<Item>, after: nat, n: nat)
    requires after + n <= |items|
    ensures items[after..][..n] == items[after..after + n]
    ensures n > 0 ==> items[after..][..n][n - 1] == items[after + n - 1]
  {
  }
}
