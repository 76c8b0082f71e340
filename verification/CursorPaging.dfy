/**
 Reading a whole table through a query executor that answers only bounded pages: the symbol read, whose
 rows carry their own cursor, and the site read, which pages edges and their sites by two budgets.
*/
module CursorPaging {
  import opened Options

  datatype Site = Site(file: int, line: int, col: int)

  datatype Edge = Edge(id: int, sites: seq<Site>)

  datatype Row = Row(edge: int, site: Site)

  /** The edges of the database in the order of their ids. */
  type Table = seq<Edge>

  predicate IsTable(table: Table) {
    forall i, j :: 0 <= i < j < |table| ==> table[i].id < table[j].id
  }

  function RowsOf(edge: Edge): (rows: seq<Row>)
    ensures |rows| == |edge.sites| && forall r :: r in rows ==> r.edge == edge.id
  {
    seq(|edge.sites|, i requires 0 <= i < |edge.sites| => Row(edge.id, edge.sites[i]))
  }

  /** All site rows of the edges from a up to b, in order. */
  function Rows(table: Table, a: nat, b: nat): seq<Row>
    requires b <= |table|
    decreases b
  {
    if a >= b then [] else Rows(table, a, b - 1) + RowsOf(table[b - 1])
  }

  // ----- the executor's contract -----

  datatype EdgePage = EdgePage(ids: seq<int>, truncated: bool)

  datatype SymbolPage = SymbolPage(ids: seq<int>, truncated: bool, partial: bool, unknown: bool)

  datatype SitePage = SitePage(rows: seq<Row>, truncated: bool, partial: bool, unknown: bool)

  type Cursor = Option<int>

  /** The calls the paging makes: edge ids and sites after a cursor, and the site count of one edge. */
  datatype Executor = Executor(
    edges: Cursor -> EdgePage,
    sites: Cursor -> SitePage,
    siteCount: int -> nat)

  datatype Budgets = Budgets(edges: nat, sites: nat)

  /** The edges up to index k are exactly those the cursor has passed. */
  predicate AtCursor(table: Table, cursor: Cursor, k: nat) {
    k <= |table| &&
    match cursor
    case None => k == 0
    case Some(id) => (forall i :: 0 <= i < k ==> table[i].id <= id) && (forall i :: k <= i < |table| ==> id < table[i].id)
  }

  function WindowEnd(table: Table, budgets: Budgets, k: nat): (e: nat)
    requires k <= |table|
    ensures k <= e <= |table|
  {
    if |table| - k <= budgets.edges then |table| else k + budgets.edges
  }

  function Take(rows: seq<Row>, n: nat): seq<Row> {
    if |rows| <= n then rows else rows[..n]
  }

  function EdgeIds(table: Table, a: nat, b: nat): (ids: seq<int>)
    requires a <= b <= |table|
    ensures |ids| == b - a
  {
    seq(b - a, i requires 0 <= i < b - a => table[a + i].id)
  }

  /** What the query layer documents about the three calls. */
  ghost predicate Honors(executor: Executor, table: Table, budgets: Budgets) {
    && budgets.edges >= 1 && budgets.sites >= 1
    && (forall cursor, k: nat :: AtCursor(table, cursor, k) ==>
          var e := WindowEnd(table, budgets, k);
          var window := Rows(table, k, e);
          && executor.edges(cursor).ids == EdgeIds(table, k, e)
          && (executor.edges(cursor).truncated <==> e < |table|)
          && executor.sites(cursor).rows == Take(window, budgets.sites)
          && (executor.sites(cursor).truncated <==> e < |table| || |window| > budgets.sites))
    && (forall i :: 0 <= i < |table| ==> executor.siteCount(table[i].id) == |table[i].sites|)
  }

  // ----- rows of intervals -----

  lemma {:induction false} RowsSplit(table: Table, a: nat, b: nat, c: nat)
    requires a <= b <= c <= |table|
    ensures Rows(table, a, c) == Rows(table, a, b) + Rows(table, b, c)
    decreases c
  {
    hide RowsOf;
    if b < c {
      RowsSplit(table, a, b, c - 1);
    } else {
      assert Rows(table, b, c) == [];
    }
  }

  function CountOf(rows: seq<Row>, id: int): (n: nat)
    ensures n <= |rows|
  {
    if rows == [] then 0
    else CountOf(rows[..|rows| - 1], id) + if rows[|rows| - 1].edge == id then 1 else 0
  }

  function Without(rows: seq<Row>, id: int): seq<Row> {
    if rows == [] then []
    else
      var rest := Without(rows[..|rows| - 1], id);
      if rows[|rows| - 1].edge == id then rest else rest + [rows[|rows| - 1]]
  }

  lemma OneMoreRow(rows: seq<Row>, row: Row, id: int)
    ensures CountOf(rows + [row], id) == CountOf(rows, id) + if row.edge == id then 1 else 0
    ensures Without(rows + [row], id) == if row.edge == id then Without(rows, id) else Without(rows, id) + [row]
  {
    assert (rows + [row])[..|rows|] == rows;
  }

  lemma {:induction false} OtherRows(others: seq<Row>, id: int)
    requires forall r :: r in others ==> r.edge != id
    ensures CountOf(others, id) == 0 && Without(others, id) == others
  {
    if others != [] {
      var rest, last := others[..|others| - 1], others[|others| - 1];
      assert others == rest + [last] && last in others;
      OtherRows(rest, id);
      OneMoreRow(rest, last, id);
    }
  }

  /** Rows of other edges followed by rows of one edge. */
  lemma {:induction false} CountAtEnd(others: seq<Row>, own: seq<Row>, id: int)
    requires forall r :: r in others ==> r.edge != id
    requires forall r :: r in own ==> r.edge == id
    ensures CountOf(others + own, id) == |own|
    ensures Without(others + own, id) == others
    decreases |own|
  {
    hide CountOf, Without;
    if own != [] {
      var rest, last := own[..|own| - 1], own[|own| - 1];
      assert own == rest + [last] && last in own;
      CountAtEnd(others, rest, id);
      OneMoreRow(others + rest, last, id);
      assert others + own == (others + rest) + [last];
    } else {
      assert others + own == others;
      OtherRows(others, id);
    }
  }

  lemma {:induction false} RowsBelong(table: Table, a: nat, b: nat)
    requires b <= |table|
    ensures forall r :: r in Rows(table, a, b) ==> exists i :: a <= i < b && r.edge == table[i].id
    decreases b
  {
    if a < b {
      RowsBelong(table, a, b - 1);
    }
  }

  // ----- where a site budget cuts a window -----

  /** The edge that holds the last row that still fits into the budget. */
  function CutEdge(table: Table, a: nat, b: nat, budget: nat): (j: nat)
    requires a <= b <= |table| && budget >= 1
    requires |Rows(table, a, b)| >= budget
    ensures a <= j < b
    ensures |Rows(table, a, j)| < budget <= |Rows(table, a, j + 1)|
    decreases b
  {
    hide RowsOf;
    NonEmptyMeansLater(table, a, b);
    if |Rows(table, a, b - 1)| < budget then b - 1 else CutEdge(table, a, b - 1, budget)
  }

  /** A cut page: all rows of earlier edges, then the first rows of the edge with this id. */
  predicate IsCutPage(page: seq<Row>, others: seq<Row>, own: seq<Row>, budget: nat, id: int) {
    var n := budget - |others|;
    && 1 <= n <= |own| && |page| == budget
    && page == others + own[..n]
    && page[budget - 1].edge == id
    && CountOf(page, id) == n
    && Without(page, id) == others
  }

  lemma CutPage(others: seq<Row>, own: seq<Row>, later: seq<Row>, budget: nat, id: int)
    requires |others| < budget <= |others| + |own|
    requires forall r :: r in others ==> r.edge != id
    requires forall r :: r in own ==> r.edge == id
    ensures IsCutPage((others + own + later)[..budget], others, own, budget, id)
  {
    var n := budget - |others|;
    var page := (others + own + later)[..budget];
    assert page == others + own[..n];
    assert page[budget - 1] == own[n - 1];
    assert own[n - 1] in own;
    CountAtEnd(others, own[..n], id);
  }

  lemma OtherEdges(table: Table, a: nat, j: nat)
    requires IsTable(table) && j < |table|
    ensures forall r :: r in Rows(table, a, j) ==> r.edge != table[j].id
  {
    RowsBelong(table, a, j);
    forall r | r in Rows(table, a, j) ensures r.edge != table[j].id {
      var i :| a <= i < j && r.edge == table[i].id;
    }
  }

  lemma RowsAround(table: Table, a: nat, j: nat, b: nat)
    requires a <= j < b <= |table|
    ensures Rows(table, a, b) == Rows(table, a, j) + RowsOf(table[j]) + Rows(table, j + 1, b)
    ensures |Rows(table, a, j + 1)| == |Rows(table, a, j)| + |RowsOf(table[j])|
  {
    RowsSplit(table, a, j + 1, b);
  }

  lemma PageOfCut(table: Table, a: nat, b: nat, budget: nat)
    requires IsTable(table) && a <= b <= |table| && budget >= 1
    requires |Rows(table, a, b)| > budget
    ensures var j := CutEdge(table, a, b, budget);
            IsCutPage(Take(Rows(table, a, b), budget), Rows(table, a, j), RowsOf(table[j]), budget, table[j].id)
  {
    var j := CutEdge(table, a, b, budget);
    RowsAround(table, a, j, b);
    OtherEdges(table, a, j);
    CutPage(Rows(table, a, j), RowsOf(table[j]), Rows(table, j + 1, b), budget, table[j].id);
  }

  /** The cut falls exactly between two edges. */
  predicate CutOnBoundary(table: Table, budgets: Budgets, k: nat)
    requires k <= |table| && budgets.sites >= 1
  {
    var e := WindowEnd(table, budgets, k);
    |Rows(table, k, e)| > budgets.sites &&
    |Rows(table, k, CutEdge(table, k, e, budgets.sites) + 1)| == budgets.sites
  }

  // ----- the site read by edge positions -----

  /** Which edges are read completely, what part of a last one, and whether the read says it was cut short. */
  datatype Outcome = Outcome(kept: set<nat>, tail: seq<Row>, truncated: bool)

  function Interval(a: nat, b: nat): (s: set<nat>)
    ensures forall i: nat :: i in s <==> a <= i < b
    decreases b
  {
    if a >= b then {} else Interval(a, b - 1) + {b - 1}
  }

  function ReadFrom(table: Table, budgets: Budgets, k: nat): Outcome
    requires k <= |table| && budgets.edges >= 1 && budgets.sites >= 1
    decreases |table| - k
  {
    if k == |table| then Outcome({}, [], false)
    else
      var e := WindowEnd(table, budgets, k);
      if |Rows(table, k, e)| <= budgets.sites then
        if e == |table| then Outcome(Interval(k, e), [], false)
        else Continued(Interval(k, e), ReadFrom(table, budgets, e))
      else
        var j := CutEdge(table, k, e, budgets.sites);
        var own := budgets.sites - |Rows(table, k, j)|;
        if own == |table[j].sites| then
          if e == |table| then Outcome(Interval(k, j + 1), [], true)
          else Continued(Interval(k, j + 1), ReadFrom(table, budgets, e))
        else if own == budgets.sites then Outcome(Interval(k, j), RowsOf(table[j])[..own], true)
        else
          NonEmptyMeansLater(table, k, j);
          Continued(Interval(k, j), ReadFrom(table, budgets, j))
  }

  /** The places in the table at which the read asks for a page. */
  function Places(table: Table, budgets: Budgets, k: nat): (places: seq<nat>)
    requires k <= |table| && budgets.edges >= 1 && budgets.sites >= 1
    ensures places != [] && places[0] == k
    decreases |table| - k
  {
    if k == |table| then [k]
    else
      var e := WindowEnd(table, budgets, k);
      if |Rows(table, k, e)| <= budgets.sites then if e == |table| then [k] else [k] + Places(table, budgets, e)
      else
        var j := CutEdge(table, k, e, budgets.sites);
        var own := budgets.sites - |Rows(table, k, j)|;
        if own == |table[j].sites| then if e == |table| then [k] else [k] + Places(table, budgets, e)
        else if own == budgets.sites then [k]
        else
          NonEmptyMeansLater(table, k, j);
          [k] + Places(table, budgets, j)
  }

  function Continued(kept: set<nat>, rest: Outcome): Outcome {
    rest.(kept := kept + rest.kept)
  }

  lemma NonEmptyMeansLater(table: Table, k: nat, j: nat)
    requires j <= |table|
    ensures |Rows(table, k, j)| > 0 ==> k < j
  {
  }

  /** The rows of the chosen edges from a up to b, in order. */
  function Selected(table: Table, kept: set<nat>, a: nat, b: nat): seq<Row>
    requires b <= |table|
    decreases b
  {
    if a >= b then [] else Selected(table, kept, a, b - 1) + if b - 1 in kept then RowsOf(table[b - 1]) else []
  }

  function Emitted(table: Table, outcome: Outcome, k: nat): seq<Row>
    requires k <= |table|
  {
    Selected(table, outcome.kept, k, |table|) + outcome.tail
  }

  lemma {:induction false} SelectedSplit(table: Table, kept: set<nat>, a: nat, b: nat, c: nat)
    requires a <= b <= c <= |table|
    ensures Selected(table, kept, a, c) == Selected(table, kept, a, b) + Selected(table, kept, b, c)
    decreases c
  {
    if b < c {
      SelectedSplit(table, kept, a, b, c - 1);
    } else {
      assert Selected(table, kept, b, c) == [];
    }
  }

  lemma {:induction false} SelectedAgrees(table: Table, kept: set<nat>, kept': set<nat>, a: nat, b: nat)
    requires b <= |table|
    requires forall i: nat :: a <= i < b ==> (i in kept <==> i in kept')
    ensures Selected(table, kept, a, b) == Selected(table, kept', a, b)
    decreases b
  {
    if a < b {
      SelectedAgrees(table, kept, kept', a, b - 1);
      assert b - 1 in kept <==> b - 1 in kept';
    }
  }

  lemma {:induction false} SelectedInterval(table: Table, a: nat, m: nat, b: nat)
    requires a <= m <= b <= |table|
    ensures Selected(table, Interval(a, m), a, b) == Rows(table, a, m)
    decreases b
  {
    if m < b {
      SelectedInterval(table, a, m, b - 1);
    } else if a < b {
      SelectedInterval(table, a, m - 1, b - 1);
      SelectedAgrees(table, Interval(a, m), Interval(a, m - 1), a, b - 1);
    }
  }

  /** Only edges from k on are read. */
  lemma {:induction false} KeptFrom(table: Table, budgets: Budgets, k: nat)
    requires k <= |table| && budgets.edges >= 1 && budgets.sites >= 1
    ensures forall i :: i in ReadFrom(table, budgets, k).kept ==> k <= i < |table|
    decreases |table| - k
  {
    hide Rows, RowsOf;
    if k < |table| {
      var e := WindowEnd(table, budgets, k);
      if e < |table| {
        KeptFrom(table, budgets, e);
      }
      if |Rows(table, k, e)| > budgets.sites {
        var j := CutEdge(table, k, e, budgets.sites);
        var own := budgets.sites - |Rows(table, k, j)|;
        if own != |table[j].sites| && own != budgets.sites {
          NonEmptyMeansLater(table, k, j);
          KeptFrom(table, budgets, j);
        }
      }
    }
  }

  lemma EmittedContinued(table: Table, k: nat, m: nat, next: nat, rest: Outcome)
    requires k <= m <= next <= |table|
    requires forall i :: i in rest.kept ==> next <= i < |table|
    ensures Emitted(table, Continued(Interval(k, m), rest), k) == Rows(table, k, m) + Emitted(table, rest, next)
  {
    var kept := Interval(k, m) + rest.kept;
    SelectedSplit(table, kept, k, next, |table|);
    SelectedAgrees(table, kept, Interval(k, m), k, next);
    SelectedAgrees(table, kept, rest.kept, next, |table|);
    SelectedInterval(table, k, m, next);
    var own, others := Rows(table, k, m), Selected(table, rest.kept, next, |table|);
    assert Selected(table, kept, k, |table|) == own + others;
    AddedRows(own, others, rest.tail);
  }

  // ----- the site read as a loop -----

  /** A page that was not cut holds all rows of its last edge. */
  lemma {:induction false} UncutPageCount(table: Table, a: nat, b: nat)
    requires IsTable(table) && b <= |table| && Rows(table, a, b) != []
    ensures var page := Rows(table, a, b);
            exists j :: a <= j < b && page[|page| - 1].edge == table[j].id &&
              CountOf(page, table[j].id) == |table[j].sites|
    decreases b
  {
    hide RowsOf;
    var page := Rows(table, a, b);
    if table[b - 1].sites == [] {
      assert page == Rows(table, a, b - 1);
      UncutPageCount(table, a, b - 1);
    } else {
      RowsBelong(table, a, b - 1);
      CountAtEnd(Rows(table, a, b - 1), RowsOf(table[b - 1]), table[b - 1].id);
      assert page[|page| - 1] == RowsOf(table[b - 1])[|table[b - 1].sites| - 1];
    }
  }

  /** The boundary check fails exactly when the budget cut the page inside an edge. */
  lemma BoundaryCheck(siteCount: int -> nat, table: Table, budgets: Budgets, k: nat, page: seq<Row>)
    requires IsTable(table) && k <= |table| && budgets.edges >= 1 && budgets.sites >= 1
    requires forall i :: 0 <= i < |table| ==> siteCount(table[i].id) == |table[i].sites|
    requires page == Take(Rows(table, k, WindowEnd(table, budgets, k)), budgets.sites) && page != []
    ensures var e := WindowEnd(table, budgets, k);
            var last := page[|page| - 1].edge;
            siteCount(last) != CountOf(page, last) <==>
              |Rows(table, k, e)| > budgets.sites && !CutOnBoundary(table, budgets, k)
  {
    var e := WindowEnd(table, budgets, k);
    if |Rows(table, k, e)| <= budgets.sites {
      UncutPageCount(table, k, e);
    } else {
      PageOfCut(table, k, e, budgets.sites);
    }
  }

  lemma FirstRows(rows: seq<Row>, more: seq<Row>, budget: nat)
    requires |rows| == budget
    ensures Take(rows + more, budget) == rows
  {
  }

  /** Where an accepted page ends, and what the read does with it. */
  lemma AcceptedRead(table: Table, budgets: Budgets, k: nat) returns (m: nat)
    requires IsTable(table) && k < |table| && budgets.edges >= 1 && budgets.sites >= 1
    requires |Rows(table, k, WindowEnd(table, budgets, k))| > budgets.sites ==> CutOnBoundary(table, budgets, k)
    ensures var e := WindowEnd(table, budgets, k);
            && k <= m <= e && Take(Rows(table, k, e), budgets.sites) == Rows(table, k, m)
            && ReadFrom(table, budgets, k) == if e < |table| then Continued(Interval(k, m), ReadFrom(table, budgets, e))
                                              else Outcome(Interval(k, m), [], |Rows(table, k, e)| > budgets.sites)
  {
    hide Interval, RowsOf, Rows;
    var e := WindowEnd(table, budgets, k);
    m := e;
    if |Rows(table, k, e)| > budgets.sites {
      var j := CutEdge(table, k, e, budgets.sites);
      m := j + 1;
      RowsSplit(table, k, m, e);
      RowsAround(table, k, j, e);
      FirstRows(Rows(table, k, m), Rows(table, m, e), budgets.sites);
    }
  }

  /** Taking over a whole page: it was not cut, or it was cut between two edges. */
  lemma AcceptWindow(table: Table, budgets: Budgets, k: nat, page: seq<Row>)
    requires IsTable(table) && k < |table| && budgets.edges >= 1 && budgets.sites >= 1
    requires page == Take(Rows(table, k, WindowEnd(table, budgets, k)), budgets.sites)
    requires |Rows(table, k, WindowEnd(table, budgets, k))| > budgets.sites ==> CutOnBoundary(table, budgets, k)
    ensures var e, outcome := WindowEnd(table, budgets, k), ReadFrom(table, budgets, k);
            if e < |table| then
              && Emitted(table, outcome, k) == page + Emitted(table, ReadFrom(table, budgets, e), e)
              && outcome.truncated == ReadFrom(table, budgets, e).truncated
            else
              Emitted(table, outcome, k) == page && (outcome.truncated <==> |Rows(table, k, e)| > budgets.sites)
  {
    hide Take, Rows, CutOnBoundary, ReadFrom;
    var e := WindowEnd(table, budgets, k);
    var m := AcceptedRead(table, budgets, k);
    if e < |table| {
      KeptFrom(table, budgets, e);
      EmittedContinued(table, k, m, e, ReadFrom(table, budgets, e));
    } else {
      SelectedInterval(table, k, m, |table|);
    }
  }

  lemma StopAtHugeEdge(table: Table, budgets: Budgets, k: nat, page: seq<Row>)
    requires IsTable(table) && k < |table| && budgets.edges >= 1 && budgets.sites >= 1
    requires |Rows(table, k, WindowEnd(table, budgets, k))| > budgets.sites && !CutOnBoundary(table, budgets, k)
    requires page == Take(Rows(table, k, WindowEnd(table, budgets, k)), budgets.sites)
    requires CountOf(page, page[|page| - 1].edge) == |page|
    ensures Emitted(table, ReadFrom(table, budgets, k), k) == page && ReadFrom(table, budgets, k).truncated
  {
    var e := WindowEnd(table, budgets, k);
    PageOfCut(table, k, e, budgets.sites);
    SelectedInterval(table, k, CutEdge(table, k, e, budgets.sites), |table|);
  }

  lemma RewindToCutEdge(table: Table, budgets: Budgets, k: nat, page: seq<Row>)
    requires IsTable(table) && k < |table| && budgets.edges >= 1 && budgets.sites >= 1
    requires |Rows(table, k, WindowEnd(table, budgets, k))| > budgets.sites && !CutOnBoundary(table, budgets, k)
    requires page == Take(Rows(table, k, WindowEnd(table, budgets, k)), budgets.sites)
    requires CountOf(page, page[|page| - 1].edge) != |page|
    ensures var j := CutEdge(table, k, WindowEnd(table, budgets, k), budgets.sites);
            var last := page[|page| - 1].edge;
            && k < j < |table| && last == table[j].id
            && Emitted(table, ReadFrom(table, budgets, k), k)
            == Without(page, last) + Emitted(table, ReadFrom(table, budgets, j), j)
            && ReadFrom(table, budgets, k).truncated == ReadFrom(table, budgets, j).truncated
  {
    var e := WindowEnd(table, budgets, k);
    var j := CutEdge(table, k, e, budgets.sites);
    PageOfCut(table, k, e, budgets.sites);
    NonEmptyMeansLater(table, k, j);
    KeptFrom(table, budgets, j);
    EmittedContinued(table, k, j, j, ReadFrom(table, budgets, j));
  }

  lemma CursorBefore(table: Table, j: nat)
    requires IsTable(table) && j < |table|
    ensures AtCursor(table, Some(table[j].id - 1), j)
    ensures AtCursor(table, Some(table[j].id), j + 1)
  {
  }

  lemma PagesAt(executor: Executor, table: Table, budgets: Budgets, cursor: Cursor, k: nat)
    requires Honors(executor, table, budgets) && AtCursor(table, cursor, k)
    ensures var e := WindowEnd(table, budgets, k);
            var window := Rows(table, k, e);
            && executor.edges(cursor).ids == EdgeIds(table, k, e)
            && (executor.edges(cursor).truncated <==> e < |table|)
            && executor.sites(cursor).rows == Take(window, budgets.sites)
            && (executor.sites(cursor).truncated <==> e < |table| || |window| > budgets.sites)
  {
  }

  /** What one round of the loop decides. */
  datatype Round = Stop(rows: seq<Row>, truncated: bool) | Resume(rows: seq<Row>, cursor: Cursor)

  ghost predicate RoundIsRight(table: Table, budgets: Budgets, k: nat, round: Round, next: nat)
    requires k <= |table| && budgets.edges >= 1 && budgets.sites >= 1
  {
    var outcome := ReadFrom(table, budgets, k);
    match round
    case Stop(rows, truncated) =>
      Emitted(table, outcome, k) == rows && outcome.truncated == truncated && Places(table, budgets, k) == [k]
    case Resume(rows, cursor) =>
      && k < next <= |table| && AtCursor(table, cursor, next)
      && Places(table, budgets, k) == [k] + Places(table, budgets, next)
      && Emitted(table, outcome, k) == rows + Emitted(table, ReadFrom(table, budgets, next), next)
      && outcome.truncated == ReadFrom(table, budgets, next).truncated
  }

  /** A page that is taken over whole is the last one, or the next is asked for behind its window. */
  lemma AcceptedPlaces(table: Table, budgets: Budgets, k: nat)
    requires k < |table| && budgets.edges >= 1 && budgets.sites >= 1
    requires |Rows(table, k, WindowEnd(table, budgets, k))| > budgets.sites ==> CutOnBoundary(table, budgets, k)
    ensures var e := WindowEnd(table, budgets, k);
            Places(table, budgets, k) == if e == |table| then [k] else [k] + Places(table, budgets, e)
  {
    var e := WindowEnd(table, budgets, k);
    if |Rows(table, k, e)| > budgets.sites {
      var j := CutEdge(table, k, e, budgets.sites);
      RowsSplit(table, k, j, j + 1);
      assert |Rows(table, k, j + 1)| == |Rows(table, k, j)| + |table[j].sites|;
    }
  }

  /** A page cut inside an edge is the last one if it holds nothing else; otherwise the next is asked for at that edge. */
  lemma CutPlaces(table: Table, budgets: Budgets, k: nat, page: seq<Row>)
    requires IsTable(table) && k < |table| && budgets.edges >= 1 && budgets.sites >= 1
    requires |Rows(table, k, WindowEnd(table, budgets, k))| > budgets.sites && !CutOnBoundary(table, budgets, k)
    requires page == Take(Rows(table, k, WindowEnd(table, budgets, k)), budgets.sites)
    ensures var j := CutEdge(table, k, WindowEnd(table, budgets, k), budgets.sites);
            Places(table, budgets, k) ==
            if CountOf(page, page[|page| - 1].edge) == |page| then [k] else [k] + Places(table, budgets, j)
  {
    var e := WindowEnd(table, budgets, k);
    var j := CutEdge(table, k, e, budgets.sites);
    PageOfCut(table, k, e, budgets.sites);
    RowsSplit(table, k, j, j + 1);
    assert |Rows(table, k, j + 1)| == |Rows(table, k, j)| + |table[j].sites|;
  }

  /** The page of window k. */
  function WindowPage(table: Table, budgets: Budgets, k: nat): seq<Row>
    requires k <= |table|
  {
    Take(Rows(table, k, WindowEnd(table, budgets, k)), budgets.sites)
  }

  lemma StopsAtEnd(table: Table, budgets: Budgets, next: nat)
    requires budgets.edges >= 1 && budgets.sites >= 1
    ensures WindowPage(table, budgets, |table|) == []
    ensures RoundIsRight(table, budgets, |table|, Stop([], false), next)
  {
    NothingLeft(table, budgets);
  }

  lemma StopsAtHugeEdge(table: Table, budgets: Budgets, k: nat, page: seq<Row>, next: nat)
    requires IsTable(table) && k < |table| && budgets.edges >= 1 && budgets.sites >= 1
    requires |Rows(table, k, WindowEnd(table, budgets, k))| > budgets.sites && !CutOnBoundary(table, budgets, k)
    requires page == WindowPage(table, budgets, k) && CountOf(page, page[|page| - 1].edge) == |page|
    ensures RoundIsRight(table, budgets, k, Stop(page, true), next)
  {
    hide ReadFrom, Emitted, Places;
    StopAtHugeEdge(table, budgets, k, page);
    CutPlaces(table, budgets, k, page);
  }

  lemma Rewinds(table: Table, budgets: Budgets, k: nat, page: seq<Row>)
    requires IsTable(table) && k < |table| && budgets.edges >= 1 && budgets.sites >= 1
    requires |Rows(table, k, WindowEnd(table, budgets, k))| > budgets.sites && !CutOnBoundary(table, budgets, k)
    requires page == WindowPage(table, budgets, k) && CountOf(page, page[|page| - 1].edge) != |page|
    ensures var j, last := CutEdge(table, k, WindowEnd(table, budgets, k), budgets.sites), page[|page| - 1].edge;
            && k < j < |table| && last == table[j].id
            && RoundIsRight(table, budgets, k, Resume(Without(page, last), Some(last - 1)), j)
  {
    hide ReadFrom, Emitted, Places;
    RewindToCutEdge(table, budgets, k, page);
    CutPlaces(table, budgets, k, page);
    CursorBefore(table, CutEdge(table, k, WindowEnd(table, budgets, k), budgets.sites));
  }

  lemma Accepts(table: Table, budgets: Budgets, k: nat, page: seq<Row>)
    requires IsTable(table) && k < |table| && budgets.edges >= 1 && budgets.sites >= 1
    requires |Rows(table, k, WindowEnd(table, budgets, k))| > budgets.sites ==> CutOnBoundary(table, budgets, k)
    requires page == WindowPage(table, budgets, k)
    ensures var e := WindowEnd(table, budgets, k);
            && k < e
            && (if e < |table| then RoundIsRight(table, budgets, k, Resume(page, Some(table[e - 1].id)), e)
                else RoundIsRight(table, budgets, k, Stop(page, |Rows(table, k, e)| > budgets.sites), e))
  {
    hide ReadFrom, Emitted, Places;
    AcceptWindow(table, budgets, k, page);
    AcceptedPlaces(table, budgets, k);
    CursorBefore(table, WindowEnd(table, budgets, k) - 1);
  }

  /** A cursor at k is not one that has passed edge k. */
  lemma CursorMoves(table: Table, cursor: Cursor, k: nat, j: nat)
    requires IsTable(table) && AtCursor(table, cursor, k) && k <= j < |table|
    ensures cursor != Some(table[j].id) && (k < j ==> cursor != Some(table[j].id - 1))
  {
    assert k < j ==> table[k].id < table[j].id;
  }

  /** What a page that says it was cut decides: to stop at a huge edge, to rewind to the cut edge, or nothing. */
  method CheckLastEdge(executor: Executor, afterId: Cursor, pageRows: seq<Row>, ghost table: Table, ghost budgets: Budgets,
                       ghost k: nat)
    returns (round: Option<Round>, ghost next: nat)
    requires IsTable(table) && Honors(executor, table, budgets) && AtCursor(table, afterId, k) && k < |table|
    requires budgets.edges >= 1 && budgets.sites >= 1
    requires pageRows == WindowPage(table, budgets, k) && pageRows != []
    ensures round.Some? ==> RoundIsRight(table, budgets, k, round.value, next)
    ensures round.None? ==>
      |Rows(table, k, WindowEnd(table, budgets, k))| <= budgets.sites || CutOnBoundary(table, budgets, k)
  {
    hide Honors, IsTable, RoundIsRight, AtCursor, CountOf, Without, Rows, CutOnBoundary, WindowEnd, WindowPage;
    next := k;
    var lastEdgeId := pageRows[|pageRows| - 1].edge;
    var sitesInPage := CountOf(pageRows, lastEdgeId);
    BoundaryAt(executor, table, budgets, k, pageRows);
    if executor.siteCount(lastEdgeId) == sitesInPage {
      return None, next;
    }
    if sitesInPage == |pageRows| {
      StopsAtHugeEdge(table, budgets, k, pageRows, next);
      return Some(Stop(pageRows, true)), next;
    }
    Rewinds(table, budgets, k, pageRows);
    next := CutEdge(table, k, WindowEnd(table, budgets, k), budgets.sites);
    CursorMoves(table, afterId, k, next);
    var nextAfterId := Some(lastEdgeId - 1);
    if nextAfterId == afterId {
      assert false;
    }
    return Some(Resume(Without(pageRows, lastEdgeId), nextAfterId)), next;
  }

  /** The two guards against a cursor that does not advance are never taken. */
  method ReadPage(executor: Executor, afterId: Cursor, page: SitePage, ghost table: Table, ghost budgets: Budgets,
                  ghost k: nat)
    returns (round: Round, ghost next: nat)
    requires IsTable(table) && Honors(executor, table, budgets) && AtCursor(table, afterId, k)
    requires page == executor.sites(afterId)
    ensures RoundIsRight(table, budgets, k, round, next)
  {
    assert k <= |table| && budgets.edges >= 1 && budgets.sites >= 1;
    hide Honors, IsTable, RoundIsRight, AtCursor, Rows, CutOnBoundary, EdgeIds, WindowEnd, WindowPage;
    next := WindowEnd(table, budgets, k);
    PageAnswers(executor, table, budgets, afterId, k);
    var edgePage := executor.edges(afterId);
    var pageRows := page.rows;
    if edgePage.ids == [] {
      StopsAtEnd(table, budgets, next);
      NoRows(table);
      return Stop(pageRows, page.truncated), next;
    }
    if pageRows != [] && page.truncated {
      var checked, after := CheckLastEdge(executor, afterId, pageRows, table, budgets, k);
      if checked.Some? {
        return checked.value, after;
      }
    }
    NotCutInside(table, budgets, k, page);
    Accepts(table, budgets, k, pageRows);
    var windowLastEdgeId := edgePage.ids[|edgePage.ids| - 1];
    if !edgePage.truncated {
      return Stop(pageRows, page.truncated), next;
    }
    CursorMoves(table, afterId, k, next - 1);
    if Some(windowLastEdgeId) == afterId {
      assert false;
    }
    return Resume(pageRows, Some(windowLastEdgeId)), next;
  }

  /** What the executor answers at place k. */
  lemma PageAnswers(executor: Executor, table: Table, budgets: Budgets, cursor: Cursor, k: nat)
    requires Honors(executor, table, budgets) && AtCursor(table, cursor, k)
    ensures var e, edges, page := WindowEnd(table, budgets, k), executor.edges(cursor), executor.sites(cursor);
            && |edges.ids| == e - k && (k < e ==> edges.ids[|edges.ids| - 1] == table[e - 1].id) && (k < |table| ==> k < e)
            && (edges.truncated <==> e < |table|) && page.rows == WindowPage(table, budgets, k)
            && (page.truncated <==> e < |table| || |Rows(table, k, e)| > budgets.sites)
  {
    hide Rows;
    PagesAt(executor, table, budgets, cursor, k);
  }

  lemma BoundaryAt(executor: Executor, table: Table, budgets: Budgets, k: nat, page: seq<Row>)
    requires IsTable(table) && Honors(executor, table, budgets) && k <= |table|
    requires page == WindowPage(table, budgets, k) && page != []
    ensures var last := page[|page| - 1].edge;
            executor.siteCount(last) != CountOf(page, last) <==>
              |Rows(table, k, WindowEnd(table, budgets, k))| > budgets.sites && !CutOnBoundary(table, budgets, k)
  {
    hide Rows, CountOf, CutOnBoundary;
    BoundaryCheck(executor.siteCount, table, budgets, k, page);
  }

  lemma NoRows(table: Table)
    ensures Rows(table, |table|, |table|) == []
  {
  }

  /** An empty page, or one that does not say that it was cut, was not cut. */
  lemma NotCutInside(table: Table, budgets: Budgets, k: nat, page: SitePage)
    requires k <= |table| && budgets.sites >= 1 && page.rows == WindowPage(table, budgets, k)
    requires page.truncated <==>
      WindowEnd(table, budgets, k) < |table| || |Rows(table, k, WindowEnd(table, budgets, k))| > budgets.sites
    ensures page.rows == [] || !page.truncated ==> |Rows(table, k, WindowEnd(table, budgets, k))| <= budgets.sites
  {
  }

  /** At the end of the table there is nothing to read. */
  lemma NothingLeft(table: Table, budgets: Budgets)
    requires budgets.edges >= 1 && budgets.sites >= 1
    ensures var outcome := ReadFrom(table, budgets, |table|);
            Emitted(table, outcome, |table|) == [] && !outcome.truncated && Places(table, budgets, |table|) == [|table|]
  {
  }

  lemma AddedRows(a: seq<Row>, b: seq<Row>, c: seq<Row>)
    ensures a + (b + c) == (a + b) + c
  {
  }

  /** The cursors with which a page was asked for at each place. */
  ghost predicate AtPlaces(table: Table, cursors: seq<Cursor>, places: seq<nat>) {
    |cursors| == |places| && forall i :: 0 <= i < |cursors| ==> AtCursor(table, cursors[i], places[i])
  }

  predicate IsPartial(page: SitePage) {
    page.partial
  }

  predicate IsUnknown(page: SitePage) {
    page.unknown
  }

  /** Some page that was read carries a flag. */
  ghost predicate AnyPage(executor: Executor, cursors: seq<Cursor>, flag: SitePage -> bool) {
    exists i :: 0 <= i < |cursors| && flag(executor.sites(cursors[i]))
  }

  lemma OneMorePage(executor: Executor, cursors: seq<Cursor>, cursor: Cursor, flag: SitePage -> bool)
    ensures AnyPage(executor, cursors + [cursor], flag) <==> AnyPage(executor, cursors, flag) || flag(executor.sites(cursor))
  {
    var more := cursors + [cursor];
    if AnyPage(executor, cursors, flag) {
      var i :| 0 <= i < |cursors| && flag(executor.sites(cursors[i]));
      assert more[i] == cursors[i];
    }
    if flag(executor.sites(cursor)) {
      assert more[|cursors|] == cursor;
    }
  }

  lemma OneMorePlace(table: Table, cursors: seq<Cursor>, places: seq<nat>, cursor: Cursor, k: nat)
    requires AtPlaces(table, cursors, places) && AtCursor(table, cursor, k)
    ensures AtPlaces(table, cursors + [cursor], places + [k])
  {
  }

  /** `read` lists the cursors of the pages that were read. */
  method RunAllSitePages(executor: Executor, ghost table: Table, ghost budgets: Budgets)
    returns (rows: seq<Row>, truncated: bool, partial: bool, unknown: bool, ghost read: seq<Cursor>)
    requires IsTable(table) && Honors(executor, table, budgets)
    ensures var outcome := ReadFrom(table, budgets, 0);
            rows == Emitted(table, outcome, 0) && truncated == outcome.truncated
    ensures AtPlaces(table, read, Places(table, budgets, 0)) && read[0] == None
    ensures partial <==> AnyPage(executor, read, IsPartial)
    ensures unknown <==> AnyPage(executor, read, IsUnknown)
  {
    hide AtPlaces, AnyPage, Places, ReadFrom, Emitted, IsTable, Rows;
    assert budgets.edges >= 1 && budgets.sites >= 1;
    hide Honors;
    rows, partial, unknown, read := [], false, false, [];
    var afterId: Cursor := None;
    ghost var k, places := 0, [];
    ghost var all, verdict := Emitted(table, ReadFrom(table, budgets, 0), 0), ReadFrom(table, budgets, 0).truncated;
    NothingRead(executor, table);
    AtStart(table);
    while true
      invariant AtCursor(table, afterId, k)
      invariant all == rows + Emitted(table, ReadFrom(table, budgets, k), k)
      invariant verdict == ReadFrom(table, budgets, k).truncated
      invariant AtPlaces(table, read, places) && Places(table, budgets, 0) == places + Places(table, budgets, k)
      invariant if read == [] then afterId == None else read[0] == None
      invariant partial <==> AnyPage(executor, read, IsPartial)
      invariant unknown <==> AnyPage(executor, read, IsUnknown)
      decreases |table| - k
    {
      var page := executor.sites(afterId);
      OneMorePage(executor, read, afterId, IsPartial);
      OneMorePage(executor, read, afterId, IsUnknown);
      OneMorePlace(table, read, places, afterId, k);
      partial, unknown := partial || page.partial, unknown || page.unknown;
      read, places := read + [afterId], places + [k];
      var round, next := ReadPage(executor, afterId, page, table, budgets, k);
      match round {
        case Stop(pageRows, cutShort) =>
          return rows + pageRows, cutShort, partial, unknown, read;
        case Resume(pageRows, cursor) =>
          AddedRows(rows, pageRows, Emitted(table, ReadFrom(table, budgets, next), next));
          rows, afterId, k := rows + pageRows, cursor, next;
      }
    }
  }

  lemma AtStart(table: Table)
    ensures AtCursor(table, None, 0)
  {
  }

  lemma NothingRead(executor: Executor, table: Table)
    ensures AtPlaces(table, [], [])
    ensures forall flag :: !AnyPage(executor, [], flag)
  {
  }

  // ----- what the site read guarantees -----

  /** The tail is a proper, nonempty beginning of the sites of an edge after all edges kept. */
  predicate IsTailOf(table: Table, outcome: Outcome, j: nat, n: nat) {
    && j < |table| && 0 < n < |table[j].sites| && outcome.tail == RowsOf(table[j])[..n]
    && forall i :: i in outcome.kept ==> i < j
  }

  ghost predicate TailAllowed(table: Table, outcome: Outcome, from: nat) {
    outcome.tail == [] || (outcome.truncated && exists j: nat, n: nat :: j >= from && IsTailOf(table, outcome, j, n))
  }

  lemma TailContinued(table: Table, kept: set<nat>, from: nat, next: nat, rest: Outcome)
    requires (forall i :: i in kept ==> i < next) && from <= next
    requires TailAllowed(table, rest, next)
    ensures TailAllowed(table, Continued(kept, rest), from)
  {
    if rest.tail != [] {
      var j: nat, n: nat :| j >= next && IsTailOf(table, rest, j, n);
      assert IsTailOf(table, Continued(kept, rest), j, n);
    }
  }

  /**
   Every edge is read with all of its sites or with none, except that a read that says it was cut short
   may end with the first sites of one later edge.
  */
  lemma {:induction false} AllOrNone(table: Table, budgets: Budgets, k: nat)
    requires IsTable(table) && k <= |table| && budgets.edges >= 1 && budgets.sites >= 1
    ensures var outcome := ReadFrom(table, budgets, k);
            (forall i :: i in outcome.kept ==> k <= i < |table|) && TailAllowed(table, outcome, k)
    decreases |table| - k
  {
    KeptFrom(table, budgets, k);
    if k < |table| {
      var e := WindowEnd(table, budgets, k);
      if |Rows(table, k, e)| <= budgets.sites {
        if e < |table| {
          AllOrNone(table, budgets, e);
          TailContinued(table, Interval(k, e), k, e, ReadFrom(table, budgets, e));
        }
      } else {
        AllOrNoneAfterCut(table, budgets, k);
      }
    }
  }

  lemma {:induction false} AllOrNoneAfterCut(table: Table, budgets: Budgets, k: nat)
    requires IsTable(table) && k < |table| && budgets.edges >= 1 && budgets.sites >= 1
    requires |Rows(table, k, WindowEnd(table, budgets, k))| > budgets.sites
    ensures TailAllowed(table, ReadFrom(table, budgets, k), k)
    decreases |table| - k, 0
  {
    hide Rows, IsTailOf;
    var e := WindowEnd(table, budgets, k);
    var j := CutEdge(table, k, e, budgets.sites);
    var own := budgets.sites - |Rows(table, k, j)|;
    if own == |table[j].sites| {
      if e < |table| {
        AllOrNone(table, budgets, e);
        TailContinued(table, Interval(k, j + 1), k, e, ReadFrom(table, budgets, e));
      }
    } else if own == budgets.sites {
      RowsAround(table, k, j, e);
      HugeEdgeTail(table, k, j, own);
    } else {
      NonEmptyMeansLater(table, k, j);
      AllOrNone(table, budgets, j);
      TailContinued(table, Interval(k, j), k, j, ReadFrom(table, budgets, j));
    }
  }

  lemma HugeEdgeTail(table: Table, k: nat, j: nat, n: nat)
    requires k <= j < |table| && 0 < n < |table[j].sites|
    ensures TailAllowed(table, Outcome(Interval(k, j), RowsOf(table[j])[..n], true), k)
  {
    assert IsTailOf(table, Outcome(Interval(k, j), RowsOf(table[j])[..n], true), j, n);
  }

  predicate DistinctSites(table: Table) {
    forall e, i, j :: e in table && 0 <= i < j < |e.sites| ==> e.sites[i] != e.sites[j]
  }

  predicate InOrder(rows: seq<Row>) {
    forall p, q :: 0 <= p < q < |rows| ==> rows[p].edge <= rows[q].edge && rows[p] != rows[q]
  }

  lemma {:induction false} SelectedInOrder(table: Table, kept: set<nat>, a: nat, b: nat)
    requires IsTable(table) && DistinctSites(table) && b <= |table|
    ensures InOrder(Selected(table, kept, a, b))
    ensures forall r :: r in Selected(table, kept, a, b) ==> exists i :: a <= i < b && i in kept && r.edge == table[i].id
    decreases b
  {
    if a < b {
      SelectedInOrder(table, kept, a, b - 1);
      if b - 1 in kept {
        assert table[b - 1] in table;
        AppendInOrder(Selected(table, kept, a, b - 1), RowsOf(table[b - 1]), table[b - 1].id);
      }
    }
  }

  lemma AppendInOrder(rows: seq<Row>, own: seq<Row>, id: int)
    requires InOrder(rows) && InOrder(own)
    requires (forall r :: r in rows ==> r.edge < id) && (forall r :: r in own ==> r.edge == id)
    ensures InOrder(rows + own)
  {
    var all := rows + own;
    forall p, q | 0 <= p < q < |all| ensures all[p].edge <= all[q].edge && all[p] != all[q] {
      if p < |rows| <= q {
        assert all[p] in rows && all[q] in own;
      }
    }
  }

  /** No row is read twice, and rows come in table order. */
  lemma RowsInOrder(table: Table, budgets: Budgets)
    requires IsTable(table) && DistinctSites(table) && budgets.edges >= 1 && budgets.sites >= 1
    ensures InOrder(Emitted(table, ReadFrom(table, budgets, 0), 0))
  {
    var outcome := ReadFrom(table, budgets, 0);
    AllOrNone(table, budgets, 0);
    SelectedInOrder(table, outcome.kept, 0, |table|);
    if outcome.tail != [] {
      var j: nat, n: nat :| j >= 0 && IsTailOf(table, outcome, j, n);
      assert table[j] in table;
      AppendInOrder(Selected(table, outcome.kept, 0, |table|), outcome.tail, table[j].id);
    }
  }

  /** Some window before the last one is cut exactly between two edges, and is reached by the read. */
  predicate LosesRows(table: Table, budgets: Budgets, k: nat)
    requires k <= |table| && budgets.edges >= 1 && budgets.sites >= 1
    decreases |table| - k
  {
    k < |table| &&
    var e := WindowEnd(table, budgets, k);
    if |Rows(table, k, e)| <= budgets.sites then e < |table| && LosesRows(table, budgets, e)
    else
      var j := CutEdge(table, k, e, budgets.sites);
      var own := budgets.sites - |Rows(table, k, j)|;
      if own == |table[j].sites| then e < |table|
      else if own == budgets.sites then false
      else
        NonEmptyMeansLater(table, k, j);
        LosesRows(table, budgets, j)
  }

  lemma {:induction false} SelectedIsShorter(table: Table, kept: set<nat>, a: nat, b: nat)
    requires b <= |table|
    ensures |Selected(table, kept, a, b)| <= |Rows(table, a, b)|
    decreases b
  {
    if a < b {
      SelectedIsShorter(table, kept, a, b - 1);
    }
  }

  /**
   A read that does not say it was cut short is the whole table exactly when no window before the last
   was cut between two edges.
  */
  lemma {:induction false} CompleteIff(table: Table, budgets: Budgets, k: nat)
    requires IsTable(table) && k <= |table| && budgets.edges >= 1 && budgets.sites >= 1
    requires !ReadFrom(table, budgets, k).truncated
    ensures Emitted(table, ReadFrom(table, budgets, k), k) == Rows(table, k, |table|) <==> !LosesRows(table, budgets, k)
    decreases |table| - k
  {
    if k < |table| {
      var e := WindowEnd(table, budgets, k);
      var page := Take(Rows(table, k, e), budgets.sites);
      RowsSplit(table, k, e, |table|);
      if |Rows(table, k, e)| <= budgets.sites {
        AcceptWindow(table, budgets, k, page);
        if e < |table| {
          CompleteIff(table, budgets, e);
          SamePrefix(page, Emitted(table, ReadFrom(table, budgets, e), e), Rows(table, e, |table|));
        }
      } else if CutOnBoundary(table, budgets, k) {
        AcceptWindow(table, budgets, k, page);
        AllOrNone(table, budgets, e);
        SelectedIsShorter(table, ReadFrom(table, budgets, e).kept, e, |table|);
      } else {
        var j := CutEdge(table, k, e, budgets.sites);
        PageOfCut(table, k, e, budgets.sites);
        RewindToCutEdge(table, budgets, k, page);
        CompleteIff(table, budgets, j);
        RowsSplit(table, k, j, |table|);
        SamePrefix(Rows(table, k, j), Emitted(table, ReadFrom(table, budgets, j), j), Rows(table, j, |table|));
      }
    }
  }

  lemma SamePrefix(a: seq<Row>, b: seq<Row>, c: seq<Row>)
    ensures a + b == a + c <==> b == c
  {
    if a + b == a + c {
      assert b == (a + b)[|a|..] == (a + c)[|a|..] == c;
    }
  }

  /** If no edge exceeds the site budget and no cut falls between two edges, everything is read. */
  lemma {:induction false} ModerateTableIsComplete(table: Table, budgets: Budgets, k: nat)
    requires IsTable(table) && k <= |table| && budgets.edges >= 1 && budgets.sites >= 1
    requires forall e :: e in table ==> |e.sites| <= budgets.sites
    requires forall i: nat :: k <= i <= |table| ==> !CutOnBoundary(table, budgets, i)
    ensures var outcome := ReadFrom(table, budgets, k);
            !outcome.truncated && Emitted(table, outcome, k) == Rows(table, k, |table|)
    decreases |table| - k
  {
    if k < |table| {
      var e := WindowEnd(table, budgets, k);
      assert !CutOnBoundary(table, budgets, k);
      RowsSplit(table, k, e, |table|);
      if |Rows(table, k, e)| <= budgets.sites {
        if e < |table| {
          ModerateTableIsComplete(table, budgets, e);
        }
        AcceptWindow(table, budgets, k, Rows(table, k, e));
      } else {
        var j := CutEdge(table, k, e, budgets.sites);
        var page := Take(Rows(table, k, e), budgets.sites);
        assert table[j] in table;
        PageOfCut(table, k, e, budgets.sites);
        RewindToCutEdge(table, budgets, k, page);
        ModerateTableIsComplete(table, budgets, j);
        RowsSplit(table, k, j, |table|);
      }
    }
  }

  // ----- the symbol read -----

  /** Symbols by ascending id; the cursor is the id of the last row of a full page. */
  ghost predicate AnswersSymbols(run: Cursor -> SymbolPage, ids: seq<int>, budget: nat) {
    && budget >= 1 && (forall i, j :: 0 <= i < j < |ids| ==> ids[i] < ids[j])
    && forall cursor, k: nat :: Passed(ids, cursor, k) ==>
         run(cursor).ids == (if |ids| - k <= budget then ids[k..] else ids[k..k + budget]) &&
         (run(cursor).truncated <==> |ids| - k > budget)
  }

  predicate Passed(ids: seq<int>, cursor: Cursor, k: nat) {
    k <= |ids| &&
    match cursor
    case None => k == 0
    case Some(id) => (forall i :: 0 <= i < k ==> ids[i] <= id) && (forall i :: k <= i < |ids| ==> id < ids[i])
  }

  /** The cursors of the symbol read: none at first, then the last id of each full page. */
  function SymbolCursors(ids: seq<int>, budget: nat, k: nat): (cursors: seq<Cursor>)
    requires budget >= 1 && k <= |ids|
    decreases |ids| - k
  {
    var own := if k == 0 then None else Some(ids[k - 1]);
    if |ids| - k < budget then [own] else [own] + SymbolCursors(ids, budget, k + budget)
  }

  predicate IsPartialSymbols(page: SymbolPage) {
    page.partial
  }

  predicate IsUnknownSymbols(page: SymbolPage) {
    page.unknown
  }

  ghost predicate AnySymbolPage(run: Cursor -> SymbolPage, cursors: seq<Cursor>, flag: SymbolPage -> bool) {
    exists i :: 0 <= i < |cursors| && flag(run(cursors[i]))
  }

  lemma FirstSymbolPage(run: Cursor -> SymbolPage, first: Cursor, rest: seq<Cursor>, flag: SymbolPage -> bool)
    ensures AnySymbolPage(run, [first] + rest, flag) <==> flag(run(first)) || AnySymbolPage(run, rest, flag)
  {
    var all := [first] + rest;
    if flag(run(first)) {
      assert all[0] == first;
    }
    if AnySymbolPage(run, rest, flag) {
      var i :| 0 <= i < |rest| && flag(run(rest[i]));
      assert all[i + 1] == rest[i];
    }
  }

  /**
   Every symbol is read once, in order, and the read never reports truncation; it is partial or unknown exactly if some page
   it read is.
  */
  method RunAllPages(run: Cursor -> SymbolPage, budget: nat, ghost ids: seq<int>)
    returns (rows: seq<int>, truncated: bool, partial: bool, unknown: bool)
    requires AnswersSymbols(run, ids, budget)
    ensures rows == ids && !truncated
    ensures partial <==> AnySymbolPage(run, SymbolCursors(ids, budget, 0), IsPartialSymbols)
    ensures unknown <==> AnySymbolPage(run, SymbolCursors(ids, budget, 0), IsUnknownSymbols)
  {
    hide AnySymbolPage, SymbolCursors, Passed, AnswersSymbols;
    SymbolsStart(run, budget, ids);
    rows, partial, unknown := [], false, false;
    var afterId: Cursor := None;
    ghost var k := 0;
    ghost var cursors := SymbolCursors(ids, budget, 0);
    while true
      invariant k <= |ids| && Passed(ids, afterId, k) && rows == ids[..k]
      invariant afterId == if k == 0 then None else Some(ids[k - 1])
      invariant AnySymbolPage(run, cursors, IsPartialSymbols)
                <==> partial || AnySymbolPage(run, SymbolCursors(ids, budget, k), IsPartialSymbols)
      invariant AnySymbolPage(run, cursors, IsUnknownSymbols)
                <==> unknown || AnySymbolPage(run, SymbolCursors(ids, budget, k), IsUnknownSymbols)
      decreases |ids| - k
    {
      SymbolStep(run, budget, ids, afterId, k);
      var page := run(afterId);
      partial, unknown := partial || page.partial, unknown || page.unknown;
      rows := rows + page.ids;
      ghost var rest := if |ids| - k < budget then [] else SymbolCursors(ids, budget, k + budget);
      FirstCursor(ids, budget, k);
      FirstSymbolPage(run, afterId, rest, IsPartialSymbols);
      FirstSymbolPage(run, afterId, rest, IsUnknownSymbols);
      if |page.ids| < budget {
        NoSymbolPage(run, IsPartialSymbols);
        NoSymbolPage(run, IsUnknownSymbols);
        return rows, page.truncated, partial, unknown;
      }
      var nextAfterId := Some(page.ids[|page.ids| - 1]);
      k := k + budget;
      if nextAfterId == afterId {
        assert false;
      }
      afterId := nextAfterId;
    }
  }

  lemma SymbolsStart(run: Cursor -> SymbolPage, budget: nat, ids: seq<int>)
    requires AnswersSymbols(run, ids, budget)
    ensures budget >= 1 && Passed(ids, None, 0) && ids[..0] == []
  {
  }

  /** One page of the symbol read: the rest of the ids, or a full page behind which the next one starts. */
  lemma SymbolStep(run: Cursor -> SymbolPage, budget: nat, ids: seq<int>, cursor: Cursor, k: nat)
    requires AnswersSymbols(run, ids, budget) && k <= |ids| && Passed(ids, cursor, k)
    ensures var page := run(cursor);
            if |ids| - k < budget then |page.ids| < budget && ids[..k] + page.ids == ids && !page.truncated
            else
              && |page.ids| == budget && ids[..k] + page.ids == ids[..k + budget]
              && page.ids[budget - 1] == ids[k + budget - 1]
              && Passed(ids, Some(ids[k + budget - 1]), k + budget)
              && cursor != Some(ids[k + budget - 1])
  {
    var page := run(cursor);
    if |ids| - k < budget {
      assert page.ids == ids[k..] && ids[..k] + ids[k..] == ids;
    } else {
      assert page.ids == ids[k..k + budget];
      assert ids[..k] + ids[k..k + budget] == ids[..k + budget];
    }
  }

  lemma FirstCursor(ids: seq<int>, budget: nat, k: nat)
    requires budget >= 1 && k <= |ids|
    ensures SymbolCursors(ids, budget, k) ==
            [if k == 0 then None else Some(ids[k - 1])] + if |ids| - k < budget then [] else SymbolCursors(ids, budget, k + budget)
  {
  }

  lemma NoSymbolPage(run: Cursor -> SymbolPage, flag: SymbolPage -> bool)
    ensures !AnySymbolPage(run, [], flag)
  {
  }
}
