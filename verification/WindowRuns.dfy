/** Paging to the end: the policy snapshot built from windows, and clients that follow cursors through
    the history and the messages while the kernel keeps running. */
module WindowRuns {
  import opened Text
  import opened Order
  import opened Tables
  import opened Authorization
  import opened Paging
  import opened Windows
  import opened Administration
  import opened Kernel
  import opened ExecutionPreservation
  import opened Runs

  // ---- the policy snapshot ------------------------------------------------------------------

  datatype PolicySnapshot = PolicySnapshot(durable: seq<(int, DurableGrant)>, delegated: seq<(int, DelegatedGrant)>)

  /** The whole table in ascending id order. */
  ghost function SortedRows<V>(table: map<int, V>): (r: seq<(int, V)>)
    ensures IsSelection(r, Rows(table), ById(Ascending))
  {
    RowsDistinct(table, Ascending);
    Select(Rows(table), ById(Ascending))
  }

  /** The table fits one page, or the first page ends at an id that is a valid cursor. */
  ghost predicate Pageable<V>(table: map<int, V>) {
    |SortedRows(table)| <= MAX_WINDOW_SIZE || SortedRows(table)[MAX_WINDOW_SIZE - 1].0 > 0
  }

  function SnapshotRequest(after: Option<int>): WindowRequest {
    WindowRequest(None, after, Some(MAX_WINDOW_SIZE), Some("asc"))
  }

  lemma SnapshotRequestValid(after: Option<int>)
    ensures ValidateWindow(SnapshotRequest(after))
         == if NotPositive(after) then Err(InvalidQuery) else Ok(Window(Ascending, after, MAX_WINDOW_SIZE))
  {
    assert |"asc"| != |"desc"|;
  }

  lemma SortedById<V>(table: map<int, V>, i: nat, j: nat)
    requires i <= j < |SortedRows(table)|
    ensures SortedRows(table)[i].0 <= SortedRows(table)[j].0
  {
    var all := SortedRows(table);
    if i < j {
      assert Less(ById(Ascending)(all[i]), ById(Ascending)(all[j]));
      RankOrder(Ascending, all[i].0, all[j].0);
    }
  }

  /** The snapshot loop stands before row k of the table. */
  ghost predicate Reached<V>(table: map<int, V>, k: nat, after: Option<int>) {
    && k <= |SortedRows(table)|
    && (if k == 0 then after == None else after == Some(SortedRows(table)[k - 1].0))
    && Distinct(Rows(table), ById(Ascending))
    && Remaining(Rows(table), ById(Ascending), CursorKey(Window(Ascending, after, MAX_WINDOW_SIZE)))
          == SortedRows(table)[k..]
  }

  lemma ReachedStart<V>(table: map<int, V>)
    ensures Reached(table, 0, None)
  {
    RowsDistinct(table, Ascending);
    var all := SortedRows(table);
    assert Beyond(Rows(table), ById(Ascending), None) == Rows(table);
    SelectionUnique(all, Remaining(Rows(table), ById(Ascending), None), Rows(table), ById(Ascending));
    assert all[0..] == all;
  }

  /** What the next window holds, and where the loop stands after it. */
  lemma ReachedNext<V>(table: map<int, V>, k: nat, after: Option<int>)
    requires Reached(table, k, after)
    ensures var all := SortedRows(table);
            var page := WindowOf(table, Window(Ascending, after, MAX_WINDOW_SIZE));
            && page.rows == Limit(all[k..], MAX_WINDOW_SIZE) && (page.hasMore <==> |all| - k > MAX_WINDOW_SIZE)
            && (page.rows != [] ==> Reached(table, k + |page.rows|, Some(page.rows[|page.rows| - 1].0)))
  {
    hide Remaining, SortedRows, Beyond, Leq;
    var all := SortedRows(table);
    var rows, key := Rows(table), ById<V>(Ascending);
    var w := Window(Ascending, after, MAX_WINDOW_SIZE);
    var page := WindowOf(table, w).rows;
    if page != [] {
      RestOfPage(rows, key, CursorKey(w), MAX_WINDOW_SIZE);
      assert page[|page| - 1] == all[k + |page| - 1];
      assert all[k..][|page|..] == all[k + |page|..];
    }
  }

  /** Where the snapshot loop stands: it has the rows before the next page, and every earlier page ended
      at a positive id. */
  ghost predicate SnapshotAt<V>(table: map<int, V>, grants: seq<(int, V)>, after: Option<int>) {
    var all := SortedRows(table);
    && |grants| <= |all| && grants == all[..|grants|]
    && Reached(table, |grants|, after)
    && (|grants| > 0 ==> MAX_WINDOW_SIZE <= |grants| < |all|)
    && (|grants| > MAX_WINDOW_SIZE ==> all[MAX_WINDOW_SIZE - 1].0 > 0)
  }

  lemma SnapshotStart<V>(table: map<int, V>)
    ensures SnapshotAt(table, [], None)
  {
    hide Reached;
    ReachedStart(table);
  }

  /** The loop stops with an error only where the table cannot be paged. */
  lemma SnapshotStuck<V>(table: map<int, V>, grants: seq<(int, V)>, after: Option<int>)
    requires SnapshotAt(table, grants, after) && NotPositive(after)
    ensures !Pageable(table)
  {
    hide SortedRows;
    SortedById(table, MAX_WINDOW_SIZE - 1, |grants| - 1);
  }

  lemma SnapshotAdvance<V>(table: map<int, V>, grants: seq<(int, V)>, after: Option<int>)
    requires SnapshotAt(table, grants, after) && !NotPositive(after)
    ensures var page := WindowOf(table, Window(Ascending, after, MAX_WINDOW_SIZE));
            if page.hasMore
            then page.rows != [] && SnapshotAt(table, grants + page.rows, Some(page.rows[|page.rows| - 1].0))
                 && |grants| < |grants + page.rows| <= |SortedRows(table)|
            else Pageable(table) && grants + page.rows == SortedRows(table)
  {
    hide Reached, SortedRows, WindowOf;
    ReachedBound(table, |grants|, after);
    ReachedNext(table, |grants|, after);
    var all := SortedRows(table);
    var page := WindowOf(table, Window(Ascending, after, MAX_WINDOW_SIZE));
    JoinPage(all, grants, page.rows);
    if !page.hasMore { assert all[..|all|] == all; }
  }

  lemma ReachedBound<V>(table: map<int, V>, k: nat, after: Option<int>)
    requires Reached(table, k, after)
    ensures k <= |SortedRows(table)| && (if k == 0 then after == None else after == Some(SortedRows(table)[k - 1].0))
  {
  }

  lemma JoinPage<T>(all: seq<T>, grants: seq<T>, page: seq<T>)
    requires |grants| <= |all| && grants == all[..|grants|] && page == Limit(all[|grants|..], MAX_WINDOW_SIZE)
    ensures |grants + page| <= |all| && grants + page == all[..|grants + page|]
  {
  }

  lemma StoreNames()
    ensures "delegated" != "durable"
  {
    assert |"delegated"| != |"durable"|;
  }

  /** The loop over one store: all rows in order, or an error exactly when a page would have to start
      after an id that is not positive. */
  method SnapshotDurable(conn: Connection) returns (result: Result<seq<(int, DurableGrant)>, WindowError>)
    ensures result == if Pageable(conn.tables.durable) then Ok(SortedRows(conn.tables.durable)) else Err(InvalidQuery)
  {
    hide SnapshotAt, ValidateWindow, WindowOf, Pageable, SortedRows;
    var grants: seq<(int, DurableGrant)> := [];
    var after: Option<int> := None;
    SnapshotStart(conn.tables.durable);
    StoreNames();
    while true
      invariant SnapshotAt(conn.tables.durable, grants, after)
      decreases |SortedRows(conn.tables.durable)| - |grants|
    {
      SnapshotRequestValid(after);
      var window := ReadAuthorizationPolicyWindow(conn, "durable", SnapshotRequest(after));
      if window.Err? {
        SnapshotStuck(conn.tables.durable, grants, after);
        return Err(window.error);
      }
      SnapshotAdvance(conn.tables.durable, grants, after);
      var rows := window.value.durable.rows;
      if rows != [] { after := Some(rows[|rows| - 1].0); }
      grants := grants + rows;
      if !window.value.durable.hasMore { break; }
    }
    result := Ok(grants);
  }

  method SnapshotDelegated(conn: Connection) returns (result: Result<seq<(int, DelegatedGrant)>, WindowError>)
    ensures result
            == if Pageable(conn.tables.delegated) then Ok(SortedRows(conn.tables.delegated)) else Err(InvalidQuery)
  {
    hide SnapshotAt, ValidateWindow, WindowOf, Pageable, SortedRows;
    var grants: seq<(int, DelegatedGrant)> := [];
    var after: Option<int> := None;
    SnapshotStart(conn.tables.delegated);
    StoreNames();
    while true
      invariant SnapshotAt(conn.tables.delegated, grants, after)
      decreases |SortedRows(conn.tables.delegated)| - |grants|
    {
      SnapshotRequestValid(after);
      var window := ReadAuthorizationPolicyWindow(conn, "delegated", SnapshotRequest(after));
      if window.Err? {
        SnapshotStuck(conn.tables.delegated, grants, after);
        return Err(window.error);
      }
      SnapshotAdvance(conn.tables.delegated, grants, after);
      var rows := window.value.delegated.rows;
      if rows != [] { after := Some(rows[|rows| - 1].0); }
      grants := grants + rows;
      if !window.value.delegated.hasMore { break; }
    }
    result := Ok(grants);
  }

  /** The whole snapshot: both tables complete and sorted, or the one error. */
  method ReadAuthorizationPolicySnapshot(conn: Connection) returns (result: Result<PolicySnapshot, WindowError>)
    ensures result == if Pageable(conn.tables.durable) && Pageable(conn.tables.delegated)
                      then Ok(PolicySnapshot(SortedRows(conn.tables.durable), SortedRows(conn.tables.delegated)))
                      else Err(InvalidQuery)
  {
    var durable := SnapshotDurable(conn);
    if durable.Err? { return Err(durable.error); }
    var delegated := SnapshotDelegated(conn);
    if delegated.Err? { return Err(delegated.error); }
    result := Ok(PolicySnapshot(durable.value, delegated.value));
  }

  lemma PositivePageable<V>(table: map<int, V>)
    requires forall id | id in table :: id > 0
    ensures Pageable(table)
  {
    var all := SortedRows(table);
    if |all| > MAX_WINDOW_SIZE { assert all[MAX_WINDOW_SIZE - 1] in Rows(table); }
  }

  predicate DamagedId(id: int) {
    -MAX_WINDOW_SIZE < id <= 1
  }

  /** A damaged table the snapshot cannot page: 201 rows, the first 200 with ids that are not positive. */
  lemma UnpageableTable(g: DurableGrant) returns (table: map<int, DurableGrant>)
    ensures |SortedRows(table)| == MAX_WINDOW_SIZE + 1 && !Pageable(table)
  {
    table := map id: int | -MAX_WINDOW_SIZE < id <= 1 && DamagedId(id) :: g;
    var rows := seq(MAX_WINDOW_SIZE + 1, i => (i + 1 - MAX_WINDOW_SIZE, g));
    hide Leq;
    forall i, j | 0 <= i < j < |rows| ensures Less(ById(Ascending)(rows[i]), ById(Ascending)(rows[j])) {
      RankOrder(Ascending, rows[i].0, rows[j].0);
    }
    forall x | x in rows ensures x in Rows(table) {
      var i :| 0 <= i < |rows| && rows[i] == x;
      assert x.0 in table;
    }
    forall x | x in Rows(table) ensures x in rows {
      assert rows[x.0 - 1 + MAX_WINDOW_SIZE] == x;
    }
    SelectionUnique(SortedRows(table), rows, Rows(table), ById(Ascending));
  }

  /** In a reachable state the snapshot never fails. */
  lemma SnapshotSucceeds(h: Hash, run: seq<Timed>, n: nat)
    requires GuardedRun(run) && n <= |run|
    ensures Pageable(StateAt(h, run, n).durable) && Pageable(StateAt(h, run, n).delegated)
  {
    hide Invariant, Pageable, StateAt, WellFormedScope, IsKnown;
    RunKeeps(h, run, n);
    InvariantPolicy(h, StateAt(h, run, n));
    PositivePageable(StateAt(h, run, n).durable);
    PositivePageable(StateAt(h, run, n).delegated);
  }
}
