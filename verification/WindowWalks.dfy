/** Clients that follow cursors, call by call, while the kernel keeps running: what they have read when a
    page says there is no more, and when that happens. */
module WindowWalks {
  import opened Text
  import opened Order
  import opened Tables
  import opened Board
  import opened Paging
  import opened PagingExact
  import opened Windows
  import opened Kernel
  import opened Runs
  import opened ChannelRuns
  import opened IdRuns
  import opened WindowRuns

  // ---- instants of a run --------------------------------------------------------------------

  /** Page i is read after the first at[i] steps. */
  ghost predicate Instants(run: seq<Timed>, at: seq<nat>) {
    && (forall i | 0 <= i < |at| :: at[i] <= |run|)
    && (forall i, j | 0 <= i <= j < |at| :: at[i] <= at[j])
  }

  /** The tables at each page. */
  ghost function States(h: Hash, run: seq<Timed>, at: seq<nat>): seq<Db>
    requires Instants(run, at)
  {
    seq(|at|, i requires 0 <= i < |at| => StateAt(h, run, at[i]))
  }

  // ---- answers of the id-keyed readers ------------------------------------------------------

  /** The request that asks for the page after an id, or for the first page. */
  function NextRequest(order: Direction, cursor: Option<int>, limit: nat): WindowRequest {
    if order == Descending then WindowRequest(cursor, None, Some(limit), Some("desc"))
    else WindowRequest(None, cursor, Some(limit), Some("asc"))
  }

  lemma NextRequestValid(order: Direction, cursor: Option<int>, limit: nat)
    requires ValidateWindow(NextRequest(order, cursor, limit)).Ok?
    ensures ValidateWindow(NextRequest(order, cursor, limit)) == Ok(Window(order, cursor, limit))
    ensures 1 <= limit <= MAX_WINDOW_SIZE
  {
    assert |"asc"| != |"desc"|;
  }

  /** The next cursor: the id of the last row of the page. */
  function NextId<V>(page: seq<(int, V)>, cursor: Option<int>): Option<int> {
    if page == [] then cursor else Some(page[|page| - 1].0)
  }

  /** Consecutive pages of a table as it was at each of them, each asked for after the last row of the one
      before, which said there was more. */
  ghost predicate Answered<V>(tables: seq<map<int, V>>, order: Direction, cursor: Option<int>, limit: nat,
                              answers: seq<WindowPage<(int, V)>>) {
    answers == []
    || (&& tables != [] && answers[0] == WindowOf(tables[0], Window(order, cursor, limit))
        && (|answers| > 1 ==> answers[0].hasMore)
        && Answered(tables[1..], order, NextId(answers[0].rows, cursor), limit, answers[1..]))
  }

  function AllRows<T>(answers: seq<WindowPage<T>>): seq<T> {
    if answers == [] then [] else answers[0].rows + AllRows(answers[1..])
  }

  /** The client stopped because the last page said there was no more. */
  predicate Stopped<T>(answers: seq<WindowPage<T>>) {
    answers != [] && !answers[|answers| - 1].hasMore
  }

  /** The client asked for pages until it stopped, or once at every instant. */
  predicate Finished<T>(answers: seq<WindowPage<T>>, n: nat) {
    Stopped(answers) || |answers| == n
  }

  ghost function RowSets<V(!new)>(tables: seq<map<int, V>>): (r: seq<set<(int, V)>>)
    ensures |r| == |tables| && forall i | 0 <= i < |r| :: r[i] == Rows(tables[i])
    ensures forall order: Direction :: AllDistinct(r, ById(order))
  {
    var r := seq(|tables|, i requires 0 <= i < |tables| => Rows(tables[i]));
    assert forall order: Direction :: AllDistinct(r, ById(order)) by {
      forall order: Direction, i | 0 <= i < |r| ensures Distinct(r[i], ById(order)) { RowsDistinct(tables[i], order); }
    }
    r
  }

  lemma RowSetsTail<V(!new)>(tables: seq<map<int, V>>)
    requires tables != []
    ensures RowSets(tables)[1..] == RowSets(tables[1..])
  {
  }

  /** The pages a client got, taken together, are the walk of their tables. */
  lemma {:induction false} AnswersAreWalk<V(!new)>(tables: seq<map<int, V>>, order: Direction, cursor: Option<int>,
                                                   limit: nat,
                                                   answers: seq<WindowPage<(int, V)>>)
    requires Answered(tables, order, cursor, limit, answers) && Finished(answers, |tables|)
    ensures Walk(RowSets(tables), ById(order), CursorKey(Window(order, cursor, limit)), limit)
            == (AllRows(answers), Stopped(answers))
    decreases |answers|
  {
    if answers != [] {
      RowSetsTail(tables);
      var page := answers[0].rows;
      assert CursorKey(Window(order, NextId(page, cursor), limit))
          == NextCursor(page, ById(order), CursorKey(Window(order, cursor, limit)));
      if answers[0].hasMore {
        FinishedTail(answers, |tables|);
        AnswersAreWalk(tables[1..], order, NextId(page, cursor), limit, answers[1..]);
      } else {
        assert |answers| == 1;
        assert AllRows(answers[1..]) == [];
        assert page + [] == page;
      }
    }
  }

  lemma FinishedTail<T>(answers: seq<WindowPage<T>>, n: nat)
    requires answers != [] && n > 0 && Finished(answers, n) && answers[0].hasMore
    ensures Finished(answers[1..], n - 1) && (Stopped(answers[1..]) <==> Stopped(answers))
  {
    if |answers| > 1 { assert answers[1..][|answers[1..]| - 1] == answers[|answers| - 1]; }
  }

  /** The pages have room: for an ascending client, which reads towards the new rows, the table fits the pages
      so far at some page; for a descending one, which has the new rows behind it, all its pages together hold
      the table its first page found. */
  ghost predicate HasRoom<V>(tables: seq<map<int, V>>, order: Direction, limit: nat) {
    if order == Ascending then exists i | 0 <= i < |tables| :: |tables[i]| <= (i + 1) * limit
    else tables != [] && |tables[0]| <= |tables| * limit
  }

  /** Ids stay from page to page, and rows added later have larger ids. */
  ghost predicate TablesGrow<V>(tables: seq<map<int, V>>) {
    forall i, j | 0 <= i <= j < |tables| :: IdsGrow(tables[i], tables[j])
  }

  lemma RowsGrow<V(!new)>(a: map<int, V>, b: map<int, V>)
    requires IdsGrow(a, b)
    ensures ExtendedAbove(Rows(a), Rows(b), ById(Ascending))
    ensures ExtendedBelow(Rows(a), Rows(b), ById(Descending))
  {
    hide Leq, Rank;
    forall order: Direction, x | x in Rows(a) ensures HasKey(Rows(b), ById(order), ById<V>(order)(x)) {
      assert x.0 in b;
      RowHasKey(b, order, x.0);
    }
    forall y, x | y in Rows(b) && y.0 !in a && x in Rows(a)
      ensures Less(ById<V>(Ascending)(x), ById<V>(Ascending)(y))
      ensures Less(ById<V>(Descending)(y), ById<V>(Descending)(x))
    {
      RankOrder(Ascending, x.0, y.0);
      RankOrder(Descending, y.0, x.0);
    }
    forall order: Direction, y | y in Rows(b) && y.0 in a ensures HasKey(Rows(a), ById(order), ById<V>(order)(y)) {
      RowHasKey(a, order, y.0);
    }
  }

  lemma RowsSize<V(!new)>(table: map<int, V>)
    ensures |Rows(table)| == |table|
  {
    var id := (row: (int, V)) => row.0;
    forall x | x in table.Keys ensures exists row :: row in Rows(table) && id(row) == x {
      assert (x, table[x]) in Rows(table) && id((x, table[x])) == x;
    }
    SameSize(Rows(table), table.Keys, id);
    assert |table.Keys| == |table|;
  }

  /** A function that is one-to-one from one set onto another keeps the size. */
  lemma {:induction false} SameSize<T(!new), U>(a: set<T>, b: set<U>, f: T -> U)
    requires forall x | x in a :: f(x) in b
    requires forall x, y | x in a && y in a && f(x) == f(y) :: x == y
    requires forall u | u in b :: exists x :: x in a && f(x) == u
    ensures |a| == |b|
    decreases |a|
  {
    if x :| x in a {
      SameSize(a - {x}, b - {f(x)}, f);
    } else {
      assert b == {};
    }
  }

  /** A client of a growing table stops exactly if its pages have room. */
  lemma StopsWithRoom<V(!new)>(tables: seq<map<int, V>>, order: Direction, limit: nat,
                               answers: seq<WindowPage<(int, V)>>)
    requires tables != [] && limit >= 1 && TablesGrow(tables)
    requires Answered(tables, order, None, limit, answers) && Finished(answers, |tables|)
    ensures Stopped(answers) <==> HasRoom(tables, order, limit)
  {
    hide Walk, Answered, Stopped, Finished, Leq, Rank, ExtendedAbove, ExtendedBelow, IdsGrow;
    AnswersAreWalk(tables, order, None, limit, answers);
    var sets := RowSets(tables);
    forall i | 0 <= i < |sets| ensures |sets[i]| == |tables[i]| { RowsSize(tables[i]); }
    forall i, j | 0 <= i <= j < |sets|
      ensures ExtendedAbove(sets[i], sets[j], ById(Ascending)) && ExtendedBelow(sets[i], sets[j], ById(Descending))
    {
      RowsGrow(tables[i], tables[j]);
    }
    if order == Ascending {
      AscendingStopsExactly(sets, ById(Ascending), limit);
    } else {
      DescendingStopsExactly(sets, ById(Descending), limit);
    }
  }

  /** What a client of a growing table has read: no id twice, every id there from the start once it stopped; and
      it stops exactly if its pages have room. */
  lemma ClientReads<V(!new)>(tables: seq<map<int, V>>, order: Direction, limit: nat,
                             answers: seq<WindowPage<(int, V)>>, id: int)
    requires tables != [] && limit >= 1 && TablesGrow(tables)
    requires Answered(tables, order, None, limit, answers) && Finished(answers, |tables|)
    ensures StrictlySorted(AllRows(answers), ById(order))
    ensures Stopped(answers) && id in tables[0] ==> Reads(AllRows(answers), ById(order), Rank(order, id))
    ensures Stopped(answers) <==> HasRoom(tables, order, limit)
  {
    hide Walk, Answered, Stopped, Finished, AllRows, Leq, Rank, Reads, HasRoom;
    StopsWithRoom(tables, order, limit, answers);
    AnswersAreWalk(tables, order, None, limit, answers);
    var sets := RowSets(tables);
    WalkAscends(sets, ById(order), None, limit);
    if Stopped(answers) && id in tables[0] {
      forall i | 0 <= i < |sets| ensures HasKey(sets[i], ById(order), Rank(order, id)) {
        assert IdsGrow(tables[0], tables[i]);
        RowHasKey(tables[i], order, id);
      }
      WalkCompletes(sets, ById(order), None, limit, Rank(order, id));
    }
  }

  /** In particular it stops if its pages have room for the table as its last page found it. */
  lemma RoomForLast<V(!new)>(tables: seq<map<int, V>>, order: Direction, limit: nat)
    requires tables != [] && TablesGrow(tables) && |tables| * limit >= |tables[|tables| - 1]|
    ensures HasRoom(tables, order, limit)
  {
    hide Rows, ExtendedAbove, ExtendedBelow;
    var n := |tables|;
    assert IdsGrow(tables[0], tables[n - 1]);
    GrownSize(tables[0], tables[n - 1]);
    assert |tables[n - 1]| <= (n - 1 + 1) * limit;
  }

  lemma GrownSize<V(!new)>(a: map<int, V>, b: map<int, V>)
    requires IdsGrow(a, b)
    ensures |a| <= |b|
  {
    RowsGrow(a, b);
    RowsDistinct(a, Ascending);
    SameKeysFit(Rows(a), Rows(b), ById(Ascending));
    RowsSize(a);
    RowsSize(b);
  }

  lemma RowHasKey<V(!new)>(table: map<int, V>, order: Direction, id: int)
    requires id in table
    ensures HasKey(Rows(table), ById(order), Rank(order, id))
  {
    assert (id, table[id]) in Rows(table) && ById<V>(order)((id, table[id])) == Rank(order, id);
  }

  // ---- the administration history -----------------------------------------------------------

  /** What the history reader answers a client that follows its cursors. */
  ghost predicate HistoryAnswers(dbs: seq<Db>, participant: Option<string>, order: Direction, cursor: Option<int>,
                                 limit: nat,
                                 answers: seq<WindowPage<(int, AdminEvent)>>) {
    answers == []
    || (&& dbs != [] && EventWindowOf(dbs[0], participant, NextRequest(order, cursor, limit)) == Ok(answers[0])
        && (|answers| > 1 ==> answers[0].hasMore)
        && HistoryAnswers(dbs[1..], participant, order, NextId(answers[0].rows, cursor), limit, answers[1..]))
  }

  ghost function EventTables(dbs: seq<Db>, participant: Option<string>): seq<map<int, AdminEvent>> {
    seq(|dbs|, i requires 0 <= i < |dbs| => EventTable(dbs[i], participant))
  }

  lemma {:induction false} HistoryAnswered(dbs: seq<Db>, participant: Option<string>, order: Direction,
                                           cursor: Option<int>, limit: nat,
                                           answers: seq<WindowPage<(int, AdminEvent)>>)
    requires HistoryAnswers(dbs, participant, order, cursor, limit, answers) && answers != []
    ensures ParticipantFilter(participant).Ok? && limit >= 1
    ensures Answered(EventTables(dbs, ParticipantFilter(participant).value), order, cursor, limit, answers)
    decreases |answers|
  {
    hide ValidateWindow, ParticipantFilter, WindowOf, EventTable;
    NextRequestValid(order, cursor, limit);
    var p := ParticipantFilter(participant).value;
    assert EventTables(dbs, p)[1..] == EventTables(dbs[1..], p);
    if |answers| > 1 {
      HistoryAnswered(dbs[1..], participant, order, NextId(answers[0].rows, cursor), limit, answers[1..]);
    }
  }

  /** The log, filtered, as each page finds it. */
  ghost function Histories(h: Hash, run: seq<Timed>, at: seq<nat>,
                           participant: Option<string>): seq<map<int, AdminEvent>>
    requires Instants(run, at)
  {
    EventTables(States(h, run, at), participant)
  }

  /** Following the cursors through the administration history while the kernel runs on, in either order, for
      any filter and page size the reader takes: no event is read twice; a client that stopped has read every
      event in the log at its first page; and it stops exactly if its pages have room. */
  lemma HistoryWalk(h: Hash, run: seq<Timed>, at: seq<nat>, participant: Option<string>, order: Direction, limit: nat,
                    answers: seq<WindowPage<(int, AdminEvent)>>, id: int)
    requires GuardedRun(run) && at != [] && Instants(run, at)
    requires HistoryAnswers(States(h, run, at), participant, order, None, limit, answers) && Finished(answers, |at|)
    ensures StrictlySorted(AllRows(answers), ById(order))
    ensures ParticipantFilter(participant).Ok?
    ensures var p := ParticipantFilter(participant).value;
            && (Stopped(answers) && id in EventTable(StateAt(h, run, at[0]), p) ==>
                  Reads(AllRows(answers), ById(order), Rank(order, id)))
            && (Stopped(answers) <==> HasRoom(Histories(h, run, at, p), order, limit))
            && (|at| * limit >= |EventTable(StateAt(h, run, at[|at| - 1]), p)| ==> Stopped(answers))
  {
    hide StateAt, EventTable, GuardedRun, Answered, HistoryAnswers, Reads, Rank, Leq, AllRows, ParticipantFilter,
         IdsGrow, HasRoom;
    var dbs := States(h, run, at);
    HistoryAnswered(dbs, participant, order, None, limit, answers);
    var p := ParticipantFilter(participant).value;
    var tables := Histories(h, run, at, p);
    forall i, j | 0 <= i <= j < |tables| ensures IdsGrow(tables[i], tables[j]) {
      HistoryGrows(h, run, at[i], at[j], p);
    }
    ClientReads(tables, order, limit, answers, id);
    if |at| * limit >= |tables[|at| - 1]| { RoomForLast(tables, order, limit); }
  }

  lemma HistoryGrows(h: Hash, run: seq<Timed>, m: nat, n: nat, participant: Option<string>)
    requires GuardedRun(run) && m <= n <= |run|
    ensures IdsGrow(EventTable(StateAt(h, run, m), participant), EventTable(StateAt(h, run, n), participant))
  {
    hide StateAt, GuardedRun, Kept, GrantsKept, EventTable;
    RunExtends(h, run, m, n);
    LogGrows(StateAt(h, run, m), StateAt(h, run, n), participant);
  }

  lemma LogGrows(a: Db, b: Db, participant: Option<string>)
    requires a.events <= b.events
    ensures IdsGrow(EventTable(a, participant), EventTable(b, participant))
  {
    forall id | 1 <= id <= |a.events| ensures About(a.events, id, participant) <==> About(b.events, id, participant) {
      assert a.events[id - 1] == b.events[id - 1];
    }
  }

  // ---- messages -----------------------------------------------------------------------------

  /** What the message reader answers an identified viewer that follows its cursors. */
  ghost predicate MessageAnswers(dbs: seq<Db>, channel: string, order: Direction, cursor: Option<int>, limit: nat,
                                 answers: seq<WindowPage<(int, Message)>>) {
    answers == []
    || (&& dbs != [] && MessageWindowOf(dbs[0], Identified, channel, NextRequest(order, cursor, limit))
        == Ok(answers[0])
        && (|answers| > 1 ==> answers[0].hasMore)
        && MessageAnswers(dbs[1..], channel, order, NextId(answers[0].rows, cursor), limit, answers[1..]))
  }

  ghost function MessageTables(dbs: seq<Db>, channel: string): seq<map<int, Message>> {
    seq(|dbs|, i requires 0 <= i < |dbs| => ChannelMessages(dbs[i], channel))
  }

  lemma {:induction false} MessageAnswered(dbs: seq<Db>, channel: string, order: Direction, cursor: Option<int>,
                                           limit: nat,
                                           answers: seq<WindowPage<(int, Message)>>)
    requires MessageAnswers(dbs, channel, order, cursor, limit, answers) && answers != []
    ensures limit >= 1 && Answered(MessageTables(dbs, channel), order, cursor, limit, answers)
    decreases |answers|
  {
    hide ValidateWindow, WindowOf, ChannelMessages, IsName;
    NextRequestValid(order, cursor, limit);
    assert MessageTables(dbs, channel)[1..] == MessageTables(dbs[1..], channel);
    if |answers| > 1 {
      MessageAnswered(dbs[1..], channel, order, NextId(answers[0].rows, cursor), limit, answers[1..]);
    }
  }

  /** The messages of a channel as each page finds them. */
  ghost function Conversations(h: Hash, run: seq<Timed>, at: seq<nat>, channel: string): seq<map<int, Message>>
    requires Instants(run, at)
  {
    MessageTables(States(h, run, at), channel)
  }

  /** The same for the messages of a channel, which the existence probe pages. */
  lemma MessageWalk(h: Hash, run: seq<Timed>, at: seq<nat>, channel: string, order: Direction, limit: nat,
                    answers: seq<WindowPage<(int, Message)>>, id: int)
    requires GuardedRun(run) && at != [] && Instants(run, at)
    requires MessageAnswers(States(h, run, at), channel, order, None, limit, answers) && Finished(answers, |at|)
    ensures StrictlySorted(AllRows(answers), ById(order))
    ensures Stopped(answers) && id in ChannelMessages(StateAt(h, run, at[0]), channel) ==>
              Reads(AllRows(answers), ById(order), Rank(order, id))
    ensures Stopped(answers) <==> HasRoom(Conversations(h, run, at, channel), order, limit)
    ensures |at| * limit >= |ChannelMessages(StateAt(h, run, at[|at| - 1]), channel)| ==> Stopped(answers)
  {
    hide StateAt, ChannelMessages, GuardedRun, Answered, MessageAnswers, Reads, Rank, Leq, AllRows, IdsGrow, HasRoom;
    var dbs := States(h, run, at);
    MessageAnswered(dbs, channel, order, None, limit, answers);
    var tables := Conversations(h, run, at, channel);
    forall i, j | 0 <= i <= j < |tables| ensures IdsGrow(tables[i], tables[j]) {
      MessagesGrow(h, run, at[i], at[j], channel);
    }
    ClientReads(tables, order, limit, answers, id);
    if |at| * limit >= |tables[|at| - 1]| { RoomForLast(tables, order, limit); }
  }

  lemma MessagesGrow(h: Hash, run: seq<Timed>, m: nat, n: nat, channel: string)
    requires GuardedRun(run) && m <= n <= |run|
    ensures IdsGrow(ChannelMessages(StateAt(h, run, m), channel), ChannelMessages(StateAt(h, run, n), channel))
  {
    hide StateAt, GuardedRun, GrantsKept, ChannelMessages, IdsGrow;
    RunExtends(h, run, m, n);
    RunIdsGrow(h, run, m, n);
    ChannelGrows(StateAt(h, run, m), StateAt(h, run, n), channel);
  }

  lemma ChannelGrows(a: Db, b: Db, channel: string)
    requires Kept(a.messages, b.messages) && IdsGrow(a.messages, b.messages)
    ensures IdsGrow(ChannelMessages(a, channel), ChannelMessages(b, channel))
  {
  }

  // ---- a reader outrun ----------------------------------------------------------------------

  /** An identified viewer's pages, one at each of these tables until one says there is no more. */
  ghost function FollowMessages(dbs: seq<Db>, channel: string, order: Direction, cursor: Option<int>, limit: nat)
    : seq<WindowPage<(int, Message)>>
  {
    if dbs == [] then []
    else
      var answer := MessageWindowOf(dbs[0], Identified, channel, NextRequest(order, cursor, limit));
      if answer.Err? then []
      else if !answer.value.hasMore then [answer.value]
      else [answer.value]
           + FollowMessages(dbs[1..], channel, order, NextId(answer.value.rows, cursor), limit)
  }

  lemma NextRequestAccepted(order: Direction, cursor: Option<int>, limit: nat)
    requires 1 <= limit <= MAX_WINDOW_SIZE && !NotPositive(cursor)
    ensures ValidateWindow(NextRequest(order, cursor, limit)) == Ok(Window(order, cursor, limit))
  {
    assert |"asc"| != |"desc"|;
  }

  /** Such a client is always answered. */
  lemma {:induction false} FollowedMessages(dbs: seq<Db>, channel: string, order: Direction, cursor: Option<int>,
                                            limit: nat)
    requires IsName(channel) && 1 <= limit <= MAX_WINDOW_SIZE && !NotPositive(cursor)
    requires forall i | 0 <= i < |dbs| :: Numbered(dbs[i].messages, dbs[i].lastMessageId)
    ensures var answers := FollowMessages(dbs, channel, order, cursor, limit);
            MessageAnswers(dbs, channel, order, cursor, limit, answers) && Finished(answers, |dbs|)
    decreases |dbs|
  {
    hide ValidateWindow, IsName, Numbered, WindowOf, ChannelMessages, Stopped;
    if dbs != [] {
      NextRequestAccepted(order, cursor, limit);
      var page := WindowOf(ChannelMessages(dbs[0], channel), Window(order, cursor, limit));
      PagePositive(dbs[0], channel, order, cursor, limit);
      if page.hasMore {
        var rest := FollowMessages(dbs[1..], channel, order, NextId(page.rows, cursor), limit);
        FollowedMessages(dbs[1..], channel, order, NextId(page.rows, cursor), limit);
        assert ([page] + rest)[1..] == rest;
        FinishedJoin(page, rest, |dbs|);
      } else {
        assert [page][1..] == [];
        FinishedLast(page, |dbs|);
      }
    }
  }

  lemma FinishedJoin<T>(page: WindowPage<T>, rest: seq<WindowPage<T>>, n: nat)
    requires n > 0 && Finished(rest, n - 1)
    ensures Finished([page] + rest, n)
  {
    if rest != [] { assert ([page] + rest)[|rest|] == rest[|rest| - 1]; }
  }

  lemma FinishedLast<T>(page: WindowPage<T>, n: nat)
    requires !page.hasMore
    ensures Finished([page], n)
  {
  }

  lemma PagePositive(db: Db, channel: string, order: Direction, cursor: Option<int>, limit: nat)
    requires Numbered(db.messages, db.lastMessageId) && !NotPositive(cursor)
    ensures var page := WindowOf(ChannelMessages(db, channel), Window(order, cursor, limit)).rows;
            !NotPositive(NextId(page, cursor))
  {
    var table := ChannelMessages(db, channel);
    var w := Window(order, cursor, limit);
    RowsDistinct(table, order);
    PageFacts(Rows(table), ById(order), CursorKey(w), limit);
    var page := WindowOf(table, w).rows;
    if page != [] { assert page[|page| - 1] in Rows(table); }
  }

  const WRITER := Identity("s", "p")

  /** The same message, over and over. */
  function Chatter(n: nat): seq<Timed> {
    seq(n, i => (0, AppendStep(WRITER, "c", "message", "b", None)))
  }

  lemma {:induction false} ChatterCounts(h: Hash, n: nat, k: nat)
    requires k <= n
    ensures |ChannelMessages(StateAt(h, Chatter(n), k), "c")| == k
  {
    hide StateAt, Apply, ChannelMessages;
    if k == 0 {
      StartsSilent(h, n);
    } else {
      ChatterCounts(h, n, k - 1);
      NextState(h, Chatter(n), k - 1);
      RunNumbered(h, Chatter(n), k - 1);
      ChatterAdds(h, StateAt(h, Chatter(n), k - 1));
    }
  }

  lemma StartsSilent(h: Hash, n: nat)
    ensures |ChannelMessages(StateAt(h, Chatter(n), 0), "c")| == 0
  {
    assert ChannelMessages(EMPTY_DB, "c") == map[];
  }

  lemma ChatterAdds(h: Hash, db: Db)
    requires AllNumbered(db)
    ensures var after := Apply(h, db, 0, AppendStep(WRITER, "c", "message", "b", None)).0;
            |ChannelMessages(after, "c")| == |ChannelMessages(db, "c")| + 1
  {
    hide EnsureChannel;
    EnsuredIds(db, "c", Some(WRITER.instance));
    var (after, m) := AppendMessage(db, 0, WRITER, "c", "message", "b", None);
    assert after.messages == db.messages[m.id := m] && m.id !in db.messages;
    assert ChannelMessages(after, "c") == ChannelMessages(db, "c")[m.id := m];
  }

  /** One message more than the pages so far hold, at each of n pages. */
  function Outrun(limit: nat, n: nat): seq<nat> {
    seq(n, i requires 0 <= i < n => (i + 1) * limit + 1)
  }

  lemma OutrunInstants(limit: nat, n: nat)
    ensures Instants(Chatter(n * limit + 1), Outrun(limit, n))
  {
    var at := Outrun(limit, n);
    forall i, j | 0 <= i <= j < n ensures at[i] <= at[j] { Scaled(i + 1, j + 1, limit); }
    forall i | 0 <= i < n ensures at[i] <= n * limit + 1 { Scaled(i + 1, n, limit); }
  }

  lemma Scaled(i: nat, j: nat, limit: nat)
    requires i <= j
    ensures i * limit <= j * limit
  {
    assert j * limit == i * limit + (j - i) * limit;
  }

  /** An ascending reader can be outrun for as long as it reads: for any page size and any number of pages there
      is a run that starts it with one message more than a page and adds a page of messages between pages, and
      every page it is answered says there is more. */
  lemma ReaderOutrun(h: Hash, limit: nat, n: nat) returns (run: seq<Timed>, at: seq<nat>,
                                                           answers: seq<WindowPage<(int, Message)>>)
    requires 1 <= limit <= MAX_WINDOW_SIZE && n >= 1
    ensures GuardedRun(run) && Instants(run, at) && |at| == n
    ensures at[0] == limit + 1 && forall i | 0 < i < n :: at[i] - at[i - 1] == limit
    ensures MessageAnswers(States(h, run, at), "c", Ascending, None, limit, answers) && Finished(answers, n)
    ensures !Stopped(answers) && |answers| == n
  {
    hide StateAt, ChannelMessages, MessageAnswers, Numbered, Stopped, HasRoom, Instants, Reads, AllRows, Rank, Leq,
         Guarded;
    run, at := Chatter(n * limit + 1), Outrun(limit, n);
    OutrunInstants(limit, n);
    ChatterGuarded(n * limit + 1);
    var dbs := States(h, run, at);
    forall i | 0 <= i < n ensures Numbered(dbs[i].messages, dbs[i].lastMessageId) {
      OutrunWithin(limit, n, i);
      RunNumbered(h, run, at[i]);
    }
    assert IsName("c");
    FollowedMessages(dbs, "c", Ascending, None, limit);
    answers := FollowMessages(dbs, "c", Ascending, None, limit);
    MessageWalk(h, run, at, "c", Ascending, limit, answers, 0);
    var tables := Conversations(h, run, at, "c");
    forall i | 0 <= i < n ensures |tables[i]| == (i + 1) * limit + 1 {
      OutrunWithin(limit, n, i);
      ChatterCounts(h, n * limit + 1, at[i]);
    }
    NoRoom(tables, limit);
    OpenFinished(answers, n);
    forall i | 0 < i < n ensures at[i] - at[i - 1] == limit { assert (i + 1) * limit == i * limit + limit; }
  }

  lemma ChatterGuarded(n: nat)
    ensures GuardedRun(Chatter(n))
  {
  }

  lemma OutrunWithin(limit: nat, n: nat, i: nat)
    requires i < n
    ensures Outrun(limit, n)[i] == (i + 1) * limit + 1 <= n * limit + 1
  {
    Scaled(i + 1, n, limit);
  }

  lemma NoRoom<V>(tables: seq<map<int, V>>, limit: nat)
    requires forall i | 0 <= i < |tables| :: |tables[i]| == (i + 1) * limit + 1
    ensures !HasRoom(tables, Ascending, limit)
  {
  }

  lemma OpenFinished<T>(answers: seq<WindowPage<T>>, n: nat)
    requires Finished(answers, n) && !Stopped(answers)
    ensures |answers| == n
  {
  }

  // ---- the policy window --------------------------------------------------------------------

  /** What the policy reader answers a client that follows its cursors through the durable grants. */
  ghost predicate DurableAnswers(dbs: seq<Db>, order: Direction, cursor: Option<int>, limit: nat,
                                 answers: seq<WindowPage<(int, DurableGrant)>>) {
    answers == []
    || (&& dbs != []
        && PolicyWindowOf(dbs[0], "durable", NextRequest(order, cursor, limit))
           == Ok(PolicyWindow(answers[0], WindowPage([], false)))
        && (|answers| > 1 ==> answers[0].hasMore)
        && DurableAnswers(dbs[1..], order, NextId(answers[0].rows, cursor), limit, answers[1..]))
  }

  /** The same through the delegated grants. */
  ghost predicate DelegatedAnswers(dbs: seq<Db>, order: Direction, cursor: Option<int>, limit: nat,
                                   answers: seq<WindowPage<(int, DelegatedGrant)>>) {
    answers == []
    || (&& dbs != []
        && PolicyWindowOf(dbs[0], "delegated", NextRequest(order, cursor, limit))
           == Ok(PolicyWindow(WindowPage([], false), answers[0]))
        && (|answers| > 1 ==> answers[0].hasMore)
        && DelegatedAnswers(dbs[1..], order, NextId(answers[0].rows, cursor), limit, answers[1..]))
  }

  ghost function DurableTables(dbs: seq<Db>): seq<map<int, DurableGrant>> {
    seq(|dbs|, i requires 0 <= i < |dbs| => dbs[i].durable)
  }

  ghost function DelegatedTables(dbs: seq<Db>): seq<map<int, DelegatedGrant>> {
    seq(|dbs|, i requires 0 <= i < |dbs| => dbs[i].delegated)
  }

  lemma {:induction false} DurableAnswered(dbs: seq<Db>, order: Direction, cursor: Option<int>, limit: nat,
                                           answers: seq<WindowPage<(int, DurableGrant)>>)
    requires DurableAnswers(dbs, order, cursor, limit, answers) && answers != []
    ensures limit >= 1 && Answered(DurableTables(dbs), order, cursor, limit, answers)
    decreases |answers|
  {
    hide ValidateWindow, WindowOf;
    StoreNames();
    NextRequestValid(order, cursor, limit);
    assert DurableTables(dbs)[1..] == DurableTables(dbs[1..]);
    if |answers| > 1 {
      DurableAnswered(dbs[1..], order, NextId(answers[0].rows, cursor), limit, answers[1..]);
    }
  }

  lemma {:induction false} DelegatedAnswered(dbs: seq<Db>, order: Direction, cursor: Option<int>, limit: nat,
                                             answers: seq<WindowPage<(int, DelegatedGrant)>>)
    requires DelegatedAnswers(dbs, order, cursor, limit, answers) && answers != []
    ensures limit >= 1 && Answered(DelegatedTables(dbs), order, cursor, limit, answers)
    decreases |answers|
  {
    hide ValidateWindow, WindowOf;
    StoreNames();
    NextRequestValid(order, cursor, limit);
    assert DelegatedTables(dbs)[1..] == DelegatedTables(dbs[1..]);
    if |answers| > 1 {
      DelegatedAnswered(dbs[1..], order, NextId(answers[0].rows, cursor), limit, answers[1..]);
    }
  }

  /** The same for the policy window and both grant tables, whose rows change status and consumption between
      pages but never leave. */
  lemma PolicyWalk(h: Hash, run: seq<Timed>, at: seq<nat>, order: Direction, limit: nat,
                   durable: seq<WindowPage<(int, DurableGrant)>>, delegated: seq<WindowPage<(int, DelegatedGrant)>>,
                   id: int)
    requires at != [] && Instants(run, at)
    ensures var dbs := States(h, run, at);
            DurableAnswers(dbs, order, None, limit, durable) && Finished(durable, |at|) ==>
              && StrictlySorted(AllRows(durable), ById(order))
              && (Stopped(durable) && id in dbs[0].durable ==> Reads(AllRows(durable), ById(order), Rank(order, id)))
              && (Stopped(durable) <==> HasRoom(DurableTables(dbs), order, limit))
    ensures var dbs := States(h, run, at);
            DelegatedAnswers(dbs, order, None, limit, delegated) && Finished(delegated, |at|) ==>
              && StrictlySorted(AllRows(delegated), ById(order))
              && (Stopped(delegated) && id in dbs[0].delegated ==>
                  Reads(AllRows(delegated), ById(order), Rank(order, id)))
              && (Stopped(delegated) <==> HasRoom(DelegatedTables(dbs), order, limit))
  {
    hide StateAt, Answered, DurableAnswers, DelegatedAnswers, Reads, Rank, Leq, AllRows, IdsGrow, HasRoom;
    var dbs := States(h, run, at);
    forall i, j | 0 <= i <= j < |dbs|
      ensures IdsGrow(dbs[i].durable, dbs[j].durable) && IdsGrow(dbs[i].delegated, dbs[j].delegated)
    {
      RunIdsGrow(h, run, at[i], at[j]);
    }
    if DurableAnswers(dbs, order, None, limit, durable) && Finished(durable, |at|) {
      DurableAnswered(dbs, order, None, limit, durable);
      ClientReads(DurableTables(dbs), order, limit, durable, id);
    }
    if DelegatedAnswers(dbs, order, None, limit, delegated) && Finished(delegated, |at|) {
      DelegatedAnswered(dbs, order, None, limit, delegated);
      ClientReads(DelegatedTables(dbs), order, limit, delegated, id);
    }
  }

  // ---- the channel directory ----------------------------------------------------------------

  /** The cursor a client of the directory sends next: the last name it got. */
  function NextName(page: seq<ChannelSummary>, after: Option<string>): Option<string> {
    if page == [] then after else Some(page[|page| - 1].name)
  }

  function NameKey(name: string): Key { [Str(name)] }

  function NameCursor(after: Option<string>): Option<Key> {
    if after.Some? then Some(NameKey(after.value)) else None
  }

  function NamesOf(rows: seq<ChannelSummary>): seq<string> {
    seq(|rows|, i requires 0 <= i < |rows| => rows[i].name)
  }

  function RowNames(rows: seq<DirectoryRow>): seq<string> {
    seq(|rows|, i requires 0 <= i < |rows| => rows[i].0)
  }

  /** What the directory reader answers a client that follows its names. */
  ghost predicate DirectoryAnswers(dbs: seq<Db>, publicOnly: bool, after: Option<string>, limit: nat,
                                   answers: seq<WindowPage<ChannelSummary>>) {
    answers == []
    || (&& dbs != [] && IsDirectoryWindow(dbs[0], publicOnly, after, Some(limit), Ok(answers[0]))
        && (|answers| > 1 ==> answers[0].hasMore)
        && DirectoryAnswers(dbs[1..], publicOnly, NextName(answers[0].rows, after), limit, answers[1..]))
  }

  ghost function DirectoryTables(dbs: seq<Db>, publicOnly: bool): (r: seq<set<DirectoryRow>>)
    ensures |r| == |dbs| && forall i | 0 <= i < |r| :: r[i] == DirectoryRows(dbs[i], publicOnly)
    ensures AllDistinct(r, ByName)
  {
    var r := seq(|dbs|, i requires 0 <= i < |dbs| => DirectoryRows(dbs[i], publicOnly));
    assert AllDistinct(r, ByName) by {
      forall i | 0 <= i < |r| ensures Distinct(r[i], ByName) { ByNameDistinct(dbs[i], publicOnly); }
    }
    r
  }

  /** One answer shows the names of its page. */
  lemma AnswerShowsPage(db: Db, publicOnly: bool, after: Option<string>, limit: nat, answer: WindowPage<ChannelSummary>)
    requires IsDirectoryWindow(db, publicOnly, after, Some(limit), Ok(answer))
    ensures Distinct(DirectoryRows(db, publicOnly), ByName) && limit >= 1
    ensures var page := PageRows(DirectoryRows(db, publicOnly), ByName, NameCursor(after), limit);
            && NamesOf(answer.rows) == RowNames(page)
            && answer.hasMore == HasMore(DirectoryRows(db, publicOnly), ByName, NameCursor(after), limit)
            && NameCursor(NextName(answer.rows, after)) == NextCursor(page, ByName, NameCursor(after))
  {
    hide IsLastId, PageRows, HasMore, DirectoryRows;
    ByNameDistinct(db, publicOnly);
    var page := PageRows(DirectoryRows(db, publicOnly), ByName, NameCursor(after), limit);
    assert forall i | 0 <= i < |page| :: answer.rows[i].name == page[i].0;
  }

  /** The names a client got are those of the walk of its directories. */
  lemma {:induction false} DirectoryIsWalk(dbs: seq<Db>, publicOnly: bool, after: Option<string>, limit: nat,
                                           answers: seq<WindowPage<ChannelSummary>>)
    requires DirectoryAnswers(dbs, publicOnly, after, limit, answers) && Finished(answers, |dbs|)
    ensures var (walk, stopped) := Walk(DirectoryTables(dbs, publicOnly), ByName, NameCursor(after), limit);
            RowNames(walk) == NamesOf(AllRows(answers)) && stopped == Stopped(answers)
    decreases |answers|
  {
    hide IsDirectoryWindow, PageRows, HasMore, DirectoryRows;
    if answers != [] {
      AnswerShowsPage(dbs[0], publicOnly, after, limit, answers[0]);
      var next := NextName(answers[0].rows, after);
      assert DirectoryTables(dbs, publicOnly)[1..] == DirectoryTables(dbs[1..], publicOnly);
      var page := PageRows(DirectoryRows(dbs[0], publicOnly), ByName, NameCursor(after), limit);
      if answers[0].hasMore {
        FinishedTail(answers, |dbs|);
        DirectoryIsWalk(dbs[1..], publicOnly, next, limit, answers[1..]);
        var rest := Walk(DirectoryTables(dbs[1..], publicOnly), ByName, NameCursor(next), limit).0;
        JoinNames(page, rest, answers[0].rows, AllRows(answers[1..]));
      } else {
        assert |answers| == 1;
        assert AllRows(answers[1..]) == [];
        assert answers[0].rows + [] == answers[0].rows;
      }
    }
  }

  lemma JoinNames(a: seq<DirectoryRow>, b: seq<DirectoryRow>, x: seq<ChannelSummary>, y: seq<ChannelSummary>)
    requires RowNames(a) == NamesOf(x) && RowNames(b) == NamesOf(y)
    ensures RowNames(a + b) == NamesOf(x + y)
  {
    assert |a| == |RowNames(a)| && |x| == |NamesOf(x)| && |b| == |RowNames(b)| && |y| == |NamesOf(y)|;
    forall i | 0 <= i < |a + b| ensures RowNames(a + b)[i] == NamesOf(x + y)[i] {
      if i < |a| { assert RowNames(a)[i] == NamesOf(x)[i]; } else {
        assert RowNames(b)[i - |a|] == NamesOf(y)[i - |a|];
      }
    }
  }

  /** Following the names through the channel directory while the kernel runs on: names strictly ascend, so
      none is shown twice; a client that stopped was shown every channel listed at all of its pages; and it
      stops once its pages have room for the channels, which is exact where new names come after all old ones
      or before them all. */
  lemma DirectoryWalk(h: Hash, run: seq<Timed>, at: seq<nat>, publicOnly: bool, limit: nat,
                      answers: seq<WindowPage<ChannelSummary>>, name: string)
    requires at != [] && Instants(run, at)
    requires DirectoryAnswers(States(h, run, at), publicOnly, None, limit, answers) && Finished(answers, |at|)
    ensures StrictlySorted(NamesOf(AllRows(answers)), NameKey)
    ensures Stopped(answers)
            && (forall i | 0 <= i < |at| ::
                name in StateAt(h, run, at[i]).channels && Listed(StateAt(h, run, at[i]).channels[name], publicOnly))
            ==> name in NamesOf(AllRows(answers))
    ensures |at| * limit >= |StateAt(h, run, at[|at| - 1]).channels| ==> Stopped(answers)
    ensures var tables := DirectoryTables(States(h, run, at), publicOnly);
            && (GrowsAbove(tables, ByName) ==>
                  (Stopped(answers) <==> exists i | 0 <= i < |tables| :: |tables[i]| <= (i + 1) * limit))
            && (GrowsBelow(tables, ByName) ==> (Stopped(answers) <==> |tables[0]| <= |tables| * limit))
  {
    hide StateAt, DirectoryAnswers, Stopped, Finished, AllRows, Walk, Leq, HasKey, GrowsAbove, GrowsBelow;
    var dbs := States(h, run, at);
    LimitPositive(dbs, publicOnly, limit, answers);
    DirectoryIsWalk(dbs, publicOnly, None, limit, answers);
    var tables := DirectoryTables(dbs, publicOnly);
    var walk := Walk(tables, ByName, None, limit).0;
    WalkAscends(tables, ByName, None, limit);
    NamesAscend(walk);
    if GrowsAbove(tables, ByName) { AscendingStopsExactly(tables, ByName, limit); }
    if GrowsBelow(tables, ByName) { DescendingStopsExactly(tables, ByName, limit); }
    if Stopped(answers) && (forall i | 0 <= i < |at| ::
                            name in dbs[i].channels && Listed(dbs[i].channels[name], publicOnly)) {
      forall i | 0 <= i < |tables| ensures HasKey(tables[i], ByName, NameKey(name)) {
        NameListed(dbs[i], publicOnly, name);
      }
      WalkCompletes(tables, ByName, None, limit, NameKey(name));
      NameRead(walk, name);
    }
    if |at| * limit >= |StateAt(h, run, at[|at| - 1]).channels| {
      var last := StateAt(h, run, at[|at| - 1]).channels.Keys;
      var keys := KeysOf(last, NameKey);
      assert |last| == |StateAt(h, run, at[|at| - 1]).channels|;
      forall i | 0 <= i < |tables| ensures forall row | row in tables[i] :: ByName(row) in keys {
        RunChannels(h, run, at[i], at[|at| - 1]);
        forall row | row in tables[i] ensures ByName(row) in keys {
          assert row.0 in last && ByName(row) == NameKey(row.0);
        }
      }
      WalkStops(tables, ByName, limit, keys);
    }
  }

  lemma LimitPositive(dbs: seq<Db>, publicOnly: bool, limit: nat, answers: seq<WindowPage<ChannelSummary>>)
    requires dbs != [] && DirectoryAnswers(dbs, publicOnly, None, limit, answers) && Finished(answers, |dbs|)
    ensures limit >= 1
  {
    AnswerShowsPage(dbs[0], publicOnly, None, limit, answers[0]);
  }

  lemma NamesAscend(walk: seq<DirectoryRow>)
    requires StrictlySorted(walk, ByName)
    ensures StrictlySorted(RowNames(walk), NameKey)
  {
    hide Leq;
    var names := RowNames(walk);
    forall i, j | 0 <= i < j < |names| ensures Less(NameKey(names[i]), NameKey(names[j])) {
      assert Less(ByName(walk[i]), ByName(walk[j]));
    }
  }

  lemma NameListed(db: Db, publicOnly: bool, name: string)
    requires name in db.channels && Listed(db.channels[name], publicOnly)
    ensures HasKey(DirectoryRows(db, publicOnly), ByName, NameKey(name))
  {
    assert (name, db.channels[name]) in DirectoryRows(db, publicOnly);
    assert ByName((name, db.channels[name])) == NameKey(name);
  }

  lemma NameRead(walk: seq<DirectoryRow>, name: string)
    requires Reads(walk, ByName, NameKey(name))
    ensures name in RowNames(walk)
  {
    var i :| 0 <= i < |walk| && ByName(walk[i]) == NameKey(name);
    assert ByName(walk[i])[0] == NameKey(name)[0];
    assert RowNames(walk)[i] == name;
  }
}
