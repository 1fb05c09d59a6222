/** What the paged readers show, row by row: which requests are refused, which rows a page has, in which order,
    and when there is more. */
module WindowsExact {
  import opened Text
  import opened Order
  import opened Tables
  import opened Paging
  import opened Windows

  // ---- requests -----------------------------------------------------------------------------

  predicate IsAscending(r: WindowRequest) {
    r.order == Some("asc")
  }

  /** An unknown order, a cursor against the order, a cursor below 1, or a limit outside 1 to 200. */
  predicate Unusable(r: WindowRequest) {
    || (r.order.Some? && r.order.value != "asc" && r.order.value != "desc")
    || (r.before.Some? && (IsAscending(r) || r.before.value < 1))
    || (r.after.Some? && (!IsAscending(r) || r.after.value < 1))
    || (r.limit.Some? && (r.limit.value == 0 || r.limit.value > 200))
  }

  lemma RequestExact(r: WindowRequest)
    ensures ValidateWindow(r)
         == if Unusable(r) then Err(InvalidQuery)
            else Ok(Window(if IsAscending(r) then Ascending else Descending,
                           if IsAscending(r) then r.after else r.before,
                           if r.limit.Some? then r.limit.value else 20))
  {
  }

  // ---- pages of ids -------------------------------------------------------------------------

  /** Behind the cursor in the order of reading. */
  predicate Past(r: WindowRequest, id: int) {
    if IsAscending(r) then r.after.Some? ==> r.after.value < id else r.before.Some? ==> id < r.before.value
  }

  predicate ReadBefore(r: WindowRequest, a: int, b: int) {
    if IsAscending(r) then a < b else b < a
  }

  /** The rows asked for behind the cursor, in order, as many as there are up to the limit; there is more
      exactly when one is left out, and what is left out comes after. */
  ghost predicate ShowsIds(asked: int -> bool, r: WindowRequest, ids: seq<int>, more: bool) {
    var limit := if r.limit.Some? then r.limit.value else 20;
    && |ids| <= limit
    && (forall i | 0 <= i < |ids| :: asked(ids[i]) && Past(r, ids[i]))
    && (forall i, j | 0 <= i < j < |ids| :: ReadBefore(r, ids[i], ids[j]))
    && (forall id | asked(id) && Past(r, id) && id !in ids ::
          more && |ids| == limit && forall i | 0 <= i < |ids| :: ReadBefore(r, ids[i], id))
    && (more ==> exists id :: asked(id) && Past(r, id) && id !in ids)
  }

  function IdsShown<V>(page: WindowPage<(int, V)>): seq<int> {
    seq(|page.rows|, i requires 0 <= i < |page.rows| => page.rows[i].0)
  }

  function Holds<V>(table: map<int, V>): int -> bool {
    id => id in table
  }

  function WindowFor(r: WindowRequest): Window {
    Window(if IsAscending(r) then Ascending else Descending, if IsAscending(r) then r.after else r.before,
           if r.limit.Some? then r.limit.value else 20)
  }

  /** The rows behind the cursor, in the order of reading. */
  ghost function RowsPast<V>(table: map<int, V>, r: WindowRequest): seq<(int, V)> {
    RowsDistinct(table, WindowFor(r).order);
    Remaining(Rows(table), ById(WindowFor(r).order), CursorKey(WindowFor(r)))
  }

  lemma RemainingIds<V>(table: map<int, V>, r: WindowRequest, i: nat)
    requires i < |RowsPast(table, r)|
    ensures var all := RowsPast(table, r);
            && all[i].0 in table && table[all[i].0] == all[i].1 && Past(r, all[i].0)
            && forall j | i < j < |all| :: ReadBefore(r, all[i].0, all[j].0)
  {
    hide Leq;
    var w := WindowFor(r);
    RowsDistinct(table, w.order);
    var all := RowsPast(table, r);
    assert all[i] in Beyond(Rows(table), ById(w.order), CursorKey(w));
    if w.cursor.Some? { RankOrder(w.order, w.cursor.value, all[i].0); }
    forall j | i < j < |all| ensures ReadBefore(r, all[i].0, all[j].0) {
      assert Less(ById(w.order)(all[i]), ById(w.order)(all[j]));
      RankOrder(w.order, all[i].0, all[j].0);
    }
  }

  lemma IdRemains<V>(table: map<int, V>, r: WindowRequest, id: int) returns (j: nat)
    requires id in table && Past(r, id)
    ensures var all := RowsPast(table, r);
            j < |all| && all[j] == (id, table[id])
  {
    hide Leq;
    var w := WindowFor(r);
    RowsDistinct(table, w.order);
    var all := RowsPast(table, r);
    assert (id, table[id]) in Rows(table);
    if w.cursor.Some? { RankOrder(w.order, w.cursor.value, id); }
    assert (id, table[id]) in Beyond(Rows(table), ById(w.order), CursorKey(w));
    j :| 0 <= j < |all| && all[j] == (id, table[id]);
  }

  lemma PageShows<V>(table: map<int, V>, r: WindowRequest)
    ensures var page := WindowOf(table, WindowFor(r));
            && ShowsIds(Holds(table), r, IdsShown(page), page.hasMore)
            && forall i | 0 <= i < |page.rows| :: page.rows[i].0 in table && page.rows[i].1 == table[page.rows[i].0]
  {
    var w := WindowFor(r);
    RowsDistinct(table, w.order);
    var all := RowsPast(table, r);
    var page := WindowOf(table, w);
    var ids := IdsShown(page);
    hide Remaining, Leq, Past, ReadBefore, Rows, ById;
    assert |ids| == (if |all| <= w.limit then |all| else w.limit);
    forall i | 0 <= i < |ids| ensures ids[i] == all[i].0 && page.rows[i] == all[i] {}
    forall i: nat | i < |all|
      ensures && all[i].0 in table && table[all[i].0] == all[i].1 && Past(r, all[i].0)
              && forall j | i < j < |all| :: ReadBefore(r, all[i].0, all[j].0)
    {
      RemainingIds(table, r, i);
    }
    forall id | id in table && Past(r, id) && id !in ids
      ensures page.hasMore && |ids| == w.limit && forall i | 0 <= i < |ids| :: ReadBefore(r, ids[i], id)
    {
      var j := IdRemains(table, r, id);
      assert j >= |ids|;
    }
    if page.hasMore {
      var id := all[w.limit].0;
      assert forall i | 0 <= i < |ids| :: ReadBefore(r, all[i].0, all[w.limit].0);
      LaterNotAmong(r, ids, id);
      assert Holds(table)(id) && Past(r, id) && id !in ids;
    }
  }

  lemma LaterNotAmong(r: WindowRequest, ids: seq<int>, id: int)
    requires forall i | 0 <= i < |ids| :: ReadBefore(r, ids[i], id)
    ensures id !in ids
  {
  }

  lemma ShowsSame(a: int -> bool, b: int -> bool, r: WindowRequest, ids: seq<int>, more: bool)
    requires ShowsIds(a, r, ids, more) && forall id :: a(id) <==> b(id)
    ensures ShowsIds(b, r, ids, more)
  {
    hide Past, ReadBefore;
  }

  // ---- policy window ------------------------------------------------------------------------

  /** The policy window: an unknown store or an unusable request is refused; otherwise the page of the chosen
      store, and nothing of the other. */
  lemma PolicyWindowExact(db: Db, store: string, r: WindowRequest)
    ensures var result := PolicyWindowOf(db, store, r);
            && (result.Err? <==> (store != "durable" && store != "delegated") || Unusable(r))
            && (result.Ok? ==>
                  var durable, delegated := result.value.durable, result.value.delegated;
                  if store == "durable" then
                    && ShowsIds(Holds(db.durable), r, IdsShown(durable), durable.hasMore)
                    && (forall i | 0 <= i < |durable.rows| ::
                          durable.rows[i].0 in db.durable && durable.rows[i].1 == db.durable[durable.rows[i].0])
                    && delegated == WindowPage([], false)
                  else
                    && ShowsIds(Holds(db.delegated), r, IdsShown(delegated), delegated.hasMore)
                    && (forall i | 0 <= i < |delegated.rows| ::
                          delegated.rows[i].0 in db.delegated
                          && delegated.rows[i].1 == db.delegated[delegated.rows[i].0])
                    && durable == WindowPage([], false))
  {
    hide WindowOf, ShowsIds, ValidateWindow, Unusable;
    RequestExact(r);
    PageShows(db.durable, r);
    PageShows(db.delegated, r);
    assert |"durable"| == 7 && |"delegated"| == 9;
  }

  // ---- administration history ---------------------------------------------------------------

  /** Event ids start at 1; a filter keeps the events whose target participant it names. */
  function EventsAbout(db: Db, participant: Option<string>): int -> bool {
    id => && 1 <= id <= |db.events|
          && (participant.None? || db.events[id - 1].scope.participantId == Trim(participant.value))
  }

  /** The administration history: an unusable request or a filter that is no participant id is refused;
      otherwise the page of the events about the participant, or of all. */
  lemma EventWindowExact(db: Db, participant: Option<string>, r: WindowRequest)
    ensures var result := EventWindowOf(db, participant, r);
            && (result.Err?
                <==> Unusable(r) || (participant.Some? && !IsParticipantId(Trim(participant.value))))
            && (result.Ok? ==>
                  && ShowsIds(EventsAbout(db, participant), r, IdsShown(result.value), result.value.hasMore)
                  && forall i | 0 <= i < |result.value.rows| ::
                       && 1 <= result.value.rows[i].0 <= |db.events|
                       && result.value.rows[i].1 == db.events[result.value.rows[i].0 - 1])
  {
    hide WindowOf, ShowsIds, ValidateWindow, Unusable, Trim, IsParticipantId;
    RequestExact(r);
    var p := ParticipantFilter(participant);
    if p.Ok? {
      var table := EventTable(db, p.value);
      PageShows(table, r);
      forall id ensures Holds(table)(id) <==> EventsAbout(db, participant)(id) {}
      if !Unusable(r) {
        var page := WindowOf(table, WindowFor(r));
        ShowsSame(Holds(table), EventsAbout(db, participant), r, IdsShown(page), page.hasMore);
      }
    }
  }

  // ---- messages -----------------------------------------------------------------------------

  function MessagesIn(db: Db, channel: string): int -> bool {
    id => id in db.messages && db.messages[id].channel == channel
  }

  /** The message window: refused for the channel name, the request, a guest of a channel that is not both
      public and active, and an unknown viewer, in this order; otherwise the page of the channel's messages. */
  lemma MessageWindowExact(db: Db, viewer: Viewer, channel: string, r: WindowRequest)
    ensures var result := MessageWindowOf(db, viewer, channel, r);
            if !IsName(channel) then result == Err(InvalidChannel)
            else if Unusable(r) then result == Err(InvalidWindow)
            else if viewer == Guest
                    && (channel !in db.channels || db.channels[channel].visibility == Private
                        || db.channels[channel].status == ChannelArchived) then result == Err(Forbidden)
            else if viewer == Unknown then result == Err(Unauthorized)
            else
              && result.Ok?
              && ShowsIds(MessagesIn(db, channel), r, IdsShown(result.value), result.value.hasMore)
              && forall i | 0 <= i < |result.value.rows| ::
                   && result.value.rows[i].0 in db.messages
                   && result.value.rows[i].1 == db.messages[result.value.rows[i].0]
  {
    hide WindowOf, ShowsIds, ValidateWindow, Unusable, IsName;
    RequestExact(r);
    var table := ChannelMessages(db, channel);
    PageShows(table, r);
    forall id ensures Holds(table)(id) <==> MessagesIn(db, channel)(id) {}
    var page := WindowOf(table, WindowFor(r));
    ShowsSame(Holds(table), MessagesIn(db, channel), r, IdsShown(page), page.hasMore);
  }

  // ---- channel directory --------------------------------------------------------------------

  /** A channel the directory shows: any, or for the public listing a public active one. */
  predicate Shown(db: Db, publicOnly: bool, after: Option<string>, name: string) {
    && name in db.channels
    && (after.Some? ==> after.value != name && TextLeq(after.value, name))
    && (publicOnly ==> db.channels[name].visibility == Public && db.channels[name].status == ChannelActive)
  }

  /** The row of the channel with the number of its messages and the id of the last. */
  ghost predicate Tells(db: Db, s: ChannelSummary) {
    && s.name in db.channels && s.channel == db.channels[s.name]
    && s.messageCount == |(set id | id in db.messages && db.messages[id].channel == s.name)|
    && (s.messageCount == 0 ==> s.lastId == 0)
    && (s.messageCount > 0 ==> s.lastId in db.messages && db.messages[s.lastId].channel == s.name)
    && (forall id | id in db.messages && db.messages[id].channel == s.name :: id <= s.lastId)
  }

  ghost predicate ShowsNames(db: Db, publicOnly: bool, after: Option<string>, limit: nat,
                             page: WindowPage<ChannelSummary>) {
    && |page.rows| <= limit
    && (forall i | 0 <= i < |page.rows| ::
          Shown(db, publicOnly, after, page.rows[i].name) && Tells(db, page.rows[i]))
    && (forall i, j | 0 <= i < j < |page.rows| :: NameLess(page.rows[i].name, page.rows[j].name))
    && (forall name | Shown(db, publicOnly, after, name) && !Names(page, name) ::
          page.hasMore && |page.rows| == limit && forall i | 0 <= i < |page.rows| :: NameLess(page.rows[i].name, name))
    && (page.hasMore ==> exists name :: Shown(db, publicOnly, after, name) && !Names(page, name))
  }

  predicate NameLess(a: string, b: string) {
    a != b && TextLeq(a, b)
  }

  predicate Names(page: WindowPage<ChannelSummary>, name: string) {
    exists i | 0 <= i < |page.rows| :: page.rows[i].name == name
  }

  lemma NameOrder(a: string, b: string)
    ensures Less([Str(a)], [Str(b)]) <==> NameLess(a, b)
  {
    assert [Str(a)][0] == Str(a) && [Str(b)][0] == Str(b);
    assert [Str(a)][1..] == [] && [Str(b)][1..] == [];
  }

  lemma SummaryTells(db: Db, s: ChannelSummary, row: DirectoryRow)
    requires Summarises(db, s, row) && row.0 in db.channels && db.channels[row.0] == row.1
    ensures Tells(db, s)
  {
    var ids := MessageIds(db, s.name);
    assert ids == (set id | id in db.messages && db.messages[id].channel == s.name);
    forall id | id in db.messages && db.messages[id].channel == s.name ensures id <= s.lastId {
      assert id in ids;
    }
    if s.messageCount > 0 { NotEmpty(ids); }
  }

  lemma NotEmpty<T>(s: set<T>)
    requires |s| > 0
    ensures s != {}
  {
  }

  ghost function NamesPast(db: Db, publicOnly: bool, after: Option<string>): seq<DirectoryRow> {
    ByNameDistinct(db, publicOnly);
    Remaining(DirectoryRows(db, publicOnly), ByName, if after.Some? then Some([Str(after.value)]) else None)
  }

  lemma RemainingNames(db: Db, publicOnly: bool, after: Option<string>, i: nat)
    requires i < |NamesPast(db, publicOnly, after)|
    ensures var all := NamesPast(db, publicOnly, after);
            && Shown(db, publicOnly, after, all[i].0) && all[i].1 == db.channels[all[i].0]
            && forall j | i < j < |all| :: NameLess(all[i].0, all[j].0)
  {
    hide Leq, TextLeq;
    var all := NamesPast(db, publicOnly, after);
    var cursor := if after.Some? then Some([Str(after.value)]) else None;
    assert all[i] in Beyond(DirectoryRows(db, publicOnly), ByName, cursor);
    if after.Some? { NameOrder(after.value, all[i].0); }
    forall j | i < j < |all| ensures NameLess(all[i].0, all[j].0) {
      assert Less(ByName(all[i]), ByName(all[j]));
      NameOrder(all[i].0, all[j].0);
    }
  }

  lemma NameRemains(db: Db, publicOnly: bool, after: Option<string>, name: string) returns (j: nat)
    requires Shown(db, publicOnly, after, name)
    ensures j < |NamesPast(db, publicOnly, after)|
    ensures NamesPast(db, publicOnly, after)[j] == (name, db.channels[name])
  {
    hide Leq, TextLeq;
    var all := NamesPast(db, publicOnly, after);
    var cursor := if after.Some? then Some([Str(after.value)]) else None;
    assert (name, db.channels[name]) in DirectoryRows(db, publicOnly);
    if after.Some? { NameOrder(after.value, name); }
    assert (name, db.channels[name]) in Beyond(DirectoryRows(db, publicOnly), ByName, cursor);
    j :| 0 <= j < |all| && all[j] == (name, db.channels[name]);
  }

  lemma NamesShown(db: Db, publicOnly: bool, after: Option<string>, limit: nat, page: WindowPage<ChannelSummary>)
    requires var all := NamesPast(db, publicOnly, after);
             && |page.rows| == (if |all| <= limit then |all| else limit) && page.hasMore == (|all| > limit)
             && forall i | 0 <= i < |page.rows| :: Summarises(db, page.rows[i], all[i])
    ensures ShowsNames(db, publicOnly, after, limit, page)
  {
    hide NamesPast, Shown, NameLess, Tells, IsLastId, MessageIds;
    var all := NamesPast(db, publicOnly, after);
    forall i: nat | i < |all|
      ensures && Shown(db, publicOnly, after, all[i].0) && all[i].0 in db.channels
              && all[i].1 == db.channels[all[i].0]
              && forall j | i < j < |all| :: NameLess(all[i].0, all[j].0)
    {
      RemainingNames(db, publicOnly, after, i);
      ShownStored(db, publicOnly, after, all[i].0);
    }
    forall i | 0 <= i < |page.rows| ensures Tells(db, page.rows[i]) && page.rows[i].name == all[i].0 {
      SummaryTells(db, page.rows[i], all[i]);
    }
    forall name | Shown(db, publicOnly, after, name) && !Names(page, name)
      ensures page.hasMore && |page.rows| == limit
              && forall i | 0 <= i < |page.rows| :: NameLess(page.rows[i].name, name)
    {
      ShownStored(db, publicOnly, after, name);
      var j := NameRemains(db, publicOnly, after, name);
      assert j >= |page.rows|;
    }
    if page.hasMore {
      var name := all[limit].0;
      assert forall i | 0 <= i < |page.rows| :: NameLess(all[i].0, all[limit].0);
      LaterNotNamed(page, name);
      assert Shown(db, publicOnly, after, name) && !Names(page, name);
    }
  }

  lemma ShownStored(db: Db, publicOnly: bool, after: Option<string>, name: string)
    requires Shown(db, publicOnly, after, name)
    ensures name in db.channels
  {
  }

  lemma LaterNotNamed(page: WindowPage<ChannelSummary>, name: string)
    requires forall i | 0 <= i < |page.rows| :: NameLess(page.rows[i].name, name)
    ensures !Names(page, name)
  {
    hide TextLeq;
  }

  /** The channel directory: an empty cursor or a limit outside 1 to 200 is refused; otherwise the channels
      after the cursor by name, public active ones alone in the public listing, each with its message count
      and last message id. */
  lemma DirectoryWindowExact(db: Db, publicOnly: bool, after: Option<string>, limit: Option<nat>,
                             result: Result<WindowPage<ChannelSummary>, WindowError>)
    requires IsDirectoryWindow(db, publicOnly, after, limit, result)
    ensures result.Err? <==> after == Some("") || (limit.Some? && (limit.value == 0 || limit.value > 200))
    ensures result.Ok? ==>
              ShowsNames(db, publicOnly, after, if limit.Some? then limit.value else 20, result.value)
  {
    hide Remaining, ShowsNames, Summarises, DirectoryRows;
    if result.Ok? {
      var n := if limit.Some? then limit.value else DEFAULT_WINDOW_SIZE;
      var all := NamesPast(db, publicOnly, after);
      assert forall i | 0 <= i < |Limit(all, n)| :: Limit(all, n)[i] == all[i];
      NamesShown(db, publicOnly, after, n, result.value);
    }
  }
}
