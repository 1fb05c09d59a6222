/** Exactly when a client that follows cursors stops, for the two ways an id-keyed table grows: above all its
    keys, where an ascending client reads towards the new rows, and below them, where a descending client has
    the new rows behind it. */
module PagingExact {
  import opened Text
  import opened Order
  import opened Paging

  // ---- counting -----------------------------------------------------------------------------

  /** A query returns as many rows as there are. */
  lemma {:induction false} SelectionSize<T>(rows: seq<T>, all: set<T>, key: T -> Key)
    requires IsSelection(rows, all, key)
    ensures |rows| == |all|
    decreases |rows|
  {
    hide Leq;
    EmptySelection(rows, all, key);
    if rows != [] {
      TailSelection(rows, all, key);
      SelectionSize(rows[1..], all - {rows[0]}, key);
      assert rows[0] in all;
    }
  }

  lemma RemainingSize<T>(rows: set<T>, key: T -> Key, cursor: Option<Key>)
    requires Distinct(rows, key)
    ensures |Remaining(rows, key, cursor)| == |Beyond(rows, key, cursor)|
    ensures cursor.None? ==> |Remaining(rows, key, cursor)| == |rows|
  {
    SelectionSize(Remaining(rows, key, cursor), Beyond(rows, key, cursor), key);
    if cursor.None? { assert Beyond(rows, key, cursor) == rows; }
  }

  /** Two sets of rows, each with distinct keys, and with the same keys, have the same size. */
  lemma SameKeysFit<T(!new)>(a: set<T>, b: set<T>, key: T -> Key)
    requires Distinct(a, key) && forall x | x in a :: HasKey(b, key, key(x))
    ensures |a| <= |b|
  {
    hide Leq;
    var sorted := Select(a, key);
    SelectionSize(sorted, a, key);
    forall i | 0 <= i < |sorted| ensures key(sorted[i]) in KeysOf(b, key) {
      assert sorted[i] in a;
      var y :| y in b && key(y) == key(sorted[i]);
    }
    AscendingFits(sorted, key, KeysOf(b, key));
  }

  // ---- tables that agree where they are read ------------------------------------------------

  predicate After(cursor: Option<Key>, k: Key) {
    cursor.Some? ==> Less(cursor.value, k)
  }

  /** The same keys after one cursor and up to the next. */
  ghost predicate AgreeBetween<T(!new)>(a: set<T>, b: set<T>, key: T -> Key, cursor: Option<Key>, last: Key) {
    forall k | After(cursor, k) && Leq(k, last) :: HasKey(a, key, k) <==> HasKey(b, key, k)
  }

  /** The same keys after a cursor. */
  ghost predicate AgreeAfter<T(!new)>(a: set<T>, b: set<T>, key: T -> Key, cursor: Option<Key>) {
    forall k | After(cursor, k) :: HasKey(a, key, k) <==> HasKey(b, key, k)
  }

  /** The rows of a later table that a page accounted for. */
  function Taken<T>(rows: set<T>, key: T -> Key, cursor: Option<Key>, last: Key): set<T> {
    set x | x in rows && After(cursor, key(x)) && Leq(key(x), last)
  }

  lemma TakenSplits<T>(rows: set<T>, key: T -> Key, cursor: Option<Key>, last: Key)
    requires After(cursor, last)
    ensures |Beyond(rows, key, cursor)| == |Taken(rows, key, cursor, last)| + |Beyond(rows, key, Some(last))|
  {
    hide Leq;
    var all, taken, rest := Beyond(rows, key, cursor), Taken(rows, key, cursor, last), Beyond(rows, key, Some(last));
    forall x | x in rows ensures x in all <==> x in taken || x in rest {
      KeyLinear(key(x), last, last);
      if cursor.Some? && Less(last, key(x)) { LessTransitive(cursor.value, last, key(x)); }
    }
    forall x | x in taken ensures x !in rest { KeyLinear(key(x), last, last); }
    assert all == taken + rest && taken !! rest;
  }

  /** The page of a full table, as a set. */
  lemma PageIsTaken<T>(rows: set<T>, key: T -> Key, cursor: Option<Key>, limit: nat)
    requires Distinct(rows, key) && limit >= 1 && HasMore(rows, key, cursor, limit)
    ensures var page := PageRows(rows, key, cursor, limit);
            && page != [] && After(cursor, key(page[|page| - 1]))
            && |Taken(rows, key, cursor, key(page[|page| - 1]))| == limit
  {
    hide Leq;
    var page := PageRows(rows, key, cursor, limit);
    var extra := FullPage(rows, key, cursor, limit);
    PageFacts(rows, key, cursor, limit);
    var last := key(page[|page| - 1]);
    var taken := Taken(rows, key, cursor, last);
    forall x | x in page ensures x in taken {
      var i :| 0 <= i < |page| && page[i] == x;
      KeyLinear(last, last, last);
      assert i == |page| - 1 || Less(key(page[i]), last);
    }
    forall x | x in taken ensures x in page {
      PageCovers(rows, key, cursor, limit, x);
      KeyLinear(key(x), last, last);
    }
    SelectionSize(page, taken, key);
  }

  /** While a page has more, what remains of any table that agrees with it there is less by one full page. */
  lemma OnePageLess<T(!new)>(a: set<T>, b: set<T>, key: T -> Key, cursor: Option<Key>, limit: nat)
    requires Distinct(a, key) && Distinct(b, key) && limit >= 1 && HasMore(a, key, cursor, limit)
    requires var page := PageRows(a, key, cursor, limit);
             page != [] ==> AgreeBetween(a, b, key, cursor, key(page[|page| - 1]))
    ensures var next := NextCursor(PageRows(a, key, cursor, limit), key, cursor);
            |Remaining(b, key, cursor)| == limit + |Remaining(b, key, next)|
  {
    hide Leq, Remaining, Beyond, PageRows, HasMore;
    PageIsTaken(a, key, cursor, limit);
    var page := PageRows(a, key, cursor, limit);
    var last := key(page[|page| - 1]);
    var inA, inB := Taken(a, key, cursor, last), Taken(b, key, cursor, last);
    TakenAgrees(a, b, key, cursor, last);
    TakenAgrees(b, a, key, cursor, last);
    SameKeysFit(inA, inB, key);
    SameKeysFit(inB, inA, key);
    TakenSplits(b, key, cursor, last);
    RemainingSize(b, key, cursor);
    RemainingSize(b, key, Some(last));
  }

  lemma TakenAgrees<T(!new)>(a: set<T>, b: set<T>, key: T -> Key, cursor: Option<Key>, last: Key)
    requires AgreeBetween(a, b, key, cursor, last)
    ensures forall x | x in Taken(a, key, cursor, last) :: HasKey(Taken(b, key, cursor, last), key, key(x))
  {
    hide Leq;
    forall x | x in Taken(a, key, cursor, last) ensures HasKey(Taken(b, key, cursor, last), key, key(x)) {
      assert HasKey(a, key, key(x));
      var y :| y in b && key(y) == key(x);
      assert y in Taken(b, key, cursor, last);
    }
  }

  // ---- new keys above all old ones ----------------------------------------------------------

  /** The keys stay, and new ones are above them all. */
  ghost predicate ExtendedAbove<T(!new)>(a: set<T>, b: set<T>, key: T -> Key) {
    && (forall x | x in a :: HasKey(b, key, key(x)))
    && (forall y | y in b :: HasKey(a, key, key(y)) || forall x | x in a :: Less(key(x), key(y)))
  }

  ghost predicate GrowsAbove<T(!new)>(tables: seq<set<T>>, key: T -> Key) {
    forall i, j | 0 <= i <= j < |tables| :: ExtendedAbove(tables[i], tables[j], key)
  }

  lemma AboveAgrees<T(!new)>(a: set<T>, b: set<T>, key: T -> Key, cursor: Option<Key>, limit: nat)
    requires Distinct(a, key) && limit >= 1 && HasMore(a, key, cursor, limit) && ExtendedAbove(a, b, key)
    ensures var page := PageRows(a, key, cursor, limit);
            page != [] ==> AgreeBetween(a, b, key, cursor, key(page[|page| - 1]))
  {
    hide Leq;
    var page := PageRows(a, key, cursor, limit);
    var extra := FullPage(a, key, cursor, limit);
    var last := key(page[|page| - 1]);
    forall k | After(cursor, k) && Leq(k, last) ensures HasKey(a, key, k) <==> HasKey(b, key, k) {
      if x :| x in a && key(x) == k { assert HasKey(b, key, key(x)); }
      if y :| y in b && key(y) == k {
        if !HasKey(a, key, key(y)) {
          assert Less(key(extra), key(y)) && Less(last, key(extra));
          KeyLinear(last, key(extra), key(y));
          KeyLinear(k, last, k);
          KeyLinear(last, key(extra), last);
        }
      }
    }
  }

  /** An ascending client of a table that grows at its far end stops exactly if at some page the table then
      fits the pages read so far. */
  lemma {:induction false} WalkStopsExactly<T(!new)>(tables: seq<set<T>>, key: T -> Key, cursor: Option<Key>,
                                                     limit: nat)
    requires AllDistinct(tables, key) && GrowsAbove(tables, key) && limit >= 1
    ensures Walk(tables, key, cursor, limit).1
            <==> exists i | 0 <= i < |tables| :: |Remaining(tables[i], key, cursor)| <= (i + 1) * limit
    decreases |tables|
  {
    hide Leq, Remaining, PageRows, ExtendedAbove, Distinct;
    if tables != [] {
      var page := PageRows(tables[0], key, cursor, limit);
      var next := NextCursor(page, key, cursor);
      if !HasMore(tables[0], key, cursor, limit) {
        assert |Remaining(tables[0], key, cursor)| <= (0 + 1) * limit;
      } else {
        var rest := tables[1..];
        WalkStopsExactly(rest, key, next, limit);
        forall i | 0 <= i < |rest|
          ensures |Remaining(tables[i + 1], key, cursor)| <= (i + 2) * limit
                  <==> |Remaining(rest[i], key, next)| <= (i + 1) * limit
        {
          assert rest[i] == tables[i + 1] && ExtendedAbove(tables[0], tables[i + 1], key);
          AboveAgrees(tables[0], tables[i + 1], key, cursor, limit);
          OnePageLess(tables[0], tables[i + 1], key, cursor, limit);
          assert (i + 2) * limit == (i + 1) * limit + limit;
        }
        ShiftedExists(tables, rest, key, cursor, next, limit);
      }
    }
  }

  /** The first page does not fit, so a page that fits is one of the rest. */
  lemma ShiftedExists<T(!new)>(tables: seq<set<T>>, rest: seq<set<T>>, key: T -> Key, cursor: Option<Key>,
                               next: Option<Key>, limit: nat)
    requires tables != [] && rest == tables[1..] && AllDistinct(tables, key) && AllDistinct(rest, key)
    requires |Remaining(tables[0], key, cursor)| > limit
    requires forall i | 0 <= i < |rest| :: |Remaining(tables[i + 1], key, cursor)| <= (i + 2) * limit
                                          <==> |Remaining(rest[i], key, next)| <= (i + 1) * limit
    ensures (exists i | 0 <= i < |tables| :: |Remaining(tables[i], key, cursor)| <= (i + 1) * limit)
            <==> exists i | 0 <= i < |rest| :: |Remaining(rest[i], key, next)| <= (i + 1) * limit
  {
    hide Remaining, Distinct;
    if i :| 0 <= i < |tables| && |Remaining(tables[i], key, cursor)| <= (i + 1) * limit {
      assert i > 0;
      var j := i - 1;
      assert tables[j + 1] == tables[i];
      assert |Remaining(rest[j], key, next)| <= (j + 1) * limit;
    }
    if j :| 0 <= j < |rest| && |Remaining(rest[j], key, next)| <= (j + 1) * limit {
      assert |Remaining(tables[j + 1], key, cursor)| <= (j + 1 + 1) * limit;
    }
  }

  /** From the first page on: it stops exactly if at some page the whole table fits the pages so far. */
  lemma AscendingStopsExactly<T(!new)>(tables: seq<set<T>>, key: T -> Key, limit: nat)
    requires AllDistinct(tables, key) && GrowsAbove(tables, key) && limit >= 1
    ensures Walk(tables, key, None, limit).1 <==> exists i | 0 <= i < |tables| :: |tables[i]| <= (i + 1) * limit
  {
    hide Leq, Remaining, GrowsAbove, Walk;
    WalkStopsExactly(tables, key, None, limit);
    forall i | 0 <= i < |tables| ensures |Remaining(tables[i], key, None)| == |tables[i]| {
      RemainingSize(tables[i], key, None);
    }
  }

  // ---- new keys below all old ones ----------------------------------------------------------

  /** The keys stay, and new ones are below them all. */
  ghost predicate ExtendedBelow<T(!new)>(a: set<T>, b: set<T>, key: T -> Key) {
    && (forall x | x in a :: HasKey(b, key, key(x)))
    && (forall y | y in b :: HasKey(a, key, key(y)) || forall x | x in a :: Less(key(y), key(x)))
  }

  ghost predicate GrowsBelow<T(!new)>(tables: seq<set<T>>, key: T -> Key) {
    forall i, j | 0 <= i <= j < |tables| :: ExtendedBelow(tables[i], tables[j], key)
  }

  ghost predicate AllAgreeAfter<T(!new)>(tables: seq<set<T>>, key: T -> Key, cursor: Option<Key>) {
    forall i, j | 0 <= i < |tables| && 0 <= j < |tables| :: AgreeAfter(tables[i], tables[j], key, cursor)
  }

  lemma AgreeSize<T(!new)>(a: set<T>, b: set<T>, key: T -> Key, cursor: Option<Key>)
    requires Distinct(a, key) && Distinct(b, key) && AgreeAfter(a, b, key, cursor)
    ensures |Remaining(a, key, cursor)| == |Remaining(b, key, cursor)|
  {
    hide Leq, Remaining;
    RemainingSize(a, key, cursor);
    RemainingSize(b, key, cursor);
    BeyondAgrees(a, b, key, cursor);
    BeyondAgrees(b, a, key, cursor);
    SameKeysFit(Beyond(a, key, cursor), Beyond(b, key, cursor), key);
    SameKeysFit(Beyond(b, key, cursor), Beyond(a, key, cursor), key);
  }

  lemma BeyondAgrees<T(!new)>(a: set<T>, b: set<T>, key: T -> Key, cursor: Option<Key>)
    requires AgreeAfter(a, b, key, cursor)
    ensures forall x | x in Beyond(a, key, cursor) :: HasKey(Beyond(b, key, cursor), key, key(x))
  {
    hide Leq;
    forall x | x in Beyond(a, key, cursor) ensures HasKey(Beyond(b, key, cursor), key, key(x)) {
      assert After(cursor, key(x)) && HasKey(a, key, key(x));
      var y :| y in b && key(y) == key(x);
      assert y in Beyond(b, key, cursor);
    }
  }

  lemma AgreeFurther<T(!new)>(tables: seq<set<T>>, key: T -> Key, cursor: Option<Key>, next: Key)
    requires AllAgreeAfter(tables, key, cursor) && After(cursor, next)
    ensures AllAgreeAfter(tables, key, Some(next))
  {
    hide Leq;
    forall i, j | 0 <= i < |tables| && 0 <= j < |tables| ensures AgreeAfter(tables[i], tables[j], key, Some(next)) {
      assert AgreeAfter(tables[i], tables[j], key, cursor);
      forall k | After(Some(next), k) ensures HasKey(tables[i], key, k) <==> HasKey(tables[j], key, k) {
        if cursor.Some? { LessTransitive(cursor.value, next, k); }
        assert After(cursor, k);
      }
    }
  }

  /** A client whose tables all agree after its cursor stops exactly if its pages have room for what remains. */
  lemma {:induction false} StableWalkStops<T(!new)>(tables: seq<set<T>>, key: T -> Key, cursor: Option<Key>, limit: nat)
    requires tables != [] && AllDistinct(tables, key) && AllAgreeAfter(tables, key, cursor) && limit >= 1
    ensures Walk(tables, key, cursor, limit).1 <==> |Remaining(tables[0], key, cursor)| <= |tables| * limit
    decreases |tables|
  {
    hide Leq, Remaining, PageRows, AgreeAfter, Distinct, AllAgreeAfter;
    var page := PageRows(tables[0], key, cursor, limit);
    var next := NextCursor(page, key, cursor);
    var n := |tables|;
    assert n * limit == limit + (n - 1) * limit;
    if HasMore(tables[0], key, cursor, limit) && n > 1 {
      var rest := tables[1..];
      PageIsTaken(tables[0], key, cursor, limit);
      AgreeFurther(tables, key, cursor, next.value);
      AgreeTail(tables, key, next);
      AgreePair(tables, key, cursor);
      AgreeStretch(tables[0], tables[1], key, cursor, next.value);
      OnePageLess(tables[0], tables[1], key, cursor, limit);
      AgreeSize(tables[0], tables[1], key, cursor);
      StableWalkStops(rest, key, next, limit);
    }
  }

  lemma AgreeTail<T(!new)>(tables: seq<set<T>>, key: T -> Key, cursor: Option<Key>)
    requires tables != [] && AllAgreeAfter(tables, key, cursor)
    ensures AllAgreeAfter(tables[1..], key, cursor)
  {
    hide AgreeAfter;
  }

  lemma AgreePair<T(!new)>(tables: seq<set<T>>, key: T -> Key, cursor: Option<Key>)
    requires |tables| > 1 && AllAgreeAfter(tables, key, cursor)
    ensures AgreeAfter(tables[0], tables[1], key, cursor)
  {
    hide AgreeAfter;
  }

  lemma AgreeStretch<T(!new)>(a: set<T>, b: set<T>, key: T -> Key, cursor: Option<Key>, last: Key)
    requires AgreeAfter(a, b, key, cursor)
    ensures AgreeBetween(a, b, key, cursor, last)
  {
    hide Leq;
  }

  lemma BelowAgrees<T(!new)>(tables: seq<set<T>>, key: T -> Key, x: T)
    requires tables != [] && GrowsBelow(tables, key) && x in tables[0]
    ensures AllAgreeAfter(tables, key, Some(key(x)))
  {
    hide Leq;
    forall i | 0 <= i < |tables| ensures AgreeAfter(tables[0], tables[i], key, Some(key(x))) {
      assert ExtendedBelow(tables[0], tables[i], key);
      forall k | After(Some(key(x)), k) ensures HasKey(tables[0], key, k) <==> HasKey(tables[i], key, k) {
        if z :| z in tables[0] && key(z) == k { assert HasKey(tables[i], key, key(z)); }
        if y :| y in tables[i] && key(y) == k {
          if !HasKey(tables[0], key, key(y)) {
            assert Less(k, key(x)) && Less(key(x), k);
            KeyLinear(k, key(x), k);
          }
        }
      }
    }
    forall i, j | 0 <= i < |tables| && 0 <= j < |tables| ensures AgreeAfter(tables[i], tables[j], key, Some(key(x))) {
      assert AgreeAfter(tables[0], tables[i], key, Some(key(x))) && AgreeAfter(tables[0], tables[j], key, Some(key(x)));
    }
  }

  /** A descending client, which has all new rows behind it, stops exactly if its pages have room for the table
      its first page found. */
  lemma DescendingStopsExactly<T(!new)>(tables: seq<set<T>>, key: T -> Key, limit: nat)
    requires tables != [] && AllDistinct(tables, key) && GrowsBelow(tables, key) && limit >= 1
    ensures Walk(tables, key, None, limit).1 <==> |tables[0]| <= |tables| * limit
  {
    hide Leq, Remaining, PageRows, AgreeAfter, Distinct, AllAgreeAfter, GrowsBelow;
    var n := |tables|;
    var page := PageRows(tables[0], key, None, limit);
    var next := NextCursor(page, key, None);
    RemainingSize(tables[0], key, None);
    assert n * limit == limit + (n - 1) * limit;
    if HasMore(tables[0], key, None, limit) && n > 1 {
      var rest := tables[1..];
      PageIsTaken(tables[0], key, None, limit);
      PageFacts(tables[0], key, None, limit);
      BelowAgrees(tables, key, page[|page| - 1]);
      AgreeTail(tables, key, next);
      AgreePair(tables, key, next);
      AgreeSize(tables[0], tables[1], key, next);
      OwnPageLess(tables[0], key, limit);
      StableWalkStops(rest, key, next, limit);
    }
  }

  lemma OwnPageLess<T(!new)>(rows: set<T>, key: T -> Key, limit: nat)
    requires Distinct(rows, key) && limit >= 1 && HasMore(rows, key, None, limit)
    ensures var next := NextCursor(PageRows(rows, key, None, limit), key, None);
            |Remaining(rows, key, None)| == limit + |Remaining(rows, key, next)|
  {
    hide Leq, Remaining, PageRows, HasMore;
    var page := PageRows(rows, key, None, limit);
    if page != [] { assert AgreeBetween(rows, rows, key, None, key(page[|page| - 1])); }
    OnePageLess(rows, rows, key, None, limit);
  }
}
