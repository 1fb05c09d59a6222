/** Keyset paging over any table ordered by a key: the page after a cursor, the two ways the readers
    learn whether there is more, and what a client sees that follows the cursors to the end. */
module Paging {
  import opened Text
  import opened Order

  /** The rows a cursor leaves to be read; a descending order has its key negated. */
  function Beyond<T>(rows: set<T>, key: T -> Key, cursor: Option<Key>): set<T> {
    set x | x in rows && (cursor.Some? ==> Less(cursor.value, key(x)))
  }

  function Limit<T>(rows: seq<T>, limit: nat): seq<T> {
    if |rows| <= limit then rows else rows[..limit]
  }

  ghost function Remaining<T>(rows: set<T>, key: T -> Key, cursor: Option<Key>): (r: seq<T>)
    requires Distinct(rows, key)
    ensures IsSelection(r, Beyond(rows, key, cursor), key)
  {
    assert Distinct(Beyond(rows, key, cursor), key);
    Select(Beyond(rows, key, cursor), key)
  }

  ghost function PageRows<T>(rows: set<T>, key: T -> Key, cursor: Option<Key>, limit: nat): seq<T>
    requires Distinct(rows, key)
  {
    Limit(Remaining(rows, key, cursor), limit)
  }

  ghost predicate HasMore<T>(rows: set<T>, key: T -> Key, cursor: Option<Key>, limit: nat)
    requires Distinct(rows, key)
  {
    |Remaining(rows, key, cursor)| > limit
  }

  /** Fetch one row more than asked for, and drop it again. */
  method ReadPage<T(==)>(rows: set<T>, key: T -> Key, cursor: Option<Key>, limit: nat)
    returns (page: seq<T>, hasMore: bool)
    requires Distinct(rows, key)
    ensures page == PageRows(rows, key, cursor, limit) && hasMore == HasMore(rows, key, cursor, limit)
  {
    assert Distinct(Beyond(rows, key, cursor), key);
    var sorted := OrderRows(Beyond(rows, key, cursor), key);
    var fetched := Limit(sorted, limit + 1);
    hasMore := |fetched| > limit;
    page := Limit(fetched, limit);
    if |sorted| > limit { assert sorted[..|fetched|][..limit] == sorted[..limit]; }
  }

  /** Fetch exactly what was asked for, then ask whether any row lies beyond the last one. It reports the
      same as fetching one row more. */
  method ReadProbedPage<T(==)>(rows: set<T>, key: T -> Key, cursor: Option<Key>, limit: nat)
    returns (page: seq<T>, hasMore: bool)
    requires Distinct(rows, key) && limit >= 1
    ensures page == PageRows(rows, key, cursor, limit) && hasMore == HasMore(rows, key, cursor, limit)
  {
    assert Distinct(Beyond(rows, key, cursor), key);
    var sorted := OrderRows(Beyond(rows, key, cursor), key);
    page := Limit(sorted, limit);
    ProbeAgrees(rows, key, cursor, limit);
    if page == [] {
      hasMore := false;
    } else {
      hasMore := exists x | x in rows :: Less(key(page[|page| - 1]), key(x));
    }
  }

  /** A row lies beyond the last of a page exactly when the limit cut the page off. */
  lemma ProbeAgrees<T>(rows: set<T>, key: T -> Key, cursor: Option<Key>, limit: nat)
    requires Distinct(rows, key) && limit >= 1
    ensures var page := PageRows(rows, key, cursor, limit);
            HasMore(rows, key, cursor, limit)
            <==> page != [] && exists x | x in rows :: Less(key(page[|page| - 1]), key(x))
  {
    var all := Remaining(rows, key, cursor);
    var page := PageRows(rows, key, cursor, limit);
    if |all| > limit {
      assert all[limit] in all && Less(key(all[limit - 1]), key(all[limit]));
    }
    if page != [] && exists x | x in rows :: Less(key(page[|page| - 1]), key(x)) {
      var x :| x in rows && Less(key(page[|page| - 1]), key(x));
      BeyondPage(rows, key, cursor, limit, x);
    }
  }

  lemma LessTransitive(a: Key, b: Key, c: Key)
    requires Less(a, b) && Leq(b, c)
    ensures Less(a, c)
  {
    KeyLinear(a, b, c);
  }

  /** A row beyond the last of a page is one the page has no room for. */
  lemma BeyondPage<T>(rows: set<T>, key: T -> Key, cursor: Option<Key>, limit: nat, x: T)
    requires Distinct(rows, key) && x in rows && PageRows(rows, key, cursor, limit) != []
    requires Less(key(PageRows(rows, key, cursor, limit)[|PageRows(rows, key, cursor, limit)| - 1]), key(x))
    ensures HasMore(rows, key, cursor, limit)
  {
    var all := Remaining(rows, key, cursor);
    var page := PageRows(rows, key, cursor, limit);
    var last := page[|page| - 1];
    assert last in all;
    if cursor.Some? { LessTransitive(cursor.value, key(last), key(x)); }
    assert x in all;
    var i :| 0 <= i < |all| && all[i] == x;
    if i < |page| { KeyLinear(key(last), key(x), key(x)); assert i == |page| - 1 || Less(key(all[i]), key(last)); }
  }

  // ---- following the cursors ----------------------------------------------------------------

  /** The cursor a client sends next: the key of the last row it got. */
  function NextCursor<T>(page: seq<T>, key: T -> Key, cursor: Option<Key>): Option<Key> {
    if page == [] then cursor else Some(key(page[|page| - 1]))
  }

  /** No row of any of the tables shares its key with another row of the same table. */
  ghost predicate AllDistinct<T(!new)>(tables: seq<set<T>>, key: T -> Key) {
    forall i | 0 <= i < |tables| :: Distinct(tables[i], key)
  }

  /** What a client has when it stops at the first page without more, or when its pages run out: the rows
      it got, and whether it stopped. Page i is read when the table is tables[i]. */
  ghost function Walk<T(!new)>(tables: seq<set<T>>, key: T -> Key, cursor: Option<Key>, limit: nat): (seq<T>, bool)
    requires AllDistinct(tables, key)
  {
    if tables == [] then ([], false)
    else
      var page := PageRows(tables[0], key, cursor, limit);
      if !HasMore(tables[0], key, cursor, limit) then (page, true)
      else
        var (rest, stopped) := Walk(tables[1..], key, NextCursor(page, key, cursor), limit);
        (page + rest, stopped)
  }

  lemma PageFacts<T>(rows: set<T>, key: T -> Key, cursor: Option<Key>, limit: nat)
    requires Distinct(rows, key)
    ensures var page := PageRows(rows, key, cursor, limit);
            && StrictlySorted(page, key)
            && (forall i | 0 <= i < |page| :: page[i] in rows && (cursor.Some? ==> Less(cursor.value, key(page[i]))))
  {
    var all := Remaining(rows, key, cursor);
    forall i | 0 <= i < |PageRows(rows, key, cursor, limit)|
      ensures PageRows(rows, key, cursor, limit)[i] in Beyond(rows, key, cursor)
    {
      assert all[i] in all;
    }
  }

  /** A row beyond the cursor is on the page, or beyond the next cursor while there is more. */
  lemma PageCovers<T>(rows: set<T>, key: T -> Key, cursor: Option<Key>, limit: nat, x: T)
    requires Distinct(rows, key) && limit >= 1 && x in Beyond(rows, key, cursor)
    ensures var page := PageRows(rows, key, cursor, limit);
            || x in page
            || (&& HasMore(rows, key, cursor, limit) && page != [] && NextCursor(page, key, cursor).Some?
                && Less(NextCursor(page, key, cursor).value, key(x)))
  {
    var all := Remaining(rows, key, cursor);
    var i :| 0 <= i < |all| && all[i] == x;
    var page := PageRows(rows, key, cursor, limit);
    if i < |page| { assert page[i] == x; }
  }

  /** No key is read twice, whatever happens to the table between pages: the keys of the whole walk
      strictly ascend. */
  lemma {:induction false} WalkAscends<T(!new)>(tables: seq<set<T>>, key: T -> Key, cursor: Option<Key>, limit: nat)
    requires AllDistinct(tables, key)
    ensures var walk := Walk(tables, key, cursor, limit).0;
            && StrictlySorted(walk, key)
            && (cursor.Some? ==> forall i | 0 <= i < |walk| :: Less(cursor.value, key(walk[i])))
  {
    if tables != [] {
      var page := PageRows(tables[0], key, cursor, limit);
      var next := NextCursor(page, key, cursor);
      PageFacts(tables[0], key, cursor, limit);
      if HasMore(tables[0], key, cursor, limit) {
        WalkAscends(tables[1..], key, next, limit);
        JoinAscends(page, Walk(tables[1..], key, next, limit).0, key, cursor);
      }
    }
  }

  lemma JoinAscends<T>(page: seq<T>, rest: seq<T>, key: T -> Key, cursor: Option<Key>)
    requires StrictlySorted(page, key) && StrictlySorted(rest, key)
    requires cursor.Some? ==> forall i | 0 <= i < |page| :: Less(cursor.value, key(page[i]))
    requires NextCursor(page, key, cursor).Some? ==>
               forall i | 0 <= i < |rest| :: Less(NextCursor(page, key, cursor).value, key(rest[i]))
    ensures StrictlySorted(page + rest, key)
    ensures cursor.Some? ==> forall i | 0 <= i < |page + rest| :: Less(cursor.value, key((page + rest)[i]))
  {
    if page == [] {
      assert page + rest == rest;
    } else {
      var last := key(page[|page| - 1]);
      forall i, j | 0 <= i < |page| && 0 <= j < |rest| ensures Less(key(page[i]), key(rest[j])) {
        KeyLinear(key(page[i]), last, key(rest[j]));
      }
      if cursor.Some? {
        forall j | 0 <= j < |rest| ensures Less(cursor.value, key(rest[j])) {
          LessTransitive(cursor.value, last, key(rest[j]));
        }
      }
    }
  }

  ghost predicate HasKey<T(!new)>(rows: set<T>, key: T -> Key, k: Key) {
    exists x | x in rows :: key(x) == k
  }

  ghost predicate Reads<T>(walk: seq<T>, key: T -> Key, k: Key) {
    exists i | 0 <= i < |walk| :: key(walk[i]) == k
  }

  /** A walk that stopped has read every key that was in the table all along, whatever was inserted,
      updated or deleted around it between pages. */
  lemma {:induction false} WalkCompletes<T(!new)>(tables: seq<set<T>>, key: T -> Key, cursor: Option<Key>, limit: nat,
                                                  k: Key)
    requires AllDistinct(tables, key) && limit >= 1 && Walk(tables, key, cursor, limit).1
    requires cursor.Some? ==> Less(cursor.value, k)
    requires forall i | 0 <= i < |tables| :: HasKey(tables[i], key, k)
    ensures Reads(Walk(tables, key, cursor, limit).0, key, k)
  {
    var x :| x in tables[0] && key(x) == k;
    var page := PageRows(tables[0], key, cursor, limit);
    var next := NextCursor(page, key, cursor);
    PageCovers(tables[0], key, cursor, limit, x);
    var walk := Walk(tables, key, cursor, limit).0;
    if x in page {
      var i :| 0 <= i < |page| && page[i] == x;
      assert walk[i] == x;
    } else {
      WalkCompletes(tables[1..], key, next, limit, k);
      var rest := Walk(tables[1..], key, next, limit).0;
      var i :| 0 <= i < |rest| && key(rest[i]) == k;
      assert walk[|page| + i] == rest[i];
    }
  }

  // ---- when a walk stops --------------------------------------------------------------------

  /** A walk out of pages got a full page each time, and there is a row beyond all it got. */
  lemma {:induction false} OpenWalk<T(!new)>(tables: seq<set<T>>, key: T -> Key, cursor: Option<Key>, limit: nat)
    returns (extra: T)
    requires AllDistinct(tables, key) && limit >= 1 && tables != [] && !Walk(tables, key, cursor, limit).1
    ensures var walk := Walk(tables, key, cursor, limit).0;
            |walk| == |tables| * limit && extra in tables[|tables| - 1] && AllBelow(walk, key, key(extra))
  {
    hide PageRows, HasMore, Leq, Remaining, AllBelow;
    var page := PageRows(tables[0], key, cursor, limit);
    var next := NextCursor(page, key, cursor);
    if |tables| == 1 {
      extra := FullPage(tables[0], key, cursor, limit);
      assert Walk(tables[1..], key, next, limit).0 == [];
      assert page + [] == page;
    } else {
      extra := OpenWalk(tables[1..], key, next, limit);
      WalkAscends(tables[1..], key, next, limit);
      var rest := Walk(tables[1..], key, next, limit).0;
      FullPages(|tables|, limit);
      var first := FullPage(tables[0], key, cursor, limit);
      BelowAll(page, rest, key, key(extra));
      assert Walk(tables, key, cursor, limit).0 == page + rest;
    }
  }

  predicate AllBelow<T>(rows: seq<T>, key: T -> Key, k: Key) {
    forall i | 0 <= i < |rows| :: Less(key(rows[i]), k)
  }

  /** A page with more behind it is full, and the row after it is beyond all of it. */
  lemma FullPage<T>(rows: set<T>, key: T -> Key, cursor: Option<Key>, limit: nat) returns (extra: T)
    requires Distinct(rows, key) && limit >= 1 && HasMore(rows, key, cursor, limit)
    ensures extra in rows && |PageRows(rows, key, cursor, limit)| == limit
    ensures AllBelow(PageRows(rows, key, cursor, limit), key, key(extra))
            && StrictlySorted(PageRows(rows, key, cursor, limit), key)
  {
    PageFacts(rows, key, cursor, limit);
    var all := Remaining(rows, key, cursor);
    extra := all[limit];
    assert extra in all;
  }

  /** What is below the rest is below the page before it. */
  lemma BelowAll<T>(page: seq<T>, rest: seq<T>, key: T -> Key, k: Key)
    requires page != [] && rest != [] && StrictlySorted(page, key) && AllBelow(rest, key, k)
    requires forall i | 0 <= i < |rest| :: Less(key(page[|page| - 1]), key(rest[i]))
    ensures AllBelow(page + rest, key, k)
  {
    var last := key(page[|page| - 1]);
    KeyLinear(last, key(rest[0]), k);
    forall i | 0 <= i < |page| ensures Less(key(page[i]), k) { KeyLinear(key(page[i]), last, k); }
  }

  lemma FullPages(n: nat, limit: nat)
    requires n >= 2 && limit >= 1
    ensures (n - 1) * limit + limit == n * limit && (n - 1) * limit > 0
  {
  }

  /** Strictly ascending keys drawn from a finite set are no more than it has. */
  lemma {:induction false} AscendingFits<T>(rows: seq<T>, key: T -> Key, keys: set<Key>)
    requires StrictlySorted(rows, key) && forall i | 0 <= i < |rows| :: key(rows[i]) in keys
    ensures |rows| <= |keys|
    decreases |rows|
  {
    if rows != [] {
      var front, last := rows[..|rows| - 1], rows[|rows| - 1];
      assert key(last) in keys;
      forall i | 0 <= i < |front| ensures key(front[i]) in keys - {key(last)} {
        assert Less(key(rows[i]), key(last));
      }
      AscendingFits(front, key, keys - {key(last)});
    }
  }

  /** A walk stops by itself once its pages had room for every key there ever was: always on a table that does
      not change, and on a growing one unless insertions outrun the reader. */
  lemma WalkStops<T(!new)>(tables: seq<set<T>>, key: T -> Key, limit: nat, keys: set<Key>)
    requires AllDistinct(tables, key) && limit >= 1 && tables != []
    requires forall i | 0 <= i < |tables| :: forall x | x in tables[i] :: key(x) in keys
    requires |tables| * limit >= |keys|
    ensures Walk(tables, key, None, limit).1
  {
    if !Walk(tables, key, None, limit).1 {
      var extra := OpenWalk(tables, key, None, limit);
      WalkAscends(tables, key, None, limit);
      var walk := Walk(tables, key, None, limit).0;
      forall i | 0 <= i < |walk| ensures key(walk[i]) in keys { WalkMember(tables, key, None, limit, walk[i]); }
      AscendingFits(walk + [extra], key, keys);
      assert false;
    }
  }

  ghost predicate InSome<T(!new)>(tables: seq<set<T>>, x: T) {
    exists i | 0 <= i < |tables| :: x in tables[i]
  }

  /** Every row got was in the table of some page. */
  lemma {:induction false} WalkMember<T(!new)>(tables: seq<set<T>>, key: T -> Key, cursor: Option<Key>, limit: nat,
                                               x: T)
    requires AllDistinct(tables, key) && x in Walk(tables, key, cursor, limit).0
    ensures InSome(tables, x)
  {
    var page := PageRows(tables[0], key, cursor, limit);
    var next := NextCursor(page, key, cursor);
    if x in page {
      PageFacts(tables[0], key, cursor, limit);
      var j :| 0 <= j < |page| && page[j] == x;
      assert page[j] in tables[0];
    } else {
      WalkMember(tables[1..], key, next, limit, x);
      var i :| 0 <= i < |tables[1..]| && x in tables[1..][i];
      assert x in tables[i + 1];
    }
  }

  /** On a table that does not change, for any page size and any order: the walk stops within as many pages as
      it takes to hold the table, and what it got is the whole table in order. */
  lemma FixedTableWalk<T(!new)>(rows: set<T>, key: T -> Key, limit: nat, n: nat)
    requires Distinct(rows, key) && limit >= 1 && n >= 1 && n * limit >= |rows|
    ensures AllDistinct(Unchanged(rows, n), key)
    ensures Walk(Unchanged(rows, n), key, None, limit) == (Select(rows, key), true)
  {
    var tables := Unchanged(rows, n);
    WalkStops(tables, key, limit, KeysOf(rows, key));
    WalkAscends(tables, key, None, limit);
    var walk := Walk(tables, key, None, limit).0;
    forall x | x in walk ensures x in rows { WalkMember(tables, key, None, limit, x); }
    forall x | x in rows ensures x in walk {
      forall i | 0 <= i < |tables| ensures HasKey(tables[i], key, key(x)) { assert x in tables[i]; }
      WalkCompletes(tables, key, None, limit, key(x));
      var i :| 0 <= i < |walk| && key(walk[i]) == key(x);
      assert walk[i] in walk;
    }
    SelectionUnique(walk, Select(rows, key), rows, key);
  }

  function Unchanged<T>(rows: set<T>, n: nat): seq<set<T>> {
    seq(n, i => rows)
  }

  /** The keys of a set of rows, no more than there are rows. */
  ghost function KeysOf<T(!new)>(rows: set<T>, key: T -> Key): (keys: set<Key>)
    ensures forall x | x in rows :: key(x) in keys
    ensures forall k | k in keys :: HasKey(rows, key, k)
    ensures |keys| <= |rows|
    decreases |rows|
  {
    if rows == {} then {} else var x :| x in rows; KeysOf(rows - {x}, key) + {key(x)}
  }

  // ---- a table that does not change ---------------------------------------------------------

  /** Reading on from the end of a page reads what remained after it. */
  lemma RestOfPage<T>(rows: set<T>, key: T -> Key, cursor: Option<Key>, limit: nat)
    requires Distinct(rows, key) && limit >= 1 && PageRows(rows, key, cursor, limit) != []
    ensures var all := Remaining(rows, key, cursor);
            var page := PageRows(rows, key, cursor, limit);
            Remaining(rows, key, NextCursor(page, key, cursor)) == all[|page|..]
  {
    var all := Remaining(rows, key, cursor);
    var page := PageRows(rows, key, cursor, limit);
    var n := |page|;
    var next := NextCursor(page, key, cursor);
    assert next == Some(key(all[n - 1]));
    hide Remaining, PageRows, Beyond;
    forall x | x in all[n..] ensures x in Beyond(rows, key, next) { RestIsBeyond(rows, key, cursor, n, x); }
    forall x | x in Beyond(rows, key, next) ensures x in all[n..] { BeyondIsRest(rows, key, cursor, n, x); }
    SelectionUnique(all[n..], Remaining(rows, key, next), Beyond(rows, key, next), key);
  }

  lemma RestIsBeyond<T>(rows: set<T>, key: T -> Key, cursor: Option<Key>, n: nat, x: T)
    requires Distinct(rows, key) && 0 < n <= |Remaining(rows, key, cursor)| && x in Remaining(rows, key, cursor)[n..]
    ensures x in Beyond(rows, key, Some(key(Remaining(rows, key, cursor)[n - 1])))
  {
    var all := Remaining(rows, key, cursor);
    var i :| 0 <= i < |all[n..]| && all[n..][i] == x;
    assert all[n + i] == x && x in all;
  }

  lemma BeyondIsRest<T>(rows: set<T>, key: T -> Key, cursor: Option<Key>, n: nat, x: T)
    requires Distinct(rows, key) && 0 < n <= |Remaining(rows, key, cursor)|
    requires x in Beyond(rows, key, Some(key(Remaining(rows, key, cursor)[n - 1])))
    ensures x in Remaining(rows, key, cursor)[n..]
  {
    hide Remaining, Leq;
    var all := Remaining(rows, key, cursor);
    assert all[n - 1] in all;
    if cursor.Some? { LessTransitive(cursor.value, key(all[n - 1]), key(x)); }
    assert x in all;
    var i :| 0 <= i < |all| && all[i] == x;
    if i < n {
      assert i == n - 1 || Less(key(all[i]), key(all[n - 1]));
      KeyLinear(key(all[i]), key(all[n - 1]), key(all[i]));
    }
    assert all[n..][i - n] == x;
  }
}
