/** Ordering rows: SQL's `ORDER BY` over a set of rows and Rust's `sort_by` over a vector.
    A sort key is a list of column values compared one after the other, so one linear order
    serves every query; a descending column is stored negated. */
module Order {
  import opened Text

  datatype Atom = Null | Num(n: int) | Str(s: string)

  type Key = seq<Atom>

  /** A text column that may be NULL. */
  function TextColumn(value: Option<string>): Atom {
    if value.Some? then Str(value.value) else Null
  }

  // ---- the linear order on keys -------------------------------------------------------------

  predicate TextLeq(a: string, b: string) {
    if a == [] then true
    else if b == [] then false
    else if a[0] != b[0] then a[0] < b[0]
    else TextLeq(a[1..], b[1..])
  }

  /** SQLite storage-class order: NULL, then integers, then text. */
  predicate AtomLeq(a: Atom, b: Atom) {
    match (a, b)
    case (Null, _) => true
    case (_, Null) => false
    case (Num(m), Num(n)) => m <= n
    case (Num(_), Str(_)) => true
    case (Str(_), Num(_)) => false
    case (Str(s), Str(t)) => TextLeq(s, t)
  }

  predicate Leq(a: Key, b: Key) {
    if a == [] then true
    else if b == [] then false
    else if a[0] != b[0] then AtomLeq(a[0], b[0])
    else Leq(a[1..], b[1..])
  }

  predicate Less(a: Key, b: Key) {
    a != b && Leq(a, b)
  }

  lemma TextReflexive(a: string)
    ensures TextLeq(a, a)
  {
  }

  lemma {:induction false} TextLinear(a: string, b: string, c: string)
    ensures TextLeq(a, b) || TextLeq(b, a)
    ensures TextLeq(a, b) && TextLeq(b, a) ==> a == b
    ensures TextLeq(a, b) && TextLeq(b, c) ==> TextLeq(a, c)
    ensures TextLeq(a, a)
    decreases |a| + |b| + |c|
  {
    TextReflexive(a);
    if a != [] {
      var b' := if b == [] then [] else b[1..];
      var c' := if c == [] then [] else c[1..];
      TextLinear(a[1..], b', c');
      if b != [] && a[0] == b[0] {
        assert a == [a[0]] + a[1..] && b == [b[0]] + b[1..];
      }
    }
  }

  /** The first difference decides. */
  lemma {:induction false} FirstDifference(a: string, b: string, n: nat)
    requires n < |a| && n < |b| && a[..n] == b[..n] && a[n] < b[n]
    ensures TextLeq(a, b)
  {
    if n > 0 {
      assert a[0] == a[..n][0] && b[0] == b[..n][0];
      assert a[1..][..n - 1] == a[..n][1..] && b[1..][..n - 1] == b[..n][1..];
      FirstDifference(a[1..], b[1..], n - 1);
    }
  }

  lemma AtomLinear(a: Atom, b: Atom, c: Atom)
    ensures AtomLeq(a, b) || AtomLeq(b, a)
    ensures AtomLeq(a, b) && AtomLeq(b, a) ==> a == b
    ensures AtomLeq(a, b) && AtomLeq(b, c) ==> AtomLeq(a, c)
    ensures AtomLeq(a, a)
  {
    if a.Str? {
      TextLinear(a.s, if b.Str? then b.s else "", if c.Str? then c.s else "");
    }
  }

  lemma {:induction false} KeyReflexive(a: Key)
    ensures Leq(a, a)
  {
    if a != [] { KeyReflexive(a[1..]); }
  }

  /** The key order is linear: total, antisymmetric, transitive. */
  lemma {:induction false} KeyLinear(a: Key, b: Key, c: Key)
    ensures Leq(a, b) || Leq(b, a)
    ensures Leq(a, b) && Leq(b, a) ==> a == b
    ensures Leq(a, b) && Leq(b, c) ==> Leq(a, c)
    ensures Leq(a, a)
    decreases |a| + |b| + |c|
  {
    KeyReflexive(a);
    if a != [] {
      KeyLinear(a[1..], if b == [] then [] else b[1..], if c == [] then [] else c[1..]);
      AtomLinear(a[0], if b == [] then a[0] else b[0], if c == [] then a[0] else c[0]);
      if b != [] {
        AtomLinear(b[0], a[0], a[0]);
        if c != [] { AtomLinear(c[0], b[0], a[0]); }
        if a[0] == b[0] {
          assert a == [a[0]] + a[1..] && b == [b[0]] + b[1..];
        }
      }
    }
  }

  // ---- ORDER BY over a set of rows ----------------------------------------------------------

  ghost predicate StrictlySorted<T>(rows: seq<T>, key: T -> Key) {
    forall i, j | 0 <= i < j < |rows| :: Less(key(rows[i]), key(rows[j]))
  }

  ghost predicate Sorted<T>(rows: seq<T>, key: T -> Key) {
    forall i, j | 0 <= i < j < |rows| :: Leq(key(rows[i]), key(rows[j]))
  }

  /** No two rows of the set share a sort key. */
  ghost predicate Distinct<T>(rows: set<T>, key: T -> Key) {
    forall x, y | x in rows && y in rows && key(x) == key(y) :: x == y
  }

  ghost predicate IsSelection<T>(result: seq<T>, rows: set<T>, key: T -> Key) {
    && (forall x | x in result :: x in rows)
    && (forall x | x in rows :: x in result)
    && StrictlySorted(result, key)
  }

  ghost predicate IsLeast<T>(x: T, rows: set<T>, key: T -> Key) {
    x in rows && forall y | y in rows :: Leq(key(x), key(y))
  }

  lemma {:induction false} LeastExists<T>(rows: set<T>, key: T -> Key)
    requires rows != {}
    ensures exists x | x in rows :: IsLeast(x, rows, key)
  {
    var x :| x in rows;
    KeyLinear(key(x), key(x), key(x));
    var rest := rows - {x};
    if rest == {} {
      assert rows == {x};
      assert IsLeast(x, rows, key);
    } else {
      LeastExists(rest, key);
      var m :| m in rest && IsLeast(m, rest, key);
      KeyLinear(key(m), key(x), key(x));
      var least := if Leq(key(x), key(m)) then x else m;
      forall y | y in rows ensures Leq(key(least), key(y)) {
        if y != x { KeyLinear(key(x), key(m), key(y)); }
      }
      assert IsLeast(least, rows, key);
    }
  }

  /** The rows of a set in `ORDER BY key` order. */
  ghost function Select<T>(rows: set<T>, key: T -> Key): (r: seq<T>)
    requires Distinct(rows, key)
    ensures IsSelection(r, rows, key)
    decreases |rows|
  {
    if rows == {} then []
    else
      LeastExists(rows, key);
      var least :| least in rows && IsLeast(least, rows, key);
      [least] + Select(rows - {least}, key)
  }

  /** A selection is determined by the rows and the key alone. */
  lemma {:induction false} SelectionUnique<T>(a: seq<T>, b: seq<T>, rows: set<T>, key: T -> Key)
    requires IsSelection(a, rows, key) && IsSelection(b, rows, key)
    ensures a == b
    decreases |a|
  {
    EmptySelection(a, rows, key);
    EmptySelection(b, rows, key);
    if a != [] {
      HeadIsLeast(a, rows, key, b[0]);
      HeadIsLeast(b, rows, key, a[0]);
      KeyLinear(key(a[0]), key(b[0]), key(a[0]));
      KeyDetermines(a, rows, key, a[0], b[0]);
      TailSelection(a, rows, key);
      TailSelection(b, rows, key);
      SelectionUnique(a[1..], b[1..], rows - {a[0]}, key);
      assert a == [a[0]] + a[1..] && b == [b[0]] + b[1..];
    }
  }

  lemma EmptySelection<T>(a: seq<T>, rows: set<T>, key: T -> Key)
    requires IsSelection(a, rows, key)
    ensures a == [] <==> rows == {}
  {
    if a != [] { assert a[0] in rows; }
  }

  lemma KeyDetermines<T>(a: seq<T>, rows: set<T>, key: T -> Key, x: T, y: T)
    requires IsSelection(a, rows, key) && x in rows && y in rows && key(x) == key(y)
    ensures x == y
  {
    assert x in a && y in a;
    var i :| 0 <= i < |a| && a[i] == x;
    var j :| 0 <= j < |a| && a[j] == y;
  }

  lemma HeadIsLeast<T>(a: seq<T>, rows: set<T>, key: T -> Key, y: T)
    requires IsSelection(a, rows, key) && a != [] && y in rows
    ensures Leq(key(a[0]), key(y))
  {
    KeyLinear(key(y), key(y), key(y));
    var i :| 0 <= i < |a| && a[i] == y;
  }

  lemma TailSelection<T>(a: seq<T>, rows: set<T>, key: T -> Key)
    requires IsSelection(a, rows, key) && a != []
    ensures IsSelection(a[1..], rows - {a[0]}, key)
  {
    forall x | x in a[1..] ensures x in rows - {a[0]} {
      var i :| 0 <= i < |a[1..]| && a[1..][i] == x;
      assert Less(key(a[0]), key(a[i + 1]));
    }
    forall x | x in rows - {a[0]} ensures x in a[1..] {
      var i :| 0 <= i < |a| && a[i] == x;
      assert a[1..][i - 1] == x;
    }
  }

  /** Running the query: pick the least remaining row until none is left. */
  method OrderRows<T(==)>(rows: set<T>, key: T -> Key) returns (r: seq<T>)
    requires Distinct(rows, key)
    ensures r == Select(rows, key)
  {
    r := [];
    var rest := rows;
    while rest != {}
      invariant rest <= rows
      invariant forall x :: x in r <==> x in rows - rest
      invariant StrictlySorted(r, key)
      invariant forall x, y | x in r && y in rest :: Less(key(x), key(y))
      decreases |rest|
    {
      var least := Least(rest, key);
      r := r + [least];
      rest := rest - {least};
    }
    SelectionUnique(r, Select(rows, key), rows, key);
  }

  method Least<T(==)>(rows: set<T>, key: T -> Key) returns (least: T)
    requires rows != {}
    ensures least in rows && forall y | y in rows :: Leq(key(least), key(y))
  {
    least :| least in rows;
    var rest := rows - {least};
    KeyLinear(key(least), key(least), key(least));
    while rest != {}
      invariant rest <= rows && least in rows - rest
      invariant forall y | y in rows - rest :: Leq(key(least), key(y))
      decreases |rest|
    {
      var x :| x in rest;
      KeyLinear(key(least), key(x), key(x));
      KeyLinear(key(x), key(x), key(x));
      if !Leq(key(least), key(x)) {
        forall y | y in rows - rest ensures Leq(key(x), key(y)) {
          KeyLinear(key(x), key(least), key(y));
        }
        least := x;
      }
      rest := rest - {x};
    }
  }

  /** A list of all members, none twice, is as long as there are members. */
  lemma {:induction false} RowsCounted<T>(a: seq<T>, s: set<T>)
    requires forall i, j | 0 <= i < j < |a| :: a[i] != a[j]
    requires forall x :: x in a <==> x in s
    ensures |a| == |s|
    decreases |a|
  {
    if a == [] {
      assert s == {};
    } else {
      var front, last := a[..|a| - 1], a[|a| - 1];
      assert a == front + [last];
      assert last in s;
      forall x ensures x in front <==> x in s - {last} {
        if x in front { assert x in a; }
      }
      RowsCounted(front, s - {last});
    }
  }

  // ---- sort_by over a vector ----------------------------------------------------------------

  function Insert<T>(x: T, rows: seq<T>, key: T -> Key): (r: seq<T>)
    requires Sorted(rows, key)
    ensures multiset(r) == multiset(rows) + multiset{x}
    ensures Sorted(r, key)
  {
    if rows == [] then [x]
    else if Less(key(rows[0]), key(x)) then
      var tail := Insert(x, rows[1..], key);
      assert rows == [rows[0]] + rows[1..];
      InsertFacts(x, rows, tail, key);
      [rows[0]] + tail
    else
      InsertFirst(x, rows, key);
      [x] + rows
  }

  lemma InsertFacts<T>(x: T, rows: seq<T>, tail: seq<T>, key: T -> Key)
    requires rows != [] && Sorted(rows, key) && Sorted(tail, key)
    requires multiset(tail) == multiset(rows[1..]) + multiset{x}
    requires Leq(key(rows[0]), key(x))
    ensures Sorted([rows[0]] + tail, key)
  {
    forall j | 0 <= j < |tail| ensures Leq(key(rows[0]), key(tail[j])) {
      assert tail[j] in multiset(tail);
      if tail[j] != x {
        assert tail[j] in multiset(rows[1..]);
        assert tail[j] in rows[1..];
        var i :| 0 <= i < |rows[1..]| && rows[1..][i] == tail[j];
        assert Leq(key(rows[0]), key(rows[i + 1]));
      }
    }
  }

  lemma InsertFirst<T>(x: T, rows: seq<T>, key: T -> Key)
    requires rows != [] && Sorted(rows, key)
    requires !Less(key(rows[0]), key(x))
    ensures Sorted([x] + rows, key)
  {
    KeyLinear(key(rows[0]), key(x), key(x));
    KeyLinear(key(x), key(x), key(x));
    forall j | 0 <= j < |rows| ensures Leq(key(x), key(rows[j])) {
      KeyLinear(key(x), key(rows[0]), key(rows[j]));
    }
  }

  function SortBy<T>(rows: seq<T>, key: T -> Key): (r: seq<T>)
    ensures multiset(r) == multiset(rows)
    ensures Sorted(r, key)
  {
    if rows == [] then []
    else
      assert rows == [rows[0]] + rows[1..];
      Insert(rows[0], SortBy(rows[1..], key), key)
  }

  lemma SortedHeadLeast<T>(a: seq<T>, key: T -> Key, y: T)
    requires Sorted(a, key) && y in a
    ensures Leq(key(a[0]), key(y))
  {
    KeyLinear(key(y), key(y), key(y));
    var i :| 0 <= i < |a| && a[i] == y;
  }

  lemma SameMembers<T>(a: seq<T>, b: seq<T>, x: T)
    requires multiset(a) == multiset(b) && x in a
    ensures x in b
  {
    assert x in multiset(a);
  }

  lemma TailMultiset<T>(a: seq<T>)
    requires a != []
    ensures multiset(a[1..]) == multiset(a) - multiset{a[0]}
  {
    assert a == [a[0]] + a[1..];
  }

  /** Rows of the list with equal keys are equal. */
  ghost predicate TellsApart<T>(a: seq<T>, key: T -> Key) {
    forall x, y | x in a && y in a && key(x) == key(y) :: x == y
  }

  lemma TailTellsApart<T>(a: seq<T>, key: T -> Key)
    requires TellsApart(a, key) && a != []
    ensures TellsApart(a[1..], key)
  {
    assert forall x | x in a[1..] :: x in a;
  }

  lemma HeadsAgree<T>(a: seq<T>, b: seq<T>, key: T -> Key)
    requires a != [] && b != [] && multiset(a) == multiset(b)
    requires Sorted(a, key) && Sorted(b, key)
    requires TellsApart(a, key)
    ensures a[0] == b[0]
  {
    SameMembers(a, b, a[0]);
    SameMembers(b, a, b[0]);
    SortedHeadLeast(a, key, b[0]);
    SortedHeadLeast(b, key, a[0]);
    KeyLinear(key(a[0]), key(b[0]), key(a[0]));
  }

  /** Two sorted vectors with the same elements are the same vector, provided equal sort keys
      force equal elements. */
  lemma {:induction false} SortedUnique<T>(a: seq<T>, b: seq<T>, key: T -> Key)
    requires multiset(a) == multiset(b)
    requires Sorted(a, key) && Sorted(b, key)
    requires TellsApart(a, key)
    ensures a == b
    decreases |a|
  {
    hide Leq, Sorted, TellsApart;
    assert |a| == |multiset(a)| && |b| == |multiset(b)|;
    if a != [] {
      HeadsAgree(a, b, key);
      TailMultiset(a);
      TailMultiset(b);
      var s, t := a[1..], b[1..];
      assert multiset(s) == multiset(t);
      TailTellsApart(a, key);
      TailSorted(a, key);
      TailSorted(b, key);
      SortedUnique(s, t, key);
      assert a == [a[0]] + s && b == [b[0]] + t;
    }
  }

  lemma TailSorted<T>(a: seq<T>, key: T -> Key)
    requires Sorted(a, key) && a != []
    ensures Sorted(a[1..], key)
  {
    hide Leq;
  }

  lemma SortByMembers<T>(rows: seq<T>, key: T -> Key, x: T)
    ensures x in SortBy(rows, key) <==> x in rows
  {
    assert x in SortBy(rows, key) <==> x in multiset(SortBy(rows, key));
    assert x in rows <==> x in multiset(rows);
  }
}
