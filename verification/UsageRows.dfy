/** Usage rows and the order they are reported in. */
module UsageRows {

  datatype Row =
    | Day(date: int, requestCount: int, avgResponseTime: real, errorCount: int)
    | Client(clientId: string, requestCount: int, avgResponseTime: real, errorCount: int, lastAccess: int)

  /** A row of the daily report. */
  type DayRow = r: Row | r.Day? witness Day(0, 0, 0.0, 0)

  function DateOf(r: Row): int {
    if r.Day? then r.date else 0
  }

  /** The comparator of both reports: later dates first, then larger counts. */
  predicate Before(a: Row, b: Row) {
    DateOf(a) > DateOf(b) || (DateOf(a) == DateOf(b) && a.requestCount >= b.requestCount)
  }

  /** `r` goes behind everything it does not have to precede. */
  function Insert(r: Row, sorted: seq<Row>): seq<Row> {
    if sorted == [] || Before(sorted[|sorted| - 1], r) then sorted + [r]
    else Insert(r, sorted[..|sorted| - 1]) + [sorted[|sorted| - 1]]
  }

  /** Array.prototype.sort with that comparator, which is stable. */
  function SortRows(rows: seq<Row>): seq<Row> {
    if rows == [] then [] else Insert(rows[|rows| - 1], SortRows(rows[..|rows| - 1]))
  }

  ghost predicate Ordered(rows: seq<Row>) {
    forall i, j | 0 <= i < j < |rows| :: Before(rows[i], rows[j])
  }

  /** The rows of one date and count, in their order. */
  function OfKey(rows: seq<Row>, date: int, count: int): seq<Row> {
    if rows == [] then []
    else OfKey(rows[..|rows| - 1], date, count) + IfKey(rows[|rows| - 1], date, count)
  }

  function IfKey(r: Row, date: int, count: int): seq<Row> {
    if DateOf(r) == date && r.requestCount == count then [r] else []
  }

  lemma OfKeyAppend(rows: seq<Row>, r: Row, date: int, count: int)
    ensures OfKey(rows + [r], date, count) == OfKey(rows, date, count) + IfKey(r, date, count)
  {
    assert (rows + [r])[..|rows|] == rows;
  }

  lemma {:induction false} InsertMembers(r: Row, sorted: seq<Row>)
    ensures forall x :: x in Insert(r, sorted) <==> x == r || x in sorted
  {
    if sorted == [] || Before(sorted[|sorted| - 1], r) {
    } else {
      InsertMembers(r, sorted[..|sorted| - 1]);
      assert sorted == sorted[..|sorted| - 1] + [sorted[|sorted| - 1]];
    }
  }

  lemma OrderedAppend(rows: seq<Row>, r: Row)
    requires Ordered(rows) && forall x | x in rows :: Before(x, r)
    ensures Ordered(rows + [r])
  {
  }

  lemma {:induction false} InsertOrdered(r: Row, sorted: seq<Row>)
    requires Ordered(sorted)
    ensures Ordered(Insert(r, sorted))
  {
    if sorted == [] {
    } else {
      var init, last := sorted[..|sorted| - 1], sorted[|sorted| - 1];
      if Before(last, r) {
        forall x | x in sorted ensures Before(x, r) {
          assert x == last || x in init;
        }
        OrderedAppend(sorted, r);
      } else {
        InsertOrdered(r, init);
        InsertMembers(r, init);
        OrderedAppend(Insert(r, init), last);
      }
    }
  }

  lemma {:induction false} InsertStable(r: Row, sorted: seq<Row>, date: int, count: int)
    ensures OfKey(Insert(r, sorted), date, count) == OfKey(sorted + [r], date, count)
  {
    hide OfKey;
    if sorted == [] || Before(sorted[|sorted| - 1], r) {
    } else {
      InsertStable(r, sorted[..|sorted| - 1], date, count);
      PassStable(r, sorted[..|sorted| - 1], sorted[|sorted| - 1], date, count);
      assert sorted == sorted[..|sorted| - 1] + [sorted[|sorted| - 1]];
    }
  }

  /** Passing a row that has to come later, and so has another key, moves nothing within a key. */
  lemma PassStable(r: Row, init: seq<Row>, last: Row, date: int, count: int)
    requires !Before(last, r) && OfKey(Insert(r, init), date, count) == OfKey(init + [r], date, count)
    ensures OfKey(Insert(r, init) + [last], date, count) == OfKey(init + [last] + [r], date, count)
  {
    hide OfKey, Insert;
    OfKeyAppend(init, r, date, count);
    OfKeyAppend(init, last, date, count);
    OfKeyAppend(init + [last], r, date, count);
    OfKeyAppend(Insert(r, init), last, date, count);
    assert IfKey(r, date, count) == [] || IfKey(last, date, count) == [];
  }

  /** Sorting orders the rows and keeps rows of one date and count in their order. */
  lemma {:induction false} SortSorts(rows: seq<Row>, date: int, count: int)
    ensures Ordered(SortRows(rows))
    ensures OfKey(SortRows(rows), date, count) == OfKey(rows, date, count)
  {
    if rows == [] {
    } else {
      var init, last := rows[..|rows| - 1], rows[|rows| - 1];
      SortSorts(init, date, count);
      InsertOrdered(last, SortRows(init));
      InsertStable(last, SortRows(init), date, count);
      OfKeyAppend(SortRows(init), last, date, count);
    }
  }

  lemma {:induction false} InsertPermutes(r: Row, sorted: seq<Row>)
    ensures multiset(Insert(r, sorted)) == multiset(sorted) + multiset{r}
  {
    if sorted == [] || Before(sorted[|sorted| - 1], r) {
    } else {
      InsertPermutes(r, sorted[..|sorted| - 1]);
      assert sorted == sorted[..|sorted| - 1] + [sorted[|sorted| - 1]];
    }
  }

  lemma {:induction false} SortPermutes(rows: seq<Row>)
    ensures multiset(SortRows(rows)) == multiset(rows)
  {
    if rows == [] {
    } else {
      var init, last := rows[..|rows| - 1], rows[|rows| - 1];
      SortPermutes(init);
      InsertPermutes(last, SortRows(init));
      assert rows == init + [last];
    }
  }

  /** Sorted daily rows come with later dates first, and of one date those with larger counts first. */
  lemma LatestFirst(rows: seq<DayRow>, i: nat, j: nat)
    requires i < j < |SortRows(rows)|
    ensures var a, b := SortRows(rows)[i], SortRows(rows)[j];
            && a.Day? && b.Day? && a in rows && b in rows
            && (a.date > b.date || (a.date == b.date && a.requestCount >= b.requestCount))
  {
    SortSorts(rows, 0, 0);
    SortPermutes(rows);
    hide SortRows;
    assert SortRows(rows)[i] in multiset(SortRows(rows)) && SortRows(rows)[j] in multiset(SortRows(rows));
  }

  lemma {:induction false} OfKeyMember(rows: seq<Row>, date: int, count: int)
    ensures forall x :: x in OfKey(rows, date, count) <==> x in rows && DateOf(x) == date && x.requestCount == count
  {
    if rows == [] {
    } else {
      OfKeyMember(rows[..|rows| - 1], date, count);
      assert rows == rows[..|rows| - 1] + [rows[|rows| - 1]];
    }
  }

  ghost predicate SameByKey(a: seq<Row>, b: seq<Row>) {
    forall date, count :: OfKey(a, date, count) == OfKey(b, date, count)
  }

  lemma SameMembers(a: seq<Row>, b: seq<Row>)
    requires SameByKey(a, b)
    ensures forall x | x in a :: x in b
    ensures a != [] ==> b != []
  {
    if a != [] {
      assert a[0] in a;
    }
    forall x | x in a ensures x in b {
      OfKeyMember(a, DateOf(x), x.requestCount);
      OfKeyMember(b, DateOf(x), x.requestCount);
      assert x in OfKey(a, DateOf(x), x.requestCount);
    }
  }

  /** Lists alike by key end alike: the last row has the least key in both. */
  lemma LastsAgree(a: seq<Row>, b: seq<Row>)
    requires Ordered(a) && Ordered(b) && SameByKey(a, b) && SameByKey(b, a) && a != [] && b != []
    ensures a[|a| - 1] == b[|b| - 1]
  {
    var x, y := a[|a| - 1], b[|b| - 1];
    SameMembers(a, b);
    SameMembers(b, a);
    assert x in a && y in b;
    var ofA, ofB := OfKey(a, DateOf(x), x.requestCount), OfKey(b, DateOf(y), y.requestCount);
    assert ofA[|ofA| - 1] == x && ofB[|ofB| - 1] == y;
    assert Before(x, y) && Before(y, x);
  }

  lemma DropLast(a: seq<Row>, b: seq<Row>)
    requires SameByKey(a, b) && a != [] && b != [] && a[|a| - 1] == b[|b| - 1]
    ensures SameByKey(a[..|a| - 1], b[..|b| - 1])
  {
    var a', b', x := a[..|a| - 1], b[..|b| - 1], a[|a| - 1];
    assert a == a' + [x] && b == b' + [x];
    forall date, count ensures OfKey(a', date, count) == OfKey(b', date, count) {
      OfKeyAppend(a', x, date, count);
      OfKeyAppend(b', x, date, count);
      assert OfKey(a, date, count) == OfKey(b, date, count);
      Cancel(OfKey(a', date, count), OfKey(b', date, count), IfKey(x, date, count));
    }
  }

  lemma Cancel<T>(a: seq<T>, b: seq<T>, tail: seq<T>)
    requires a + tail == b + tail
    ensures a == b
  {
    assert |a + tail| == |b + tail|;
    assert (a + tail)[..|a|] == a && (b + tail)[..|b|] == b;
  }

  /** A stable sort has one possible result. */
  lemma {:induction false} StableSortUnique(a: seq<Row>, b: seq<Row>)
    requires Ordered(a) && Ordered(b) && SameByKey(a, b)
    ensures a == b
    decreases |a|
  {
    SameMembers(a, b);
    SameMembers(b, a);
    if a != [] && b != [] {
      LastsAgree(a, b);
      DropLast(a, b);
      StableSortUnique(a[..|a| - 1], b[..|b| - 1]);
      assert a == a[..|a| - 1] + [a[|a| - 1]] && b == b[..|b| - 1] + [b[|b| - 1]];
    }
  }
}
