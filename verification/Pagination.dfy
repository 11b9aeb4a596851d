/** Keyset pagination of the admin listings, over tables that may grow between pages. */
module Pagination {
  import opened Prelude
  import opened Text
  import Accounts

  /** A row id, as its place in the database's collation order. */
  type Id = int

  predicate IsLeast(s: set<Id>, x: Id) { x in s && forall y | y in s :: x <= y }

  lemma Inhabited(s: set<Id>)
    ensures s == {} || exists z :: z in s
  {
    if forall z :: z !in s {
      assert s == {};
    }
  }

  lemma {:induction false} LeastExists(s: set<Id>)
    requires s != {}
    ensures exists x :: IsLeast(s, x)
  {
    Inhabited(s);
    var z :| z in s;
    if s == {z} {
      assert IsLeast(s, z);
    } else {
      LeastExists(s - {z});
      var x :| IsLeast(s - {z}, x);
      var least := if z < x then z else x;
      assert forall y | y in s :: y == z || y in s - {z};
      assert IsLeast(s, least);
    }
  }

  function Least(s: set<Id>): (x: Id)
    requires s != {}
    ensures IsLeast(s, x)
  {
    LeastExists(s);
    var x :| IsLeast(s, x);
    x
  }

  predicate Past(cursor: Option<Id>, x: Id) { cursor.None? || x > cursor.value }

  function Beyond(t: set<Id>, cursor: Option<Id>): set<Id> { set x | x in t && Past(cursor, x) }

  predicate Ascending(r: seq<Id>) { forall i, j | 0 <= i < j < |r| :: r[i] < r[j] }

  /** WHERE id > cursor ORDER BY id LIMIT limit. */
  function Page(t: set<Id>, cursor: Option<Id>, limit: nat): seq<Id>
    decreases limit
  {
    if limit == 0 || Beyond(t, cursor) == {} then []
    else
      var x := Least(Beyond(t, cursor));
      [x] + Page(t, Some(x), limit - 1)
  }

  /** A full page points at its last row. */
  function NextCursor(page: seq<Id>, limit: nat): Option<Id>
    requires limit >= 1
  {
    if |page| == limit then Some(page[limit - 1]) else None
  }

  /** A page ascends within the rows beyond its cursor, and leaves out only rows past a full page. */
  lemma {:induction false} PageFacts(t: set<Id>, cursor: Option<Id>, limit: nat)
    ensures
      var page := Page(t, cursor, limit);
      && Ascending(page) && |page| <= limit
      && (forall i | 0 <= i < |page| :: page[i] in Beyond(t, cursor))
      && (forall x | x in Beyond(t, cursor) && x !in page :: |page| == limit && (limit > 0 ==> x > page[limit - 1]))
    decreases limit
  {
    if limit > 0 && Beyond(t, cursor) != {} {
      var x := Least(Beyond(t, cursor));
      PageFacts(t, Some(x), limit - 1);
      var rest := Page(t, Some(x), limit - 1);
      forall y | y in Beyond(t, cursor) && y !in [x] + rest
        ensures |rest| == limit - 1 && y > ([x] + rest)[limit - 1]
      {
        assert y in Beyond(t, Some(x));
      }
    }
  }

  /** Pages join up: a page and the page after its last row are one longer page. */
  lemma {:induction false} PagesJoin(t: set<Id>, cursor: Option<Id>, a: nat, b: nat)
    requires a >= 1 && NextCursor(Page(t, cursor, a), a).Some?
    ensures Page(t, cursor, a + b) == Page(t, cursor, a) + Page(t, NextCursor(Page(t, cursor, a), a), b)
    decreases a
  {
    var x := Least(Beyond(t, cursor));
    var first, rest := Page(t, cursor, a), Page(t, Some(x), a - 1);
    assert first == [x] + rest;
    if a > 1 {
      PagesJoin(t, Some(x), a - 1, b);
      assert NextCursor(first, a) == NextCursor(rest, a - 1);
    } else {
      assert first == [x] && NextCursor(first, a) == Some(x);
    }
  }

  /** All rows listed by following cursors, one table per page as it is then. */
  function Walk(tables: seq<set<Id>>, cursor: Option<Id>, limit: nat): seq<Id>
    requires limit >= 1
  {
    if tables == [] then []
    else
      var page := Page(tables[0], cursor, limit);
      match NextCursor(page, limit)
      case None => page
      case Some(last) => page + Walk(tables[1..], Some(last), limit)
  }

  /** The walk ended with a page that had no next cursor. */
  predicate Finished(tables: seq<set<Id>>, cursor: Option<Id>, limit: nat)
    requires limit >= 1
  {
    && tables != []
    && match NextCursor(Page(tables[0], cursor, limit), limit)
       case None => true
       case Some(last) => Finished(tables[1..], Some(last), limit)
  }

  ghost predicate Growing(tables: seq<set<Id>>) {
    forall i, j | 0 <= i < j < |tables| :: tables[i] <= tables[j]
  }

  lemma AscendingJoin(a: seq<Id>, b: seq<Id>)
    requires a != [] && Ascending(a) && Ascending(b) && forall i | 0 <= i < |b| :: b[i] > a[|a| - 1]
    ensures Ascending(a + b)
  {
  }

  /** Nothing is listed twice or out of order. */
  lemma {:induction false} WalkAscends(tables: seq<set<Id>>, cursor: Option<Id>, limit: nat)
    requires limit >= 1
    ensures Ascending(Walk(tables, cursor, limit))
    ensures forall i | 0 <= i < |Walk(tables, cursor, limit)| :: Past(cursor, Walk(tables, cursor, limit)[i])
  {
    if tables != [] {
      var page := Page(tables[0], cursor, limit);
      PageFacts(tables[0], cursor, limit);
      if NextCursor(page, limit).Some? {
        WalkAscends(tables[1..], NextCursor(page, limit), limit);
        AscendingJoin(page, Walk(tables[1..], NextCursor(page, limit), limit));
      }
    }
  }

  /** Only rows that were there by the end are listed. */
  lemma {:induction false} WalkWithin(tables: seq<set<Id>>, cursor: Option<Id>, limit: nat, x: Id)
    requires limit >= 1 && Growing(tables) && x in Walk(tables, cursor, limit)
    ensures tables != [] && x in tables[|tables| - 1]
  {
    var page := Page(tables[0], cursor, limit);
    PageFacts(tables[0], cursor, limit);
    if x in page {
      assert x in tables[0];
    } else {
      WalkWithin(tables[1..], NextCursor(page, limit), limit, x);
    }
  }

  /** Rows present from the first page on are all listed, whatever is inserted between pages. */
  lemma {:induction false} WalkComplete(tables: seq<set<Id>>, cursor: Option<Id>, limit: nat)
    requires limit >= 1 && Growing(tables) && Finished(tables, cursor, limit)
    ensures forall x | x in Beyond(tables[0], cursor) :: x in Walk(tables, cursor, limit)
  {
    var page := Page(tables[0], cursor, limit);
    PageFacts(tables[0], cursor, limit);
    match NextCursor(page, limit)
    case None =>
    case Some(last) =>
      WalkComplete(tables[1..], Some(last), limit);
      forall x | x in Beyond(tables[0], cursor) && x !in page ensures x in Walk(tables[1..], Some(last), limit) {
        assert x in Beyond(tables[1], Some(last));
      }
  }

  lemma {:induction false} AscendingSize(page: seq<Id>)
    requires Ascending(page)
    ensures |set x | x in page| == |page|
  {
    if page != [] {
      var front, last := page[..|page| - 1], page[|page| - 1];
      AscendingSize(front);
      assert (set x | x in page) == (set x | x in front) + {last};
      assert last !in front;
    }
  }

  /** A full page and what lies past it are all that lies beyond the cursor. */
  lemma PageParts(t: set<Id>, cursor: Option<Id>, limit: nat)
    requires limit >= 1 && NextCursor(Page(t, cursor, limit), limit).Some?
    ensures
      var page := Page(t, cursor, limit);
      var rest := Beyond(t, NextCursor(page, limit));
      Beyond(t, cursor) == (set x | x in page) + rest && (set x | x in page) !! rest
  {
    PageFacts(t, cursor, limit);
  }

  /** A full page takes `limit` rows off what is left. */
  lemma RowsLeft(t: set<Id>, cursor: Option<Id>, limit: nat)
    requires limit >= 1 && NextCursor(Page(t, cursor, limit), limit).Some?
    ensures |Beyond(t, cursor)| == limit + |Beyond(t, NextCursor(Page(t, cursor, limit), limit))|
  {
    PageFacts(t, cursor, limit);
    AscendingSize(Page(t, cursor, limit));
    PageParts(t, cursor, limit);
  }

  /** Over an unchanging table of n rows the walk ends within n / limit + 1 pages, having listed it in order. */
  lemma {:induction false} WalkListsAll(t: set<Id>, tables: seq<set<Id>>, cursor: Option<Id>, limit: nat)
    requires limit >= 1 && (forall i | 0 <= i < |tables| :: tables[i] == t)
    requires |Beyond(t, cursor)| < limit * |tables|
    ensures Finished(tables, cursor, limit) && Walk(tables, cursor, limit) == Page(t, cursor, |Beyond(t, cursor)|)
    decreases |tables|
  {
    var page, left := Page(t, cursor, limit), |Beyond(t, cursor)|;
    PageFacts(t, cursor, limit);
    match NextCursor(page, limit)
    case None => ShortPage(t, cursor, limit, left);
    case Some(last) =>
      RowsLeft(t, cursor, limit);
      assert limit * |tables| == limit + limit * |tables[1..]|;
      WalkListsAll(t, tables[1..], Some(last), limit);
      PagesJoin(t, cursor, limit, left - limit);
  }

  lemma BeyondLeast(t: set<Id>, cursor: Option<Id>)
    requires Beyond(t, cursor) != {}
    ensures |Beyond(t, cursor)| == 1 + |Beyond(t, Some(Least(Beyond(t, cursor))))|
  {
    var x := Least(Beyond(t, cursor));
    assert Beyond(t, cursor) == {x} + Beyond(t, Some(x));
  }

  /** A page that is not full does not depend on its limit. */
  lemma {:induction false} ShortPage(t: set<Id>, cursor: Option<Id>, limit: nat, other: nat)
    requires |Page(t, cursor, limit)| < limit && |Beyond(t, cursor)| <= other
    ensures Page(t, cursor, other) == Page(t, cursor, limit)
    decreases limit
  {
    if Beyond(t, cursor) != {} {
      var x := Least(Beyond(t, cursor));
      assert Page(t, cursor, limit) == [x] + Page(t, Some(x), limit - 1);
      BeyondLeast(t, cursor);
      ShortPage(t, Some(x), limit - 1, other - 1);
    }
  }

  /** A subject as stored: its id in full, its status columns and its creation time. */
  datatype Row = Row(text: string, subject: Accounts.Subject, createdAt: int)

  datatype Item = Item(subject: string, disabled: bool, reason: Option<string>, until: Option<int>, createdAt: int)

  /** A cursor is the id of the last row seen, as text and as a place in the order. */
  datatype Cursor = Cursor(place: Id, text: string)

  datatype Listing = Listing(items: seq<Item>, next: Option<Cursor>)

  datatype ListError = Forbidden | InvalidPage

  function Decoded(row: Row, at: int): Item {
    Item(row.text, Accounts.EffectivelyDisabled(row.subject, at), row.subject.reason, row.subject.until, row.createdAt)
  }

  function Place(cursor: Option<Cursor>): Option<Id> {
    if cursor.Some? then Some(cursor.value.place) else None
  }

  predicate ValidPage(cursor: Option<Cursor>, limit: int) {
    1 <= limit <= 200 && (cursor.Some? ==> ValidId(cursor.value.text))
  }

  /** One page of `list_subjects`: its rows decoded in order, and a cursor the next request may use. */
  method ListSubjects(authorized: bool, subjects: map<Id, Row>, cursor: Option<Cursor>, limit: int, at: int)
      returns (r: Result<Listing, ListError>)
    ensures r == Err(Forbidden) <==> !authorized
    ensures r == Err(InvalidPage) <==>
      authorized && (limit < 1 || limit > 200 || (cursor.Some? && !ValidId(cursor.value.text)))
    ensures r.Ok? ==>
      var page := Page(subjects.Keys, Place(cursor), limit);
      && |r.value.items| == |page|
      && (forall i | 0 <= i < |page| :: page[i] in subjects && r.value.items[i] == Decoded(subjects[page[i]], at))
      && Place(r.value.next) == NextCursor(page, limit)
      && (forall i | 0 <= i < |page| ::
            var item, row := r.value.items[i], subjects[page[i]];
            && item.subject == row.text && item.createdAt == row.createdAt
            && item.reason == row.subject.reason && item.until == row.subject.until
            && item.disabled ==
                 (row.subject.status == Accounts.Disabled
                  && (row.subject.until.None? || at < row.subject.until.value)))
      && (r.value.next.Some? ==>
            r.value.next.value.place in subjects && r.value.next.value.text == subjects[r.value.next.value.place].text)
      && ((forall id | id in subjects :: ValidId(subjects[id].text)) ==> ValidPage(r.value.next, limit))
  {
    if !authorized {
      return Err(Forbidden);
    }
    if !ValidPage(cursor, limit) {
      return Err(InvalidPage);
    }
    var rows := Page(subjects.Keys, Place(cursor), limit);
    PageFacts(subjects.Keys, Place(cursor), limit);
    var items: seq<Item> := [];
    for k := 0 to |rows|
      invariant |items| == k
      invariant forall i | 0 <= i < k :: rows[i] in subjects && items[i] == Decoded(subjects[rows[i]], at)
    {
      items := items + [Decoded(subjects[rows[k]], at)];
    }
    if |items| < limit {
      return Ok(Listing(items, None));
    }
    var last := rows[limit - 1];
    r := Ok(Listing(items, Some(Cursor(last, items[limit - 1].subject))));
  }
}
