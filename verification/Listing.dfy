/** Paged listing of live records and the batched read that attaches their revisions. */
module Listing {
  import opened Results
  import opened Records
  import opened Repository
  import opened Protocol
  import opened Invariant
  import opened Concurrency
  import opened Rules
  import opened Answers
  import opened Service
  import opened Backend

  // ---- Order of a listing ----

  /** What the listing sorts by: `updated_at DESC, id DESC`. */
  datatype Entry = Entry(updatedAt: int, id: nat)

  predicate Precedes(a: Entry, b: Entry) {
    a.updatedAt > b.updatedAt || (a.updatedAt == b.updatedAt && a.id > b.id)
  }

  /** Newer first, and of two as new the one with the higher id. */
  predicate NewerFirst(a: Entry, b: Entry) {
    a.updatedAt >= b.updatedAt && (a.updatedAt == b.updatedAt ==> a.id > b.id)
  }

  predicate IsFirst(x: Entry, s: set<Entry>) {
    x in s && forall y :: y in s ==> y == x || Precedes(x, y)
  }

  lemma {:induction false} FirstExists(s: set<Entry>)
    requires s != {}
    ensures exists x :: IsFirst(x, s)
    decreases |s|
  {
    var x :| x in s;
    if s == {x} {
      assert IsFirst(x, s);
    } else {
      FirstExists(s - {x});
      var y :| IsFirst(y, s - {x});
      assert s == (s - {x}) + {x};
      assert IsFirst(if Precedes(y, x) then y else x, s);
    }
  }

  function Ranked(s: set<Entry>): seq<Entry>
    decreases |s|
  {
    if s == {} then []
    else
      FirstExists(s);
      var x :| IsFirst(x, s);
      [x] + Ranked(s - {x})
  }

  lemma RankedUnfolds(s: set<Entry>) returns (x: Entry)
    requires s != {}
    ensures IsFirst(x, s) && Ranked(s) == [x] + Ranked(s - {x})
  {
    FirstExists(s);
    x :| IsFirst(x, s);
  }

  lemma {:induction false} RankedHolds(s: set<Entry>)
    ensures |Ranked(s)| == |s|
    ensures forall x :: x in Ranked(s) <==> x in s
    decreases |s|
  {
    if s != {} {
      var x := RankedUnfolds(s);
      RankedHolds(s - {x});
      assert s == (s - {x}) + {x};
    }
  }

  /** The listing order holds every entry exactly once, strictly ordered. */
  lemma {:induction false} RankedHoldsEachOnce(s: set<Entry>)
    ensures |Ranked(s)| == |s|
    ensures forall x :: x in Ranked(s) <==> x in s
    ensures forall i, j :: 0 <= i < j < |Ranked(s)| ==> NewerFirst(Ranked(s)[i], Ranked(s)[j])
    decreases |s|
  {
    hide Ranked;
    RankedHolds(s);
    if s != {} {
      var x := RankedUnfolds(s);
      var rest := Ranked(s - {x});
      RankedHoldsEachOnce(s - {x});
      forall i, j | 0 <= i < j < |Ranked(s)| ensures NewerFirst(Ranked(s)[i], Ranked(s)[j]) {
        assert rest[j - 1] in rest;
      }
    }
  }

  /** The entries of the live records of one kind that the query's conditions select. */
  function Selected(db: Db, kind: Kind, matches: Row -> bool): set<Entry> {
    set k | k in db.rows && k.kind == kind && Live(db, k) && matches(db.rows[k])
      :: Entry(db.rows[k].updatedAt, k.id)
  }

  function Listed(db: Db, kind: Kind, matches: Row -> bool): seq<Entry> {
    Ranked(Selected(db, kind, matches))
  }

  // ---- Pages ----

  method NormalizePage(page: int, pageSize: int) returns (p: int, n: int)
    ensures p >= 1 && 1 <= n <= 100
    ensures page >= 1 ==> p == page
    ensures 1 <= pageSize <= 100 ==> n == pageSize
    ensures page < 1 ==> p == 1
    ensures pageSize < 1 ==> n == 20
    ensures pageSize > 100 ==> n == 100
  {
    p, n := page, pageSize;
    if p < 1 {
      p := 1;
    }
    if n < 1 {
      n := 20;
    }
    if n > 100 {
      n := 100;
    }
  }

  /** `OFFSET ... LIMIT ...` */
  function Window<T>(s: seq<T>, offset: nat, limit: nat): seq<T> {
    if offset >= |s| then []
    else if offset + limit >= |s| then s[offset..]
    else s[offset..offset + limit]
  }

  function PageOf<T>(s: seq<T>, page: nat, pageSize: nat): seq<T>
    requires page >= 1
  {
    Window(s, (page - 1) * pageSize, pageSize)
  }

  // ---- The offset of a page, in 64 bits ----

  const TWO_63 := 0x8000_0000_0000_0000

  /** What a 64-bit signed product holds of `x`. */
  function Wrapped(x: int): int {
    (x + TWO_63) % (2 * TWO_63) - TWO_63
  }

  /** The rows a query skips: no OFFSET is sent unless the product is positive. */
  function OffsetOf(page: nat, pageSize: nat): nat {
    var product := Wrapped((page - 1) * pageSize);
    if product > 0 then product else 0
  }

  /** What the query for a page returns. */
  function Shown<T>(s: seq<T>, page: nat, pageSize: nat): seq<T> {
    Window(s, OffsetOf(page, pageSize), pageSize)
  }

  lemma WrapsExactlyWhen(x: nat)
    ensures Wrapped(x) < TWO_63
    ensures Wrapped(x) == x <==> x < TWO_63
  {
  }

  lemma TimesIsMonotone(a: nat, b: nat, n: nat)
    requires a <= b
    ensures 0 <= a * n <= b * n
  {
    assert b * n == a * n + (b - a) * n;
  }

  lemma OffsetIsExactlyWhen(page: nat, pageSize: nat)
    requires page >= 1
    ensures OffsetOf(page, pageSize) < TWO_63
    ensures OffsetOf(page, pageSize) == (page - 1) * pageSize <==> (page - 1) * pageSize < TWO_63
  {
    hide Wrapped;
    TimesIsMonotone(0, page - 1, pageSize);
    WrapsExactlyWhen((page - 1) * pageSize);
  }

  /** Windows of a sequence without repetitions are the same only at the same place, or past the end. */
  lemma SameWindow<T>(s: seq<T>, a: nat, b: nat, limit: nat)
    requires limit > 0 && forall i, j :: 0 <= i < j < |s| ==> s[i] != s[j]
    ensures Window(s, a, limit) == Window(s, b, limit) <==> a == b || (a >= |s| && b >= |s|)
  {
    if Window(s, a, limit) == Window(s, b, limit) && a < |s| {
      assert Window(s, a, limit)[0] == s[a];
    }
    if Window(s, a, limit) == Window(s, b, limit) && b < |s| {
      assert Window(s, b, limit)[0] == s[b];
    }
  }

  /**
   A query for a page returns that page exactly when its offset fits into 64 bits, or both the
   page and the offset that is left of it lie past the end.
   */
  lemma ShownIsPageExactlyWhen<T>(s: seq<T>, page: nat, pageSize: nat)
    requires page >= 1 && pageSize > 0 && forall i, j :: 0 <= i < j < |s| ==> s[i] != s[j]
    ensures Shown(s, page, pageSize) == PageOf(s, page, pageSize)
       <==> (page - 1) * pageSize < 0x8000_0000_0000_0000
            || ((page - 1) * pageSize >= |s| && OffsetOf(page, pageSize) >= |s|)
  {
    hide OffsetOf, Window;
    OffsetIsExactlyWhen(page, pageSize);
    SameWindow(s, OffsetOf(page, pageSize), (page - 1) * pageSize, pageSize);
  }

  /** A page number a client can send for which the first page is returned again. */
  lemma FirstPageAgain<T>(s: seq<T>)
    ensures var page := 0x4000_0000_0000_0001;
            && page < 0x8000_0000_0000_0000 && OffsetOf(page, 20) == 0
            && Shown(s, page, 20) == PageOf(s, 1, 20)
            && (0 < |s| <= 0x8000_0000_0000_0000 ==> Shown(s, page, 20) != PageOf(s, page, 20))
  {
    var page := 0x4000_0000_0000_0001;
    assert (page - 1) * 20 == 5 * (2 * TWO_63);
    assert Wrapped(5 * (2 * TWO_63)) == 0;
  }

  /** The first `count` pages as the query returns them, one after the other. */
  function Pages<T>(s: seq<T>, count: nat, pageSize: nat): seq<T> {
    if count == 0 then [] else Pages(s, count - 1, pageSize) + Shown(s, count, pageSize)
  }

  function PageCount(total: nat, pageSize: nat): nat
    requires pageSize > 0
  {
    (total + pageSize - 1) / pageSize
  }

  lemma {:induction false} PagesArePrefix<T>(s: seq<T>, count: nat, pageSize: nat)
    requires count > 0 ==> (count - 1) * pageSize < TWO_63
    ensures Pages(s, count, pageSize) == if count * pageSize >= |s| then s else s[..count * pageSize]
  {
    hide OffsetOf;
    if count > 0 {
      var before := (count - 1) * pageSize;
      assert before + pageSize == count * pageSize;
      if count > 1 {
        TimesIsMonotone(count - 2, count - 1, pageSize);
      }
      PagesArePrefix(s, count - 1, pageSize);
      OffsetIsExactlyWhen(count, pageSize);
    }
  }

  lemma PageCountCovers(total: nat, pageSize: nat)
    requires pageSize > 0
    ensures PageCount(total, pageSize) * pageSize >= total
    ensures total > 0 ==> PageCount(total, pageSize) > 0 && (PageCount(total, pageSize) - 1) * pageSize < total
    ensures total == 0 ==> PageCount(total, pageSize) == 0
  {
    var x := total + pageSize - 1;
    var c := x / pageSize;
    assert x == c * pageSize + x % pageSize;
    assert (c - 1) * pageSize == c * pageSize - pageSize;
    if total == 0 {
      assert c * pageSize < pageSize;
    }
  }

  lemma LaterPageIsPast(total: nat, page: nat, pageSize: nat)
    requires pageSize > 0 && page > PageCount(total, pageSize)
    ensures (page - 1) * pageSize >= total
  {
    hide PageCount;
    PageCountCovers(total, pageSize);
    TimesIsMonotone(PageCount(total, pageSize), page - 1, pageSize);
  }

  /** A page past the last is empty exactly when the offset left of it in 64 bits is past the end too. */
  lemma LaterPageIsEmptyExactlyWhen<T>(s: seq<T>, page: nat, pageSize: nat)
    requires pageSize > 0 && page > PageCount(|s|, pageSize)
    ensures Shown(s, page, pageSize) == [] <==> OffsetOf(page, pageSize) >= |s|
    ensures (page - 1) * pageSize < TWO_63 ==> Shown(s, page, pageSize) == []
  {
    hide OffsetOf;
    LaterPageIsPast(|s|, page, pageSize);
    OffsetIsExactlyWhen(page, pageSize);
  }

  /**
   Pages 1 to ceil(total / size) of an unchanged table, whose total the source counts in a 64-bit
   integer, show every selected live record exactly once, in the listing order; and a later page is
   empty exactly when its 64-bit offset is past the end, as it is while the offset does not wrap.
   */
  lemma PagesPartitionTheListing(db: Db, kind: Kind, matches: Row -> bool, pageSize: nat)
    requires pageSize > 0 && |Listed(db, kind, matches)| <= TWO_63
    ensures var order := Listed(db, kind, matches);
            var shown := Pages(order, PageCount(|order|, pageSize), pageSize);
            && shown == order
            && (forall k :: k in db.rows && k.kind == kind && Live(db, k) && matches(db.rows[k])
                  ==> Entry(db.rows[k].updatedAt, k.id) in shown)
            && (forall x :: x in shown ==> Live(db, Key(kind, x.id)) && matches(db.rows[Key(kind, x.id)]))
            && (forall i, j :: 0 <= i < j < |shown| ==> NewerFirst(shown[i], shown[j]) && shown[i].id != shown[j].id)
            && (forall page: nat :: page > PageCount(|order|, pageSize) ==>
                  && (Shown(order, page, pageSize) == [] <==> OffsetOf(page, pageSize) >= |order|)
                  && ((page - 1) * pageSize < TWO_63 ==> Shown(order, page, pageSize) == []))
  {
    hide Listed, Selected, OffsetOf, Shown;
    var order := Listed(db, kind, matches);
    PageCountCovers(|order|, pageSize);
    PagesArePrefix(order, PageCount(|order|, pageSize), pageSize);
    ListedHoldsEachOnce(db, kind, matches);
    forall page: nat | page > PageCount(|order|, pageSize)
      ensures Shown(order, page, pageSize) == [] <==> OffsetOf(page, pageSize) >= |order|
      ensures (page - 1) * pageSize < TWO_63 ==> Shown(order, page, pageSize) == []
    {
      LaterPageIsEmptyExactlyWhen(order, page, pageSize);
    }
  }

  /** The listing order names each selected live record exactly once. */
  lemma ListedHoldsEachOnce(db: Db, kind: Kind, matches: Row -> bool)
    ensures var order := Listed(db, kind, matches);
            && (forall k :: k in db.rows && k.kind == kind && Live(db, k) && matches(db.rows[k])
                  ==> Entry(db.rows[k].updatedAt, k.id) in order)
            && (forall x :: x in order ==> Live(db, Key(kind, x.id)) && matches(db.rows[Key(kind, x.id)]))
            && (forall i, j :: 0 <= i < j < |order| ==> NewerFirst(order[i], order[j]) && order[i].id != order[j].id)
  {
    var order := Listed(db, kind, matches);
    RankedHoldsEachOnce(Selected(db, kind, matches));
    forall i, j | 0 <= i < j < |order| ensures order[i].id != order[j].id {
      EntriesNameRows(db, kind, matches, order[i]);
      EntriesNameRows(db, kind, matches, order[j]);
    }
    forall x | x in order ensures Live(db, Key(kind, x.id)) && matches(db.rows[Key(kind, x.id)]) {
      EntriesNameRows(db, kind, matches, x);
    }
  }

  /**
   The query for a page of a listing returns that page exactly when its offset does not wrap, or
   page and wrapped offset both lie past the total.
   */
  lemma ListedPageExactlyWhen(db: Db, kind: Kind, matches: Row -> bool, page: nat, pageSize: nat)
    requires page >= 1 && pageSize > 0
    ensures var order := Listed(db, kind, matches);
            Shown(order, page, pageSize) == PageOf(order, page, pageSize)
            <==> (page - 1) * pageSize < 0x8000_0000_0000_0000
                 || ((page - 1) * pageSize >= |order| && OffsetOf(page, pageSize) >= |order|)
  {
    hide Listed, Shown, PageOf, OffsetOf;
    ListedHoldsEachOnce(db, kind, matches);
    ShownIsPageExactlyWhen(Listed(db, kind, matches), page, pageSize);
  }

  lemma EntriesNameRows(db: Db, kind: Kind, matches: Row -> bool, x: Entry)
    requires x in Selected(db, kind, matches) || x in Listed(db, kind, matches)
    ensures var k := Key(kind, x.id);
            Live(db, k) && matches(db.rows[k]) && x.updatedAt == db.rows[k].updatedAt
  {
    RankedHoldsEachOnce(Selected(db, kind, matches));
  }

  // ---- Where a write is listed ----

  /** The time a committing event stores. */
  function TimeOf(s: System, e: Event): int
    requires StampOf(s, e).Some?
  {
    if e.Create? then e.now else s.inflight[e.client].request.now
  }

  lemma AcceptedTakesTime(db: Db, p: Pending)
    requires p.Checked? && PendingValid(db, p)
    ensures p.item.updatedAt == p.request.now
  {
    hide Normalize, MissingBusinessField;
  }

  /** A committed record is live and carries the time of its write. */
  lemma CommitSetsTime(s: System, e: Event)
    requires SystemValid(s) && StampOf(s, e).Some?
    ensures var key := StampOf(s, e).value.revision.key;
            var db := Step(s, e).db;
            Live(db, key) && db.rows[key].updatedAt == TimeOf(s, e)
  {
    hide DbValid, PendingValid, Prepare, PrepareCreate, UpdateVersion, CreateVersion, FieldsFit;
    if e.Create? {
      CreateAnswer(s, e);
    } else {
      var p := s.inflight[e.client];
      assert PendingValid(s.db, p);
      AcceptedTakesTime(s.db, p);
      PendingWriteFits(s.db, p);
      CommitAnswer(s, e.client, e.fault);
    }
  }

  /** `x` is listed before every older entry, and on top if all others are older. */
  ghost predicate ListedAhead(order: seq<Entry>, x: Entry) {
    exists i :: 0 <= i < |order| && order[i] == x
                && (forall j :: 0 <= j < |order| && order[j].updatedAt < x.updatedAt ==> i < j)
                && ((forall j :: 0 <= j < |order| && order[j].id != x.id ==> order[j].updatedAt < x.updatedAt)
                    ==> i == 0)
  }

  lemma SortedIsAhead(order: seq<Entry>, x: Entry)
    requires forall i, j :: 0 <= i < j < |order| ==> NewerFirst(order[i], order[j]) && order[i].id != order[j].id
    requires x in order
    ensures ListedAhead(order, x)
  {
    var i :| 0 <= i < |order| && order[i] == x;
    forall j | 0 <= j < |order| && order[j].updatedAt < x.updatedAt ensures i < j {
      assert j < i ==> NewerFirst(order[j], order[i]);
    }
    if i > 0 {
      assert NewerFirst(order[0], order[i]) && order[0].id != x.id;
    }
  }

  lemma LiveIsListedAhead(db: Db, key: Key, matches: Row -> bool)
    requires Live(db, key) && matches(db.rows[key])
    ensures ListedAhead(Listed(db, key.kind, matches), Entry(db.rows[key].updatedAt, key.id))
  {
    hide Listed, ListedAhead;
    ListedHoldsEachOnce(db, key.kind, matches);
    SortedIsAhead(Listed(db, key.kind, matches), Entry(db.rows[key].updatedAt, key.id));
  }

  /**
   Right after a commit the record is listed, in any listing that selects it, before every record
   last written at an earlier time; at the top if all others are older.
   */
  lemma WrittenIsListedFirst(s: System, e: Event, matches: Row -> bool)
    requires SystemValid(s) && StampOf(s, e).Some?
    ensures var key, db := StampOf(s, e).value.revision.key, Step(s, e).db;
            key in db.rows && (matches(db.rows[key]) ==>
              ListedAhead(Listed(db, key.kind, matches), Entry(TimeOf(s, e), key.id)))
  {
    hide SystemValid, Step, StampOf, Listed, TimeOf, ListedAhead;
    var key, db := StampOf(s, e).value.revision.key, Step(s, e).db;
    CommitSetsTime(s, e);
    if matches(db.rows[key]) {
      LiveIsListedAhead(db, key, matches);
    }
  }

  // ---- The batched revision query ----

  predicate OwnerBefore(a: Revision, b: Revision) {
    a.key.id < b.key.id || (a.key.id == b.key.id && a.version < b.version)
  }

  function InsertByOwner(r: Revision, sorted: seq<Revision>): seq<Revision> {
    if sorted == [] || OwnerBefore(r, sorted[0]) then [r] + sorted
    else [sorted[0]] + InsertByOwner(r, sorted[1..])
  }

  /** `ORDER BY owner id, version` */
  function OrderByOwner(revisions: seq<Revision>): seq<Revision> {
    if revisions == [] then []
    else InsertByOwner(revisions[|revisions| - 1], OrderByOwner(revisions[..|revisions| - 1]))
  }

  /** `WHERE owner id IN ids` on the revision table of one kind. */
  function Owned(revisions: seq<Revision>, kind: Kind, ids: seq<nat>): seq<Revision> {
    if revisions == [] then []
    else
      var earlier := Owned(revisions[..|revisions| - 1], kind, ids);
      var last := revisions[|revisions| - 1];
      if last.key.kind == kind && last.key.id in ids then earlier + [last] else earlier
  }

  predicate OwnerSorted(s: seq<Revision>) {
    forall i, j :: 0 <= i < j < |s| ==> !OwnerBefore(s[j], s[i])
  }

  predicate OneKind(s: seq<Revision>, kind: Kind) {
    forall i :: 0 <= i < |s| ==> s[i].key.kind == kind
  }

  lemma HistoryOfOne(x: Revision, key: Key)
    ensures History([], key) == []
    ensures History([x], key) == if x.key == key then [x] else []
  {
    HistoryAppend([], x, key);
    assert [] + [x] == [x];
  }

  lemma {:induction false} HistoryPrepend(x: Revision, s: seq<Revision>, key: Key)
    ensures History([x] + s, key) == if x.key == key then [x] + History(s, key) else History(s, key)
  {
    hide History;
    HistoryOfOne(x, key);
    if s == [] {
      assert [x] + s == [x];
    } else {
      var n := |s| - 1;
      var u, last := s[..n], s[n];
      HistoryPrepend(x, u, key);
      HistoryAppend([x] + u, last, key);
      HistoryAppend(u, last, key);
      assert [x] + s == ([x] + u) + [last];
      assert s == u + [last];
      assert [x] + (History(u, key) + [last]) == ([x] + History(u, key)) + [last];
    }
  }

  lemma HistoryOfFirst(s: seq<Revision>, key: Key)
    requires s != []
    ensures History(s, key) == if s[0].key == key then [s[0]] + History(s[1..], key) else History(s[1..], key)
  {
    HistoryPrepend(s[0], s[1..], key);
    assert s == [s[0]] + s[1..];
  }

  lemma {:induction false} InsertKeepsSorted(r: Revision, s: seq<Revision>, kind: Kind)
    requires OwnerSorted(s) && OneKind(s, kind) && r.key.kind == kind
    ensures OwnerSorted(InsertByOwner(r, s)) && OneKind(InsertByOwner(r, s), kind)
    ensures forall x :: x in InsertByOwner(r, s) ==> x == r || x in s
  {
    if s != [] && !OwnerBefore(r, s[0]) {
      InsertKeepsSorted(r, s[1..], kind);
      var t := InsertByOwner(r, s[1..]);
      forall j | 0 <= j < |t| ensures !OwnerBefore(t[j], s[0]) {
        assert t[j] in t;
      }
    }
  }

  /** In a sorted result, a newcomer that precedes the first element precedes its own record's. */
  lemma {:induction false} NewcomerIsFirst(r: Revision, s: seq<Revision>, kind: Kind)
    requires OwnerSorted(s) && OneKind(s, kind) && r.key.kind == kind
    requires s != [] ==> OwnerBefore(r, s[0])
    ensures InsertByVersion(r, History(s, r.key)) == [r] + History(s, r.key)
    decreases |s|
  {
    hide History;
    HistoryOfOne(r, r.key);
    if s != [] {
      HistoryOfFirst(s, r.key);
      if s[0].key != r.key {
        assert s[0].key.id > r.key.id;
        assert |s| > 1 ==> !OwnerBefore(s[1], s[0]);
        NewcomerIsFirst(r, s[1..], kind);
      }
    }
  }

  /** Inserting into the batch result is, seen from one record, inserting into its own result. */
  lemma {:induction false} InsertSeenByOne(r: Revision, s: seq<Revision>, kind: Kind, key: Key)
    requires OwnerSorted(s) && OneKind(s, kind) && r.key.kind == kind
    ensures History(InsertByOwner(r, s), key)
         == if r.key == key then InsertByVersion(r, History(s, key)) else History(s, key)
    decreases |s|
  {
    hide History;
    HistoryOfOne(r, key);
    if s == [] || OwnerBefore(r, s[0]) {
      HistoryPrepend(r, s, key);
      NewcomerIsFirst(r, s, kind);
    } else {
      var t := s[1..];
      InsertSeenByOne(r, t, kind, key);
      HistoryPrepend(s[0], InsertByOwner(r, t), key);
      HistoryOfFirst(s, key);
      assert ([s[0]] + History(t, key))[1..] == History(t, key);
    }
  }

  lemma {:induction false} OwnedIsOneKind(revisions: seq<Revision>, kind: Kind, ids: seq<nat>)
    ensures OneKind(Owned(revisions, kind, ids), kind)
  {
    if revisions != [] {
      OwnedIsOneKind(revisions[..|revisions| - 1], kind, ids);
    }
  }

  lemma {:induction false} BatchSeenByOne(s: seq<Revision>, kind: Kind, key: Key)
    requires OneKind(s, kind)
    ensures OwnerSorted(OrderByOwner(s)) && OneKind(OrderByOwner(s), kind)
    ensures History(OrderByOwner(s), key) == OrderByVersion(History(s, key))
  {
    if s != [] {
      var n := |s| - 1;
      BatchSeenByOne(s[..n], kind, key);
      InsertKeepsSorted(s[n], OrderByOwner(s[..n]), kind);
      InsertSeenByOne(s[n], OrderByOwner(s[..n]), kind, key);
      assert s == s[..n] + [s[n]];
      HistoryAppend(s[..n], s[n], key);
      var h := History(s[..n], key);
      assert (h + [s[n]])[..|h|] == h;
    }
  }

  lemma {:induction false} OwnedKeepsHistory(revisions: seq<Revision>, kind: Kind, ids: seq<nat>, key: Key)
    requires key.kind == kind && key.id in ids
    ensures History(Owned(revisions, kind, ids), key) == History(revisions, key)
  {
    if revisions != [] {
      var n := |revisions| - 1;
      OwnedKeepsHistory(revisions[..n], kind, ids, key);
      HistoryAppend(Owned(revisions[..n], kind, ids), revisions[n], key);
      assert revisions == revisions[..n] + [revisions[n]];
      HistoryAppend(revisions[..n], revisions[n], key);
    }
  }

  /** Grouping the one batched query gives each requested record what its own query gives. */
  lemma BatchAgreesWithGet(revisions: seq<Revision>, kind: Kind, ids: seq<nat>, id: nat)
    requires id in ids
    ensures History(OrderByOwner(Owned(revisions, kind, ids)), Key(kind, id))
         == OrderByVersion(History(revisions, Key(kind, id)))
  {
    OwnedIsOneKind(revisions, kind, ids);
    BatchSeenByOne(Owned(revisions, kind, ids), kind, Key(kind, id));
    OwnedKeepsHistory(revisions, kind, ids, Key(kind, id));
  }

  // ---- The listing itself ----

  datatype Page = Page(items: seq<Loaded>, total: nat, page: int, pageSize: int)

  /** The groups hold every record's revisions, in order, and no others. */
  ghost predicate Grouped(revisions: seq<Revision>, kind: Kind, groups: map<nat, seq<Revision>>) {
    forall id: nat :: Group(groups, id) == History(revisions, Key(kind, id))
  }

  function Group(groups: map<nat, seq<Revision>>, id: nat): seq<Revision> {
    if id in groups then groups[id] else []
  }

  lemma GroupOneMore(revisions: seq<Revision>, r: Revision, kind: Kind, groups: map<nat, seq<Revision>>)
    requires Grouped(revisions, kind, groups) && r.key.kind == kind
    ensures Grouped(revisions + [r], kind, groups[r.key.id := Group(groups, r.key.id) + [r]])
  {
    hide History;
    forall id: nat ensures
      Group(groups[r.key.id := Group(groups, r.key.id) + [r]], id) == History(revisions + [r], Key(kind, id))
    {
      HistoryAppend(revisions, r, Key(kind, id));
      assert Group(groups, id) == History(revisions, Key(kind, id));
    }
  }

  /** The loop that groups revisions by the id of their record. */
  method GroupByRecord(revisions: seq<Revision>, kind: Kind) returns (groups: map<nat, seq<Revision>>)
    requires OneKind(revisions, kind)
    ensures Grouped(revisions, kind, groups)
  {
    hide Grouped;
    groups := map[];
    GroupNothing(kind);
    var i := 0;
    assert revisions[..0] == [];
    while i < |revisions|
      invariant 0 <= i <= |revisions|
      invariant Grouped(revisions[..i], kind, groups)
    {
      var r := revisions[i];
      assert revisions[..i + 1] == revisions[..i] + [r];
      GroupOneMore(revisions[..i], r, kind, groups);
      groups := groups[r.key.id := Group(groups, r.key.id) + [r]];
      i := i + 1;
    }
    assert revisions[..|revisions|] == revisions;
  }

  lemma GroupNothing(kind: Kind)
    ensures Grouped([], kind, map[])
  {
  }

  /** The loop that collects the ids of a page. */
  method CollectIds(shown: seq<Entry>) returns (ids: seq<nat>)
    ensures |ids| == |shown| && forall j :: 0 <= j < |shown| ==> ids[j] == shown[j].id
  {
    ids := [];
    var i := 0;
    while i < |shown|
      invariant 0 <= i <= |shown| && |ids| == i
      invariant forall j :: 0 <= j < i ==> ids[j] == shown[j].id
    {
      ids := ids + [shown[i].id];
      i := i + 1;
    }
  }

  /** Attach to every item of the page, in place, the revisions the batched query finds for it now. */
  method AttachRevisions(items: array<Loaded>, shown: seq<Entry>, db: Db, kind: Kind)
    requires |shown| == items.Length
    modifies items
    ensures forall j :: 0 <= j < items.Length ==>
              items[j] == Loaded(old(items[j]).row, FindRevisions(db, Key(kind, shown[j].id)))
  {
    hide History, OrderByVersion, OrderByOwner, Owned;
    var ids := CollectIds(shown);
    var revisions := OrderByOwner(Owned(db.revisions, kind, ids));
    OwnedIsOneKind(db.revisions, kind, ids);
    BatchSeenByOne(Owned(db.revisions, kind, ids), kind, Key(kind, 0));
    var groups := GroupByRecord(revisions, kind);
    var index := 0;
    while index < items.Length
      invariant 0 <= index <= items.Length
      invariant forall j :: 0 <= j < items.Length ==> items[j].row == old(items[j]).row
      invariant forall j :: 0 <= j < index ==>
                  items[j].revisions == FindRevisions(db, Key(kind, shown[j].id))
    {
      var id := shown[index].id;
      assert ids[index] == id;
      BatchAgreesWithGet(db.revisions, kind, ids, id);
      assert Group(groups, id) == History(revisions, Key(kind, id));
      items[index] := items[index].(revisions := Group(groups, id));
      index := index + 1;
    }
  }

  /** The page's items: the rows of one moment with the revisions of a later one. */
  ghost predicate ItemsAre(items: seq<Loaded>, shown: seq<Entry>, kind: Kind, showing: Db, reading: Db) {
    && |items| == |shown|
    && forall i :: 0 <= i < |shown| ==>
         && Live(showing, Key(kind, shown[i].id))
         && items[i] == Loaded(showing.rows[Key(kind, shown[i].id)], FindRevisions(reading, Key(kind, shown[i].id)))
  }

  /**
   `List`: count, then one page of the listing, then its revisions in one query and grouped; the
   other clients run between these statements. The total is that of the first moment, the page
   that of the second, and the revisions are those of the third.
   */
  method List(server: Server, kind: Kind, matches: Row -> bool, page: int, pageSize: int,
              between: seq<Event>, late: seq<Event>) returns (result: Page)
    modifies server`inflight, server.store
    ensures result.page >= 1 && 1 <= result.pageSize <= 100
    ensures page >= 1 ==> result.page == page
    ensures 1 <= pageSize <= 100 ==> result.pageSize == pageSize
    ensures page < 1 ==> result.page == 1
    ensures pageSize < 1 ==> result.pageSize == 20
    ensures pageSize > 100 ==> result.pageSize == 100
    ensures var s := old(server.State());
            var t := Run(s, between);
            var u := Run(t, late);
            && server.State() == (if result.items == [] then t else u)
            && result.total == |Listed(s.db, kind, matches)|
            && ItemsAre(result.items, Shown(Listed(t.db, kind, matches), result.page, result.pageSize),
                        kind, t.db, u.db)
  {
    hide Listed, Selected, Shown, Run, FindRevisions;
    var p, n := NormalizePage(page, pageSize);
    var total := |Listed(server.store.Tables(), kind, matches)|;
    server.Interleave(between);
    var db := server.store.Tables();
    var shown := Shown(Listed(db, kind, matches), p, n);
    if |shown| == 0 {
      return Page([], total, p, n);
    }
    PageShowsRows(db, kind, matches, p, n);
    var items := new Loaded[|shown|](i requires 0 <= i < |shown| && Live(db, Key(kind, shown[i].id))
                                     => Loaded(db.rows[Key(kind, shown[i].id)], []));
    server.Interleave(late);
    AttachRevisions(items, shown, server.store.Tables(), kind);
    result := Page(items[..], total, p, n);
  }

  /**
   Whatever is committed between the page and its revisions, an item has its whole history in
   order, one revision per commit more than its row's version, and the row's status and evidence
   are those of the revision at that version. With nothing committed it is what `Get` returns.
   */
  lemma ListedItemFits(t: System, late: seq<Event>, key: Key)
    requires SystemValid(t) && Live(t.db, key)
    ensures var got := Loaded(t.db.rows[key], FindRevisions(Run(t, late).db, key));
            && Contiguous(got.revisions)
            && 1 <= got.row.version
            && |got.revisions| == got.row.version + |Commits(t, late, key)|
            && got.revisions[got.row.version - 1].status == got.row.status
            && got.revisions[got.row.version - 1].evidence == got.row.fields.evidence
            && (Commits(t, late, key) == [] ==> Get(t.db, key) == Ok(got))
  {
    hide DbValid, Run, Commits, History, OrderByVersion;
    RunKeepsValid(t, late);
    RunExtends(t, late);
    HistoryIsCommits(t, late, key);
    RowIsItsRevision(t.db, key);
    RowIsItsRevision(Run(t, late).db, key);
    var h := History(t.db.revisions, key);
    assert h + RevisionsOf([]) == h;
  }

  lemma RowIsItsRevision(db: Db, key: Key)
    requires DbValid(db) && key in db.rows
    ensures var h := History(db.revisions, key);
            && FindRevisions(db, key) == h && Contiguous(h) && 1 <= db.rows[key].version == |h|
            && h[db.rows[key].version - 1].status == db.rows[key].status
            && h[db.rows[key].version - 1].evidence == db.rows[key].fields.evidence
  {
    assert RecordValid(db, key);
    OrderOfContiguous(History(db.revisions, key));
  }

  lemma PageShowsRows(db: Db, kind: Kind, matches: Row -> bool, page: nat, pageSize: nat)
    ensures var shown := Shown(Listed(db, kind, matches), page, pageSize);
            forall i :: 0 <= i < |shown| ==> Live(db, Key(kind, shown[i].id))
  {
    hide Listed, Selected, OffsetOf;
    var order := Listed(db, kind, matches);
    var shown := Shown(order, page, pageSize);
    forall i | 0 <= i < |shown| ensures Live(db, Key(kind, shown[i].id)) {
      assert shown[i] in order;
      EntriesNameRows(db, kind, matches, shown[i]);
    }
  }
}
