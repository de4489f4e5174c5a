/** The alert centre: one ordered page out of two sources. */
module AlertCenter {
  import opened Options
  import opened Text
  import opened Sorting

  datatype Category = ALARM | OCCURRENCE

  datatype ItemState =
    | ACTIVE_UNACKNOWLEDGED | ACTIVE_ACKNOWLEDGED | RESOLVED | SUPPRESSED
    | UNACKNOWLEDGED | ACKNOWLEDGED | QUIET_24H | CLOSED

  datatype Item = Item(id: string, category: Category, state: ItemState, lastSeenAt: int)

  datatype AlarmRow = AlarmRow(
    id: string, endedAt: Option<int>, acknowledgedAt: Option<int>, updatedAt: int, closedByOperator: bool)

  datatype OccurrenceRow = OccurrenceRow(
    id: string, closedAt: Option<int>, acknowledgedAt: Option<int>, lastSeenAt: int, quiet: bool)

  function AlarmItem(row: AlarmRow): Item {
    var state :=
      if row.endedAt.Some? then (if row.closedByOperator then SUPPRESSED else RESOLVED)
      else if row.acknowledgedAt.Some? then ACTIVE_ACKNOWLEDGED
      else ACTIVE_UNACKNOWLEDGED;
    Item(row.id, ALARM, state, row.updatedAt)
  }

  function OccurrenceItem(row: OccurrenceRow): Item {
    var state :=
      if row.acknowledgedAt.Some? then ACKNOWLEDGED
      else if row.closedAt.None? then UNACKNOWLEDGED
      else if row.quiet then QUIET_24H
      else CLOSED;
    Item(row.id, OCCURRENCE, state, row.lastSeenAt)
  }

  // ----- the comparator

  function Priority(item: Item): nat {
    match item.category
    case ALARM =>
      if item.state == ACTIVE_UNACKNOWLEDGED then 0
      else if item.state == ACTIVE_ACKNOWLEDGED then 1
      else 3
    case OCCURRENCE => if item.state == UNACKNOWLEDGED then 2 else 3
  }

  function Compare(left: Item, right: Item): int {
    var byPriority := Priority(left) - Priority(right);
    if byPriority != 0 then byPriority
    else
      var byLastSeen := right.lastSeenAt - left.lastSeenAt;
      if byLastSeen != 0 then byLastSeen
      else if Less(left.id, right.id) then -1
      else if Less(right.id, left.id) then 1
      else 0
  }

  predicate ItemAtMost(left: Item, right: Item) {
    Compare(left, right) <= 0
  }

  lemma ItemOrderIsTotal()
    ensures TotalPreorder(ItemAtMost)
  {
    forall a, b ensures ItemAtMost(a, b) || ItemAtMost(b, a) {
      LessIsTotal(a.id, b.id);
    }
    forall a, b, c | ItemAtMost(a, b) && ItemAtMost(b, c) ensures ItemAtMost(a, c) {
      LessIsTotal(a.id, c.id);
      LessIsTotal(b.id, c.id);
      LessIsTotal(a.id, b.id);
      if Priority(a) == Priority(b) == Priority(c) && a.lastSeenAt == b.lastSeenAt == c.lastSeenAt {
        AtMostIsTransitive(a.id, b.id, c.id);
      }
    }
  }

  // ----- the request and its answer

  const DEFAULT_LIMIT := 50
  const MAX_LIMIT := 100

  /** What is asked; which sources can match at all is decided by the filters. */
  datatype Query = Query(limit: Option<int>, offset: Option<int>, wantAlarms: bool, wantOccurrences: bool)

  datatype Page = Page(items: seq<Item>, total: nat, limit: nat, offset: nat, hasMore: bool)

  function ClampLimit(value: Option<int>): (r: nat)
    ensures 1 <= r <= MAX_LIMIT
  {
    var asked := if value.Some? then value.value else DEFAULT_LIMIT;
    var atLeastOne := if asked < 1 then 1 else asked;
    if atLeastOne > MAX_LIMIT then MAX_LIMIT else atLeastOne
  }

  function ClampOffset(value: Option<int>): nat {
    var asked := if value.Some? then value.value else 0;
    if asked < 0 then 0 else asked
  }

  /** `s.slice(from, to)` */
  function Slice<T>(s: seq<T>, from: nat, to: nat): seq<T>
    requires from <= to
  {
    if |s| <= from then [] else if |s| <= to then s[from..] else s[from..to]
  }

  function Items<T>(rows: seq<T>, toItem: T -> Item): seq<Item> {
    seq(|rows|, i requires 0 <= i < |rows| => toItem(rows[i]))
  }

  /** A source that cannot match is not asked. */
  function SourceItems<T>(wanted: bool, rows: seq<T>, toItem: T -> Item): seq<Item> {
    if wanted then Items(rows, toItem) else []
  }

  /**
   * `alarms` and `occurrences` are all the matching rows of each source, in the
   * order the source delivers them; the source is asked for the first
   * offset + limit of them and for their number.
   */
  function List(query: Query, alarms: seq<AlarmRow>, occurrences: seq<OccurrenceRow>): Page {
    var limit, offset := ClampLimit(query.limit), ClampOffset(query.offset);
    var take := offset + limit;
    var alarmItems := SourceItems(query.wantAlarms, Slice(alarms, 0, take), AlarmItem);
    var occurrenceItems := SourceItems(query.wantOccurrences, Slice(occurrences, 0, take), OccurrenceItem);
    var items := PageItems(alarmItems, occurrenceItems, offset, limit);
    var total := (if query.wantAlarms then |alarms| else 0) + (if query.wantOccurrences then |occurrences| else 0);
    Page(items, total, limit, offset, offset + |items| < total)
  }

  function PageItems(some: seq<Item>, others: seq<Item>, offset: nat, limit: nat): seq<Item> {
    Slice(Sort(some + others, ItemAtMost), offset, offset + limit)
  }

  // ----- the page of the whole union

  function Union(query: Query, alarms: seq<AlarmRow>, occurrences: seq<OccurrenceRow>): seq<Item> {
    Sort(SourceItems(query.wantAlarms, alarms, AlarmItem)
         + SourceItems(query.wantOccurrences, occurrences, OccurrenceItem),
         ItemAtMost)
  }

  ghost predicate InPageOrder(alarms: seq<AlarmRow>, occurrences: seq<OccurrenceRow>) {
    Sorted(Items(alarms, AlarmItem), ItemAtMost) && Sorted(Items(occurrences, OccurrenceItem), ItemAtMost)
  }

  /** Fifty rows unless asked otherwise, from one to a hundred, starting at the first unless later. */
  ghost predicate Answers(page: Page, query: Query) {
    && (query.limit.None? ==> page.limit == 50)
    && (query.limit.Some? ==>
          page.limit == if query.limit.value < 1 then 1 else if query.limit.value > 100 then 100 else query.limit.value)
    && page.offset == if query.offset.Some? && query.offset.value > 0 then query.offset.value else 0
  }

  /**
   * Sources that deliver in page order give exact pages: the page is that slice
   * of the sorted union, and there is more exactly when the union goes on.
   */
  lemma PageIsExact(query: Query, alarms: seq<AlarmRow>, occurrences: seq<OccurrenceRow>)
    requires InPageOrder(alarms, occurrences)
    ensures IsPageOf(List(query, alarms, occurrences), Union(query, alarms, occurrences))
    ensures Answers(List(query, alarms, occurrences), query)
  {
    var page, union := List(query, alarms, occurrences), Union(query, alarms, occurrences);
    ItemsAreExact(query, alarms, occurrences);
    TotalIsExact(query, alarms, occurrences);
    SliceLength(union, page.offset, page.limit);
  }

  ghost predicate IsPageOf(page: Page, union: seq<Item>) {
    && page.items == Slice(union, page.offset, page.offset + page.limit)
    && page.total == |union|
    && (page.hasMore <==> page.offset + page.limit < |union|)
  }

  lemma ItemsAreExact(query: Query, alarms: seq<AlarmRow>, occurrences: seq<OccurrenceRow>)
    requires InPageOrder(alarms, occurrences)
    ensures var limit, offset := ClampLimit(query.limit), ClampOffset(query.offset);
            List(query, alarms, occurrences).items == Slice(Union(query, alarms, occurrences), offset, offset + limit)
  {
    var some := SourceItems(query.wantAlarms, alarms, AlarmItem);
    var others := SourceItems(query.wantOccurrences, occurrences, OccurrenceItem);
    assert Sorted(some, ItemAtMost) && Sorted(others, ItemAtMost);
    ItemsAreOfPrefixes(query, alarms, occurrences);
    SortedUnionPage(some, others, ClampOffset(query.offset), ClampLimit(query.limit));
    assert Union(query, alarms, occurrences) == Sort(some + others, ItemAtMost);
  }

  /** Taking the first rows of a source and turning them into items commute. */
  lemma ItemsAreOfPrefixes(query: Query, alarms: seq<AlarmRow>, occurrences: seq<OccurrenceRow>)
    ensures var some, others :=
              SourceItems(query.wantAlarms, alarms, AlarmItem),
                  SourceItems(query.wantOccurrences, occurrences, OccurrenceItem);
            var limit, offset := ClampLimit(query.limit), ClampOffset(query.offset);
            List(query, alarms, occurrences).items
            == PageItems(Slice(some, 0, offset + limit), Slice(others, 0, offset + limit), offset, limit)
  {
    var take := ClampOffset(query.offset) + ClampLimit(query.limit);
    var some := SourceItems(query.wantAlarms, Slice(alarms, 0, take), AlarmItem);
    var others := SourceItems(query.wantOccurrences, Slice(occurrences, 0, take), OccurrenceItem);
    assert List(query, alarms, occurrences).items
        == PageItems(some, others, ClampOffset(query.offset), ClampLimit(query.limit));
    FirstItems(query.wantAlarms, alarms, AlarmItem, take);
    FirstItems(query.wantOccurrences, occurrences, OccurrenceItem, take);
  }

  lemma TotalIsExact(query: Query, alarms: seq<AlarmRow>, occurrences: seq<OccurrenceRow>)
    ensures List(query, alarms, occurrences).total == |Union(query, alarms, occurrences)|
  {
    SortPermutes(SourceItems(query.wantAlarms, alarms, AlarmItem)
                 + SourceItems(query.wantOccurrences, occurrences, OccurrenceItem), ItemAtMost);
  }

  lemma SortedUnionPage(some: seq<Item>, others: seq<Item>, offset: nat, limit: nat)
    requires Sorted(some, ItemAtMost) && Sorted(others, ItemAtMost)
    ensures PageItems(Slice(some, 0, offset + limit), Slice(others, 0, offset + limit), offset, limit)
            == Slice(Sort(some + others, ItemAtMost), offset, offset + limit)
  {
    ItemOrderIsTotal();
    PrefixesSuffice(some, others, offset + limit, ItemAtMost);
    SliceOfPrefix(Sort(Slice(some, 0, offset + limit) + Slice(others, 0, offset + limit), ItemAtMost),
                  Sort(some + others, ItemAtMost), offset, offset + limit);
  }

  lemma SliceLength<T>(s: seq<T>, offset: nat, limit: nat)
    requires limit > 0
    ensures offset + |Slice(s, offset, offset + limit)| < |s| <==> offset + limit < |s|
  {
  }

  lemma FirstItems<T>(wanted: bool, rows: seq<T>, toItem: T -> Item, n: nat)
    ensures SourceItems(wanted, Slice(rows, 0, n), toItem) == Slice(SourceItems(wanted, rows, toItem), 0, n)
  {
  }

  lemma SliceOfPrefix<T>(a: seq<T>, b: seq<T>, from: nat, to: nat)
    requires from <= to && Slice(a, 0, to) == Slice(b, 0, to)
    ensures Slice(a, from, to) == Slice(b, from, to)
  {
    assert forall s: seq<T> :: Slice(s, from, to) == Slice(Slice(s, 0, to), from, to);
  }

  // ----- sorting a union only needs the head of each part

  function Merge<T>(a: seq<T>, b: seq<T>, leq: (T, T) -> bool): (r: seq<T>)
    ensures |r| == |a| + |b|
  {
    if a == [] then b
    else if b == [] then a
    else if leq(a[0], b[0]) then [a[0]] + Merge(a[1..], b, leq)
    else [b[0]] + Merge(a, b[1..], leq)
  }

  lemma {:induction false} SortIsMerge<T(!new)>(a: seq<T>, b: seq<T>, leq: (T, T) -> bool)
    requires TotalPreorder(leq) && Sorted(a, leq) && Sorted(b, leq)
    ensures Sort(a + b, leq) == Merge(a, b, leq)
  {
    if a == [] {
      assert a + b == b;
      SortIsIdempotent(b, leq);
    } else {
      assert (a + b)[0] == a[0] && (a + b)[1..] == a[1..] + b;
      SortIsMerge(a[1..], b, leq);
      InsertIntoMerge(a, b, leq);
    }
  }

  lemma {:induction false} InsertIntoMerge<T(!new)>(a: seq<T>, b: seq<T>, leq: (T, T) -> bool)
    requires TotalPreorder(leq) && Sorted(a, leq) && Sorted(b, leq) && a != []
    ensures Insert(a[0], Merge(a[1..], b, leq), leq) == Merge(a, b, leq)
    decreases |b|
  {
    var rest := Merge(a[1..], b, leq);
    if b == [] {
      assert |a| > 1 ==> rest[0] == a[1];
      assert a == [a[0]] + a[1..];
    } else if leq(a[0], b[0]) {
      assert rest[0] == b[0] || rest[0] == a[1];
    } else {
      assert |a| > 1 ==> !leq(a[1], b[0]) by {
        assert |a| > 1 ==> leq(a[0], a[1]);
      }
      assert rest == [b[0]] + Merge(a[1..], b[1..], leq);
      InsertIntoMerge(a, b[1..], leq);
    }
  }

  /** The first n of a merge come from the first n of each part. */
  lemma {:induction false} MergeOfPrefixes<T>(a: seq<T>, b: seq<T>, p: nat, q: nat, n: nat, leq: (T, T) -> bool)
    requires n <= p && n <= q
    ensures Slice(Merge(Slice(a, 0, p), Slice(b, 0, q), leq), 0, n) == Slice(Merge(a, b, leq), 0, n)
  {
    var a', b' := Slice(a, 0, p), Slice(b, 0, q);
    if n > 0 && a != [] && b != [] {
      if leq(a[0], b[0]) {
        SliceTail(a, p);
        MergeOfPrefixes(a[1..], b, p - 1, q, n - 1, leq);
        SliceOfCons(a[0], Merge(a'[1..], b', leq), n);
        SliceOfCons(a[0], Merge(a[1..], b, leq), n);
      } else {
        SliceTail(b, q);
        MergeOfPrefixes(a, b[1..], p, q - 1, n - 1, leq);
        SliceOfCons(b[0], Merge(a', b'[1..], leq), n);
        SliceOfCons(b[0], Merge(a, b[1..], leq), n);
      }
    }
  }

  lemma SliceTail<T>(s: seq<T>, n: nat)
    requires n > 0 && s != []
    ensures Slice(s, 0, n) != [] && Slice(s, 0, n)[0] == s[0]
    ensures Slice(s, 0, n)[1..] == Slice(s[1..], 0, n - 1)
  {
  }

  lemma SliceOfCons<T>(x: T, s: seq<T>, n: nat)
    requires n > 0
    ensures Slice([x] + s, 0, n) == [x] + Slice(s, 0, n - 1)
  {
  }

  lemma PrefixesSuffice<T(!new)>(a: seq<T>, b: seq<T>, n: nat, leq: (T, T) -> bool)
    requires TotalPreorder(leq) && Sorted(a, leq) && Sorted(b, leq)
    ensures Slice(Sort(Slice(a, 0, n) + Slice(b, 0, n), leq), 0, n) == Slice(Sort(a + b, leq), 0, n)
  {
    SortIsMerge(a, b, leq);
    SortIsMerge(Slice(a, 0, n), Slice(b, 0, n), leq);
    MergeOfPrefixes(a, b, n, n, n, leq);
  }

  // ----- reading page after page

  /** The page at an offset, everything else of the request fixed. */
  ghost function Reader(query: Query, alarms: seq<AlarmRow>, occurrences: seq<OccurrenceRow>): nat -> Page {
    (offset: nat) => List(query.(offset := Some(offset)), alarms, occurrences)
  }

  /** Reading on from an offset, page after page, as long as there is more. */
  ghost function Walk(read: nat -> Page, offset: nat, total: nat): seq<Item>
    decreases total - offset
  {
    var page := read(offset);
    if page.hasMore && offset < total && page.limit > 0 then page.items + Walk(read, offset + page.limit, total)
    else page.items
  }

  /** The pages put together are the whole union: no gap, no repeat. */
  lemma WalkReadsEverything(query: Query, alarms: seq<AlarmRow>, occurrences: seq<OccurrenceRow>)
    requires InPageOrder(alarms, occurrences)
    ensures var union := Union(query, alarms, occurrences);
            Walk(Reader(query, alarms, occurrences), 0, |union|) == union
  {
    var union, read := Union(query, alarms, occurrences), Reader(query, alarms, occurrences);
    forall offset: nat
      ensures IsPageOf(read(offset), union) && read(offset).offset == offset
              && read(offset).limit == ClampLimit(query.limit)
    {
      PageIsExact(query.(offset := Some(offset)), alarms, occurrences);
    }
    WalkFrom(read, union, 0, ClampLimit(query.limit));
  }

  lemma {:induction false} WalkFrom(read: nat -> Page, union: seq<Item>, offset: nat, limit: nat)
    requires limit > 0
    requires forall o: nat :: IsPageOf(read(o), union) && read(o).offset == o && read(o).limit == limit
    ensures Walk(read, offset, |union|) == Slice(union, offset, offset + |union|)
    decreases |union| - offset
  {
    if read(offset).hasMore {
      WalkFrom(read, union, offset + limit, limit);
      SlicesMeet(union, offset, limit);
    } else {
      LastSlice(union, offset, limit);
    }
  }

  lemma SlicesMeet<T>(s: seq<T>, offset: nat, limit: nat)
    ensures Slice(s, offset, offset + limit) + Slice(s, offset + limit, offset + limit + |s|)
            == Slice(s, offset, offset + |s|)
  {
  }

  lemma LastSlice<T>(s: seq<T>, offset: nat, limit: nat)
    requires offset + limit >= |s|
    ensures Slice(s, offset, offset + limit) == Slice(s, offset, offset + |s|)
  {
  }

  // ----- the order in which the database delivers

  /** endedAt and acknowledgedAt ascending with nulls first, updatedAt descending, id ascending. */
  predicate DbAlarmAtMost(a: AlarmRow, b: AlarmRow) {
    if a.endedAt != b.endedAt then EarlierNullFirst(a.endedAt, b.endedAt)
    else if a.acknowledgedAt != b.acknowledgedAt then EarlierNullFirst(a.acknowledgedAt, b.acknowledgedAt)
    else RecentFirst(a.updatedAt, a.id, b.updatedAt, b.id)
  }

  predicate DbOccurrenceAtMost(a: OccurrenceRow, b: OccurrenceRow) {
    if a.closedAt != b.closedAt then EarlierNullFirst(a.closedAt, b.closedAt)
    else if a.acknowledgedAt != b.acknowledgedAt then EarlierNullFirst(a.acknowledgedAt, b.acknowledgedAt)
    else RecentFirst(a.lastSeenAt, a.id, b.lastSeenAt, b.id)
  }

  predicate EarlierNullFirst(a: Option<int>, b: Option<int>) {
    a.None? || (b.Some? && a.value < b.value)
  }

  predicate RecentFirst(timeA: int, idA: string, timeB: int, idB: string) {
    timeA > timeB || (timeA == timeB && AtMost(idA, idB))
  }

  lemma DbOrdersAreTotal()
    ensures TotalPreorder(DbAlarmAtMost) && TotalPreorder(DbOccurrenceAtMost)
  {
    forall a: AlarmRow, b: AlarmRow ensures DbAlarmAtMost(a, b) || DbAlarmAtMost(b, a) {
      LessIsTotal(a.id, b.id);
    }
    forall a: AlarmRow, b: AlarmRow, c: AlarmRow | DbAlarmAtMost(a, b) && DbAlarmAtMost(b, c)
      ensures DbAlarmAtMost(a, c)
    {
      RecentFirstIsTransitive(a.updatedAt, a.id, b.updatedAt, b.id, c.updatedAt, c.id);
    }
    forall a: OccurrenceRow, b: OccurrenceRow ensures DbOccurrenceAtMost(a, b) || DbOccurrenceAtMost(b, a) {
      LessIsTotal(a.id, b.id);
    }
    forall a: OccurrenceRow, b: OccurrenceRow, c: OccurrenceRow | DbOccurrenceAtMost(a, b) && DbOccurrenceAtMost(b, c)
      ensures DbOccurrenceAtMost(a, c)
    {
      RecentFirstIsTransitive(a.lastSeenAt, a.id, b.lastSeenAt, b.id, c.lastSeenAt, c.id);
    }
  }

  lemma RecentFirstIsTransitive(timeA: int, idA: string, timeB: int, idB: string, timeC: int, idC: string)
    ensures RecentFirst(timeA, idA, timeB, idB) && RecentFirst(timeB, idB, timeC, idC) ==>
              RecentFirst(timeA, idA, timeC, idC)
  {
    if AtMost(idA, idB) && AtMost(idB, idC) {
      AtMostIsTransitive(idA, idB, idC);
    }
  }

  /** Acknowledged or ended: the rows whose database order looks at another time first. */
  predicate Settled(row: AlarmRow) {
    row.endedAt.Some? || row.acknowledgedAt.Some?
  }

  predicate SettledOccurrence(row: OccurrenceRow) {
    row.closedAt.Some? || row.acknowledgedAt.Some?
  }

  predicate SettledAlike(a: AlarmRow, b: AlarmRow) {
    Settled(a) && Settled(b) && a.endedAt.Some? == b.endedAt.Some?
  }

  /**
   * Row against row: open alarms nobody acknowledged, the acknowledged ones, open occurrences
   * nobody acknowledged, and then everything settled; of one kind the most recent first.
   */
  lemma RowsAreOrdered(a: AlarmRow, b: AlarmRow, o: OccurrenceRow, p: OccurrenceRow)
    ensures ItemAtMost(AlarmItem(a), OccurrenceItem(o)) <==>
            a.endedAt.None? || (SettledOccurrence(o) && RecentFirst(a.updatedAt, a.id, o.lastSeenAt, o.id))
    ensures ItemAtMost(OccurrenceItem(o), AlarmItem(a)) <==>
            a.endedAt.Some? && (!SettledOccurrence(o) || RecentFirst(o.lastSeenAt, o.id, a.updatedAt, a.id))
    ensures ItemAtMost(AlarmItem(a), AlarmItem(b)) <==>
            if !Settled(a) then Settled(b) || RecentFirst(a.updatedAt, a.id, b.updatedAt, b.id)
            else if a.endedAt.None? then
              b.endedAt.Some? || (Settled(b) && RecentFirst(a.updatedAt, a.id, b.updatedAt, b.id))
            else b.endedAt.Some? && RecentFirst(a.updatedAt, a.id, b.updatedAt, b.id)
    ensures ItemAtMost(OccurrenceItem(o), OccurrenceItem(p)) <==>
            if !SettledOccurrence(o) then SettledOccurrence(p) || RecentFirst(o.lastSeenAt, o.id, p.lastSeenAt, p.id)
            else SettledOccurrence(p) && RecentFirst(o.lastSeenAt, o.id, p.lastSeenAt, p.id)
  {
    LessIsTotal(a.id, b.id);
    LessIsTotal(a.id, o.id);
    LessIsTotal(o.id, p.id);
  }

  /**
   * The database order is the page order exactly when, among the acknowledged
   * active alarms and among the ended ones, it happens to put the recently
   * updated first.
   */
  lemma DbAlarmsInPageOrder(rows: seq<AlarmRow>)
    requires Sorted(rows, DbAlarmAtMost)
    ensures Sorted(Items(rows, AlarmItem), ItemAtMost) <==>
            forall i, j :: 0 <= i < j < |rows| ==> SettledAlike(rows[i], rows[j]) ==>
              RecentFirst(rows[i].updatedAt, rows[i].id, rows[j].updatedAt, rows[j].id)
  {
    var items := Items(rows, AlarmItem);
    forall i, j | 0 <= i < j < |rows|
      ensures ItemAtMost(items[i], items[j]) <==>
              (SettledAlike(rows[i], rows[j]) ==>
               RecentFirst(rows[i].updatedAt, rows[i].id, rows[j].updatedAt, rows[j].id))
    {
      assert DbAlarmAtMost(rows[i], rows[j]);
      assert items[i] == AlarmItem(rows[i]) && items[j] == AlarmItem(rows[j]);
      LessIsTotal(rows[i].id, rows[j].id);
    }
  }

  /** The same for occurrences: exactly when the closed or acknowledged ones come recently seen first. */
  lemma DbOccurrencesInPageOrder(rows: seq<OccurrenceRow>)
    requires Sorted(rows, DbOccurrenceAtMost)
    ensures Sorted(Items(rows, OccurrenceItem), ItemAtMost) <==>
            forall i, j :: 0 <= i < j < |rows| ==> (SettledOccurrence(rows[i]) && SettledOccurrence(rows[j])) ==>
              RecentFirst(rows[i].lastSeenAt, rows[i].id, rows[j].lastSeenAt, rows[j].id)
  {
    var items := Items(rows, OccurrenceItem);
    forall i, j | 0 <= i < j < |rows|
      ensures ItemAtMost(items[i], items[j]) <==>
              ((SettledOccurrence(rows[i]) && SettledOccurrence(rows[j])) ==>
                 RecentFirst(rows[i].lastSeenAt, rows[i].id, rows[j].lastSeenAt, rows[j].id))
    {
      assert DbOccurrenceAtMost(rows[i], rows[j]);
      assert items[i] == OccurrenceItem(rows[i]) && items[j] == OccurrenceItem(rows[j]);
      LessIsTotal(rows[i].id, rows[j].id);
    }
  }

  /** Open, unacknowledged rows always arrive in page order. */
  lemma UnsettledRowsInPageOrder(alarms: seq<AlarmRow>, occurrences: seq<OccurrenceRow>)
    requires Sorted(alarms, DbAlarmAtMost) && Sorted(occurrences, DbOccurrenceAtMost)
    requires forall row :: row in alarms ==> !Settled(row)
    requires forall row :: row in occurrences ==> row.closedAt.None? && row.acknowledgedAt.None?
    ensures InPageOrder(alarms, occurrences)
  {
    DbAlarmsInPageOrder(alarms);
    DbOccurrencesInPageOrder(occurrences);
  }

  /**
   * Two acknowledged alarms, the earlier acknowledged one updated earlier: with
   * pages of one row the first is shown on both pages and the second on none.
   */
  lemma AcknowledgedAlarmIsSkipped()
    ensures var first, second := AlarmRow("a", None, Some(10), 10, false), AlarmRow("b", None, Some(20), 20, false);
            var rows := [first, second];
            var page := (offset: int) => List(Query(Some(1), Some(offset), true, false), rows, []);
            && Sorted(rows, DbAlarmAtMost)
            && page(0).items == [AlarmItem(first)] && page(1).items == [AlarmItem(first)]
            && page(0).hasMore && !page(1).hasMore
            && Union(Query(Some(1), Some(0), true, false), rows, []) == [AlarmItem(second), AlarmItem(first)]
  {
    var first, second := AlarmRow("a", None, Some(10), 10, false), AlarmRow("b", None, Some(20), 20, false);
    var rows := [first, second];
    var a, b := AlarmItem(first), AlarmItem(second);
    assert !ItemAtMost(a, b) && ItemAtMost(b, a);
    SortOne(a);
    SortTwo(a, b);
    assert Slice(rows, 0, 1) == [first] && Slice(rows, 0, 2) == rows;
    assert Items([first], AlarmItem) + [] == [a] && Items(rows, AlarmItem) + [] == [a, b];
  }

  lemma SortOne(a: Item)
    ensures Sort([a], ItemAtMost) == [a]
  {
    assert [a][1..] == [];
  }

  lemma SortTwo(a: Item, b: Item)
    requires !ItemAtMost(a, b)
    ensures Sort([a, b], ItemAtMost) == [b, a]
  {
    assert [a, b][1..] == [b];
    SortOne(b);
    assert [b][1..] == [];
    assert Insert(a, [], ItemAtMost) == [a];
  }
}
