/** Exactly when the pages of the alert centre are exact. */
module AlertCenterLaws {
  import opened Options
  import opened Text
  import opened Sorting
  import opened AlertCenter

  ghost predicate DistinctIds(items: seq<Item>) {
    forall i, j :: 0 <= i < j < |items| ==> items[i].id != items[j].id
  }

  function AllItems(query: Query, alarms: seq<AlarmRow>, occurrences: seq<OccurrenceRow>): seq<Item> {
    SourceItems(query.wantAlarms, alarms, AlarmItem) + SourceItems(query.wantOccurrences, occurrences, OccurrenceItem)
  }

  /** No item stands deeper in its own source than in the sorted union. */
  ghost predicate InReach(source: seq<Item>, union: seq<Item>) {
    forall i, k :: 0 <= i < |source| && 0 <= k < |union| && source[i] == union[k] ==> i <= k
  }

  function At(query: Query, limit: Option<int>, offset: Option<int>): Query {
    query.(limit := limit, offset := offset)
  }

  ghost predicate EveryPageIsExact(query: Query, alarms: seq<AlarmRow>, occurrences: seq<OccurrenceRow>) {
    forall limit, offset :: IsPageOf(List(At(query, limit, offset), alarms, occurrences),
                                     Union(query, alarms, occurrences))
  }

  // ----- the head of a sorted sequence can be told from any part that holds it

  lemma NoTies(items: seq<Item>, a: Item, b: Item)
    requires DistinctIds(items) && a in items && b in items && ItemAtMost(a, b) && ItemAtMost(b, a)
    ensures a == b
  {
    LessIsTotal(a.id, b.id);
    var i :| 0 <= i < |items| && items[i] == a;
    var j :| 0 <= j < |items| && items[j] == b;
  }

  ghost predicate Untied(union: seq<Item>) {
    forall a, b :: a in union && b in union && ItemAtMost(a, b) && ItemAtMost(b, a) ==> a == b
  }

  lemma {:induction false} HeadIsEnough(union: seq<Item>, part: seq<Item>, n: nat)
    requires Sorted(union, ItemAtMost) && Sorted(part, ItemAtMost) && Distinct(union) && Distinct(part) && Untied(union)
    requires forall x :: x in part ==> x in union
    requires forall k :: 0 <= k < |union| && k < n ==> union[k] in part
    ensures Slice(part, 0, n) == Slice(union, 0, n)
  {
    if n == 0 {
      assert Slice(part, 0, 0) == [] == Slice(union, 0, 0);
    } else if union == [] {
      SameEmptiness(union, part);
    } else {
      SameFirst(union, part);
      TailsAgree(union, part, n);
      HeadIsEnough(union[1..], part[1..], n - 1);
      SlicesExtend(union, part, n);
    }
  }

  lemma SlicesExtend<T>(a: seq<T>, b: seq<T>, n: nat)
    requires n > 0 && a != [] && b != [] && a[0] == b[0] && Slice(a[1..], 0, n - 1) == Slice(b[1..], 0, n - 1)
    ensures Slice(a, 0, n) == Slice(b, 0, n)
  {
    assert a == [a[0]] + a[1..] && b == [b[0]] + b[1..];
    SliceOfCons(a[0], a[1..], n);
    SliceOfCons(b[0], b[1..], n);
  }

  lemma SameEmptiness(union: seq<Item>, part: seq<Item>)
    requires forall x :: x in part ==> x in union
    requires union != [] ==> union[0] in part
    ensures part == [] <==> union == []
  {
    if part != [] {
      assert part[0] in union;
    }
  }

  lemma SameFirst(union: seq<Item>, part: seq<Item>)
    requires Sorted(union, ItemAtMost) && Sorted(part, ItemAtMost) && Untied(union) && union != []
    requires (forall x :: x in part ==> x in union) && union[0] in part
    ensures part != [] && part[0] == union[0]
  {
    ItemOrderIsTotal();
    var i :| 0 <= i < |part| && part[i] == union[0];
    assert part[0] in part;
    var j :| 0 <= j < |union| && union[j] == part[0];
    assert ItemAtMost(part[0], union[0]) && ItemAtMost(union[0], part[0]);
  }

  lemma TailsAgree(union: seq<Item>, part: seq<Item>, n: nat)
    requires Sorted(union, ItemAtMost) && Sorted(part, ItemAtMost) && Distinct(union) && Distinct(part) && Untied(union)
    requires n > 0 && union != [] && part != [] && part[0] == union[0]
    requires forall x :: x in part ==> x in union
    requires forall k :: 0 <= k < |union| && k < n ==> union[k] in part
    ensures Sorted(union[1..], ItemAtMost) && Sorted(part[1..], ItemAtMost)
    ensures Distinct(union[1..]) && Distinct(part[1..]) && Untied(union[1..])
    ensures forall x :: x in part[1..] ==> x in union[1..]
    ensures forall k :: 0 <= k < |union[1..]| && k < n - 1 ==> union[1..][k] in part[1..]
  {
    forall x | x in part[1..] ensures x in union[1..] {
      var i :| 0 <= i < |part[1..]| && part[1..][i] == x;
      assert part[i + 1] == x && x in part;
      var j :| 0 <= j < |union| && union[j] == x;
      assert union[1..][j - 1] == x;
    }
    forall k | 0 <= k < |union[1..]| && k < n - 1 ensures union[1..][k] in part[1..] {
      assert union[k + 1] in part;
      var i :| 0 <= i < |part| && part[i] == union[k + 1];
      assert part[1..][i - 1] == union[1..][k];
    }
    assert forall x :: x in union[1..] ==> x in union;
  }

  // ----- in reach is enough

  lemma UnionIsOrdered(some: seq<Item>, others: seq<Item>)
    requires DistinctIds(some + others)
    ensures var union := Sort(some + others, ItemAtMost);
            && Sorted(union, ItemAtMost) && Distinct(union) && Untied(union)
            && forall x :: x in union <==> x in some || x in others
  {
    var all := some + others;
    ItemOrderIsTotal();
    SortSorts(all, ItemAtMost);
    assert Distinct(all);
    SortKeepsDistinct(all, ItemAtMost);
    SortKeepsMembers(all, ItemAtMost);
    forall a, b | a in all && b in all && ItemAtMost(a, b) && ItemAtMost(b, a) ensures a == b {
      NoTies(all, a, b);
    }
  }

  lemma PrefixesAreDistinct(some: seq<Item>, others: seq<Item>, take: nat)
    requires DistinctIds(some + others)
    ensures DistinctIds(Slice(some, 0, take) + Slice(others, 0, take))
  {
    var a: seq<Item>, b: seq<Item>, all := Slice(some, 0, take), Slice(others, 0, take), some + others;
    var both: seq<Item> := a + b;
    forall i, j | 0 <= i < j < |both| ensures both[i].id != both[j].id {
      var m, n := if i < |a| then i else i - |a| + |some|, if j < |a| then j else j - |a| + |some|;
      assert all[m] == both[i] && all[n] == both[j];
    }
  }

  lemma InReachIsEnough(some: seq<Item>, others: seq<Item>, take: nat)
    requires DistinctIds(some + others)
    requires InReach(some, Sort(some + others, ItemAtMost)) && InReach(others, Sort(some + others, ItemAtMost))
    ensures Slice(Sort(Slice(some, 0, take) + Slice(others, 0, take), ItemAtMost), 0, take)
            == Slice(Sort(some + others, ItemAtMost), 0, take)
  {
    var union, part := Sort(some + others, ItemAtMost), Sort(Slice(some, 0, take) + Slice(others, 0, take), ItemAtMost);
    UnionIsOrdered(some, others);
    PrefixesAreDistinct(some, others, take);
    UnionIsOrdered(Slice(some, 0, take), Slice(others, 0, take));
    forall k | 0 <= k < |union| && k < take ensures union[k] in part {
      HeadIsInPrefix(some, others, union, k, take);
    }
    HeadIsEnough(union, part, take);
  }

  lemma HeadIsInPrefix(some: seq<Item>, others: seq<Item>, union: seq<Item>, k: nat, take: nat)
    requires InReach(some, union) && InReach(others, union) && k < |union| && k < take
    requires union[k] in some || union[k] in others
    ensures union[k] in Slice(some, 0, take) || union[k] in Slice(others, 0, take)
  {
    if union[k] in some {
      var i :| 0 <= i < |some| && some[i] == union[k];
      assert Slice(some, 0, take)[i] == union[k];
    } else {
      var i :| 0 <= i < |others| && others[i] == union[k];
      assert Slice(others, 0, take)[i] == union[k];
    }
  }

  lemma UnionPageInReach(some: seq<Item>, others: seq<Item>, offset: nat, limit: nat)
    requires DistinctIds(some + others)
    requires InReach(some, Sort(some + others, ItemAtMost)) && InReach(others, Sort(some + others, ItemAtMost))
    ensures PageItems(Slice(some, 0, offset + limit), Slice(others, 0, offset + limit), offset, limit)
            == PageItems(some, others, offset, limit)
  {
    var take := offset + limit;
    InReachIsEnough(some, others, take);
    SliceOfPrefix(Sort(Slice(some, 0, take) + Slice(others, 0, take), ItemAtMost), Sort(some + others, ItemAtMost),
                  offset, take);
  }

  lemma PageInReach(query: Query, alarms: seq<AlarmRow>, occurrences: seq<OccurrenceRow>)
    requires DistinctIds(AllItems(query, alarms, occurrences))
    requires InReach(SourceItems(query.wantAlarms, alarms, AlarmItem), Union(query, alarms, occurrences))
    requires InReach(SourceItems(query.wantOccurrences, occurrences, OccurrenceItem), Union(query, alarms, occurrences))
    ensures IsPageOf(List(query, alarms, occurrences), Union(query, alarms, occurrences))
  {
    var some, others := SourceItems(query.wantAlarms, alarms, AlarmItem),
        SourceItems(query.wantOccurrences, occurrences, OccurrenceItem);
    ItemsAreOfPrefixes(query, alarms, occurrences);
    UnionPageInReach(some, others, ClampOffset(query.offset), ClampLimit(query.limit));
    TotalIsExact(query, alarms, occurrences);
    SliceLength(Union(query, alarms, occurrences), ClampOffset(query.offset), ClampLimit(query.limit));
  }

  // ----- out of reach is missed

  /** The page of one item at an offset. */
  function PageOfOne(some: seq<Item>, others: seq<Item>, k: nat): seq<Item> {
    PageItems(Slice(some, 0, k + 1), Slice(others, 0, k + 1), k, 1)
  }

  /** The page of one item at the rank of an item that its source delivers too late does not show it. */
  lemma OutOfReachIsMissed(some: seq<Item>, others: seq<Item>, i: nat, k: nat)
    requires DistinctIds(some + others) && i < |some| && k < i
    ensures some[i] !in PageOfOne(some, others, k)
    ensures some[i] !in PageOfOne(others, some, k)
  {
    var a, b, all, x := Slice(some, 0, k + 1), Slice(others, 0, k + 1), some + others, some[i];
    assert all[i] == x;
    forall j | 0 <= j < |a| ensures a[j] != x {
      assert all[j] == a[j];
    }
    forall j | 0 <= j < |b| ensures b[j] != x {
      assert all[|some| + j] == b[j];
    }
    assert x !in a + b && x !in b + a;
    SortKeepsMembers(a + b, ItemAtMost);
    SortKeepsMembers(b + a, ItemAtMost);
    SliceKeepsMembers(Sort(a + b, ItemAtMost), k, k + 1);
    SliceKeepsMembers(Sort(b + a, ItemAtMost), k, k + 1);
  }

  lemma SliceKeepsMembers<T(!new)>(s: seq<T>, from: nat, to: nat)
    requires from <= to
    ensures forall x :: x in Slice(s, from, to) ==> x in s
  {
  }

  lemma DistinctEitherWay(some: seq<Item>, others: seq<Item>)
    requires DistinctIds(some + others)
    ensures DistinctIds(others + some)
  {
    var all, swapped := some + others, others + some;
    forall i, j | 0 <= i < j < |swapped| ensures swapped[i].id != swapped[j].id {
      var m, n := if i < |others| then |some| + i else i - |others|, if j < |others| then |some| + j else j - |others|;
      assert all[m] == swapped[i] && all[n] == swapped[j] && m != n;
    }
  }

  ghost predicate OnePages(some: seq<Item>, others: seq<Item>, union: seq<Item>) {
    forall k: nat :: PageOfOne(some, others, k) == Slice(union, k, k + 1)
  }

  lemma OnePagesReach(some: seq<Item>, others: seq<Item>, union: seq<Item>)
    requires DistinctIds(some + others) && OnePages(some, others, union)
    ensures InReach(some, union) && InReach(others, union)
  {
    DistinctEitherWay(some, others);
    forall i, k | 0 <= i < |some| && 0 <= k < |union| && some[i] == union[k] ensures i <= k {
      assert Slice(union, k, k + 1) == [union[k]];
      assert PageOfOne(some, others, k) == [union[k]];
      if k < i {
        OutOfReachIsMissed(some, others, i, k);
      }
    }
    forall i, k | 0 <= i < |others| && 0 <= k < |union| && others[i] == union[k] ensures i <= k {
      assert Slice(union, k, k + 1) == [union[k]];
      assert PageOfOne(some, others, k) == [union[k]];
      if k < i {
        OutOfReachIsMissed(others, some, i, k);
      }
    }
  }

  lemma PageOfOneIsListed(query: Query, alarms: seq<AlarmRow>, occurrences: seq<OccurrenceRow>, k: nat)
    ensures var page := List(At(query, Some(1), Some(k)), alarms, occurrences);
            page.offset == k && page.limit == 1
            && page.items == PageOfOne(SourceItems(query.wantAlarms, alarms, AlarmItem),
                                       SourceItems(query.wantOccurrences, occurrences, OccurrenceItem), k)
  {
    var one := At(query, Some(1), Some(k));
    assert ClampLimit(one.limit) == 1 && ClampOffset(one.offset) == k;
    ItemsAreOfPrefixes(one, alarms, occurrences);
  }

  lemma ExactPagesOfOne(query: Query, alarms: seq<AlarmRow>, occurrences: seq<OccurrenceRow>)
    requires EveryPageIsExact(query, alarms, occurrences)
    ensures OnePages(SourceItems(query.wantAlarms, alarms, AlarmItem),
                     SourceItems(query.wantOccurrences, occurrences, OccurrenceItem),
                     Union(query, alarms, occurrences))
  {
    var some, others := SourceItems(query.wantAlarms, alarms, AlarmItem),
        SourceItems(query.wantOccurrences, occurrences, OccurrenceItem);
    forall k: nat ensures PageOfOne(some, others, k) == Slice(Union(query, alarms, occurrences), k, k + 1) {
      assert IsPageOf(List(At(query, Some(1), Some(k)), alarms, occurrences), Union(query, alarms, occurrences));
      PageOfOneIsListed(query, alarms, occurrences, k);
    }
  }

  /**
   * For distinct ids every page, at every offset and limit, is its slice of the sorted
   * union exactly when no item stands deeper in its own source than in the union.
   */
  lemma PagesAreExactExactly(query: Query, alarms: seq<AlarmRow>, occurrences: seq<OccurrenceRow>)
    requires DistinctIds(AllItems(query, alarms, occurrences))
    ensures var union := Union(query, alarms, occurrences);
            EveryPageIsExact(query, alarms, occurrences) <==>
            InReach(SourceItems(query.wantAlarms, alarms, AlarmItem), union)
            && InReach(SourceItems(query.wantOccurrences, occurrences, OccurrenceItem), union)
  {
    var union := Union(query, alarms, occurrences);
    if EveryPageIsExact(query, alarms, occurrences) {
      ExactPagesOfOne(query, alarms, occurrences);
      OnePagesReach(SourceItems(query.wantAlarms, alarms, AlarmItem),
                    SourceItems(query.wantOccurrences, occurrences, OccurrenceItem), union);
    }
    if InReach(SourceItems(query.wantAlarms, alarms, AlarmItem), union)
       && InReach(SourceItems(query.wantOccurrences, occurrences, OccurrenceItem), union) {
      forall limit, offset ensures IsPageOf(List(At(query, limit, offset), alarms, occurrences), union) {
        PageInReach(At(query, limit, offset), alarms, occurrences);
      }
    }
  }

  // ----- one source, in the order of the database

  lemma {:induction false} InReachFromTheEnd(items: seq<Item>, union: seq<Item>, k: nat)
    requires Distinct(items) && |items| == |union| && InReach(items, union) && k <= |items|
    requires forall x :: x in items ==> x in union
    ensures forall n :: k <= n < |items| ==> items[n] == union[n]
    decreases |items| - k
  {
    if k == |items| {
    } else {
      InReachFromTheEnd(items, union, k + 1);
      assert items[k] in union;
      var m :| 0 <= m < |union| && union[m] == items[k];
    }
  }

  /** One source is in reach of its own sorted order exactly when it is in order. */
  lemma OneSourceInReach(items: seq<Item>)
    requires DistinctIds(items)
    ensures InReach(items, Sort(items, ItemAtMost)) <==> Sorted(items, ItemAtMost)
  {
    var union := Sort(items, ItemAtMost);
    assert items + [] == items;
    UnionIsOrdered(items, []);
    SortKeepsMembers(items, ItemAtMost);
    if InReach(items, union) {
      InReachFromTheEnd(items, union, 0);
      assert items == union;
    }
    if Sorted(items, ItemAtMost) {
      ItemOrderIsTotal();
      SortIsIdempotent(items, ItemAtMost);
      forall i, k | 0 <= i < |items| && 0 <= k < |union| && items[i] == union[k] ensures i <= k {
        assert union[i] == union[k];
      }
    }
  }

  lemma NothingInReach(union: seq<Item>)
    ensures InReach([], union)
  {
  }

  /**
   * Alarms alone, delivered in the database's order: every page is exact exactly when
   * the acknowledged and the ended ones happen to come recently updated first.
   */
  lemma AlarmPagesAreExactExactly(query: Query, rows: seq<AlarmRow>, occurrences: seq<OccurrenceRow>)
    requires query.wantAlarms && !query.wantOccurrences && Sorted(rows, DbAlarmAtMost)
             && DistinctIds(Items(rows, AlarmItem))
    ensures EveryPageIsExact(query, rows, occurrences) <==>
            forall i, j :: 0 <= i < j < |rows| ==> SettledAlike(rows[i], rows[j]) ==>
              RecentFirst(rows[i].updatedAt, rows[i].id, rows[j].updatedAt, rows[j].id)
  {
    assert AllItems(query, rows, occurrences) == Items(rows, AlarmItem);
    PagesAreExactExactly(query, rows, occurrences);
    NothingInReach(Union(query, rows, occurrences));
    OneSourceInReach(Items(rows, AlarmItem));
    DbAlarmsInPageOrder(rows);
  }

  /** The same for occurrences alone. */
  lemma OccurrencePagesAreExactExactly(query: Query, alarms: seq<AlarmRow>, rows: seq<OccurrenceRow>)
    requires !query.wantAlarms && query.wantOccurrences && Sorted(rows, DbOccurrenceAtMost)
             && DistinctIds(Items(rows, OccurrenceItem))
    ensures EveryPageIsExact(query, alarms, rows) <==>
            forall i, j :: 0 <= i < j < |rows| ==> (SettledOccurrence(rows[i]) && SettledOccurrence(rows[j])) ==>
              RecentFirst(rows[i].lastSeenAt, rows[i].id, rows[j].lastSeenAt, rows[j].id)
  {
    assert AllItems(query, alarms, rows) == Items(rows, OccurrenceItem);
    PagesAreExactExactly(query, alarms, rows);
    NothingInReach(Union(query, alarms, rows));
    OneSourceInReach(Items(rows, OccurrenceItem));
    DbOccurrencesInPageOrder(rows);
  }
}
