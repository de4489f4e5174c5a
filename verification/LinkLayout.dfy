/** Parallel layout of links that join the same two nodes. */
module LinkLayout {
  import opened Text
  import opened Sorting
  import opened Grouping

  datatype Mode = AUTO | MANUAL

  datatype Link = Link(id: string, sourceKey: string, targetKey: string, mode: Mode)

  datatype Layout = Layout(siblingCount: nat, siblingIndex: nat, offset: real)

  const ABSENT_KEY := "\U{0000}"
  const SEPARATOR: char := '\U{0001}'

  function Present(key: string): string {
    if key == "" then ABSENT_KEY else key
  }

  function GroupKey(sourceKey: string, targetKey: string): string {
    var a, b := Present(sourceKey), Present(targetKey);
    if Less(a, b) then a + [SEPARATOR] + b else b + [SEPARATOR] + a
  }

  function KeyOf(link: Link): string {
    GroupKey(link.sourceKey, link.targetKey)
  }

  function Spacing(total: nat): real {
    if 14 + total < 24 then (14 + total) as real else 24.0
  }

  /** The slots of a group, in world space. */
  function Offsets(count: int): (r: seq<real>)
    ensures |r| == if count < 1 then 1 else count
  {
    if count <= 1 then [0.0]
    else if count == 2 then [-18.0, 18.0]
    else if count == 3 then [0.0, -26.0, 26.0]
    else if count == 4 then [-36.0, -12.0, 12.0, 36.0]
    else seq(count, i requires 0 <= i < count => (i as real - (count - 1) as real / 2.0) * Spacing(count))
  }

  predicate IdAtMost(a: Link, b: Link) {
    AtMost(a.id, b.id)
  }

  function Oriented(link: Link, worldOffset: real): real {
    if link.mode == MANUAL then 0.0
    else if Less(link.sourceKey, link.targetKey) then worldOffset
    else -worldOffset
  }

  ghost predicate UniqueIds(links: seq<Link>) {
    forall i, j :: 0 <= i < j < |links| ==> links[i].id != links[j].id
  }

  // ----- what a link's layout is, without grouping or sorting anything

  function Below(link: Link): Link -> bool {
    (l: Link) => Less(l.id, link.id)
  }

  ghost function SiblingCount(links: seq<Link>, link: Link): nat {
    Count(links, HasKey(KeyOf, KeyOf(link)))
  }

  /** How many siblings have a smaller id. */
  ghost function SiblingRank(links: seq<Link>, link: Link): nat {
    Count(links, Both(HasKey(KeyOf, KeyOf(link)), Below(link)))
  }

  function Slot(count: nat, rank: nat): real {
    if rank < |Offsets(count)| then Offsets(count)[rank] else 0.0
  }

  ghost function LayoutOf(links: seq<Link>, link: Link): Layout {
    var count, rank := SiblingCount(links, link), SiblingRank(links, link);
    Layout(count, rank, Oriented(link, Slot(count, rank)))
  }

  ghost predicate Recorded(result: map<string, Layout>, done: seq<Link>, links: seq<Link>) {
    && result.Keys == (set l | l in done :: l.id)
    && (forall l :: l in done ==> l in links)
    && (UniqueIds(links) ==> forall l :: l in done ==> result[l.id] == LayoutOf(links, l))
  }

  method Compute(links: seq<Link>) returns (result: map<string, Layout>)
    ensures Recorded(result, links, links)
  {
    result := map[];
    var groups := GroupBy(links, KeyOf);
    for g := 0 to |groups|
      invariant Recorded(result, Flatten(groups[..g]), links)
    {
      assert groups[..g + 1][..g] == groups[..g];
      result := PlaceGroup(groups[g], result, links, Keys(links, KeyOf)[g], Flatten(groups[..g]));
    }
    assert groups[..|groups|] == groups;
    GroupsPartition(links, KeyOf);
    SameMembers(Flatten(groups), links);
    RecordedIgnoresOrder(result, Flatten(groups), links, links);
  }

  /** Sorts one group by id and records the layout of each of its links. */
  method PlaceGroup(group: seq<Link>, before: map<string, Layout>, ghost links: seq<Link>, ghost key: string,
                    ghost done: seq<Link>)
    returns (result: map<string, Layout>)
    requires group == Select(links, KeyOf, key) && Recorded(before, done, links)
    ensures Recorded(result, done + group, links)
  {
    var sorted := Sort(group, IdAtMost);
    SortPermutes(group, IdAtMost);
    var offsets := Offsets(|sorted|);
    result := before;
    assert done + sorted[..0] == done;
    for index := 0 to |sorted|
      invariant Recorded(result, done + sorted[..index], links)
    {
      var link := sorted[index];
      var worldOffset := if index < |offsets| then offsets[index] else 0.0;
      var layout := Layout(|sorted|, index, Oriented(link, worldOffset));
      assert worldOffset == Slot(|sorted|, index);
      SortedGroupIsRanked(links, key, index);
      RecordOneMore(result, done + sorted[..index], links, link, layout);
      OneFurther(done, sorted, index);
      result := result[link.id := layout];
    }
    assert sorted[..|sorted|] == sorted;
    SameMembers(group, sorted);
    RecordedIgnoresOrder(result, done + sorted, done + group, links);
  }

  lemma OneFurther(done: seq<Link>, s: seq<Link>, index: nat)
    requires index < |s|
    ensures done + s[..index] + [s[index]] == done + s[..index + 1]
  {
  }

  lemma RecordOneMore(result: map<string, Layout>, done: seq<Link>, links: seq<Link>, link: Link, layout: Layout)
    requires Recorded(result, done, links) && link in links
    requires UniqueIds(links) ==> layout == LayoutOf(links, link)
    ensures Recorded(result[link.id := layout], done + [link], links)
  {
    var grown := done + [link];
    IdsOneMore(done, link);
    forall l | l in grown ensures l in links && (l in done || l == link) {
    }
    if UniqueIds(links) {
      forall l | l in grown ensures result[link.id := layout][l.id] == LayoutOf(links, l) {
        IdsIdentify(links, l, link);
      }
    }
  }

  lemma IdsOneMore(done: seq<Link>, link: Link)
    ensures (set l | l in done + [link] :: l.id) == (set l | l in done :: l.id) + {link.id}
  {
    assert forall l :: l in done + [link] <==> l in done || l == link;
  }

  lemma IdsIdentify(links: seq<Link>, a: Link, b: Link)
    requires UniqueIds(links) && a in links && b in links
    ensures a.id == b.id ==> a == b
  {
    var i :| 0 <= i < |links| && links[i] == a;
    var j :| 0 <= j < |links| && links[j] == b;
  }

  lemma RecordedIgnoresOrder(result: map<string, Layout>, a: seq<Link>, b: seq<Link>, links: seq<Link>)
    requires Recorded(result, a, links)
    requires forall link :: link in a <==> link in b
    ensures Recorded(result, b, links)
  {
  }

  /** In a sorted group the position of a link is its rank, computed without sorting. */
  lemma SortedGroupIsRanked(links: seq<Link>, key: string, index: nat)
    requires index < |Select(links, KeyOf, key)|
    ensures var sorted := Sort(Select(links, KeyOf, key), IdAtMost);
            && |sorted| == |Select(links, KeyOf, key)|
            && sorted[index] in links && KeyOf(sorted[index]) == key
            && SiblingCount(links, sorted[index]) == |sorted|
            && (UniqueIds(links) ==> SiblingRank(links, sorted[index]) == index)
  {
    var group := Select(links, KeyOf, key);
    var sorted := Sort(group, IdAtMost);
    SortPermutes(group, IdAtMost);
    var link := sorted[index];
    SameMembers(sorted, group);
    assert link in group;
    SelectIsExact(links, KeyOf, key);
    if UniqueIds(links) {
      CountOfSelect(links, KeyOf, key, Below(link));
      CountIgnoresOrder(group, sorted, Below(link));
      SortedStrictly(links, key);
      CountBelow(sorted, index);
    }
  }

  lemma IdOrderIsTotal()
    ensures TotalPreorder(IdAtMost)
  {
    forall a: Link, b: Link ensures IdAtMost(a, b) || IdAtMost(b, a) {
      LessIsTotal(a.id, b.id);
    }
    forall a: Link, b: Link, c: Link | IdAtMost(a, b) && IdAtMost(b, c) ensures IdAtMost(a, c) {
      AtMostIsTransitive(a.id, b.id, c.id);
    }
  }

  /** Unique ids leave no ties in a sorted group. */
  lemma SortedStrictly(links: seq<Link>, key: string)
    requires UniqueIds(links)
    ensures var sorted := Sort(Select(links, KeyOf, key), IdAtMost);
            forall i, j :: 0 <= i < j < |sorted| ==> Less(sorted[i].id, sorted[j].id)
  {
    var group := Select(links, KeyOf, key);
    var sorted := Sort(group, IdAtMost);
    IdOrderIsTotal();
    SortPermutes(group, IdAtMost);
    SortSorts(group, IdAtMost);
    SelectIsPart(links, KeyOf, key);
    SameMembers(sorted, group);
    SelectIsExact(links, KeyOf, key);
    forall i, j | 0 <= i < j < |sorted| ensures Less(sorted[i].id, sorted[j].id) {
      LessIsTotal(sorted[i].id, sorted[j].id);
      assert IdAtMost(sorted[i], sorted[j]);
      if sorted[i].id == sorted[j].id {
        assert sorted[i] in links && sorted[j] in links;
        assert sorted[i] == sorted[j];
        RepeatIsCounted(sorted, i, j);
        DistinctIsOnce(links, sorted[i]);
        assert false;
      }
    }
  }

  lemma CountBelow(sorted: seq<Link>, index: nat)
    requires index < |sorted|
    requires forall i, j :: 0 <= i < j < |sorted| ==> Less(sorted[i].id, sorted[j].id)
    ensures Count(sorted, Below(sorted[index])) == index
  {
    var below := Below(sorted[index]);
    var head, tail := sorted[..index], sorted[index..];
    assert sorted == head + tail;
    CountOfConcat(head, tail, below);
    CountOfAll(head, below);
    forall l | l in tail ensures !below(l) {
      var j :| 0 <= j < |tail| && tail[j] == l;
      assert l == sorted[index + j];
      LessIsTotal(l.id, sorted[index].id);
    }
    CountOfNone(tail, below);
  }

  // ----- what the layout promises

  /** The input order is irrelevant. */
  lemma OrderDoesNotMatter(links: seq<Link>, links': seq<Link>, link: Link)
    requires multiset(links) == multiset(links')
    ensures LayoutOf(links, link) == LayoutOf(links', link)
  {
    CountIgnoresOrder(links, links', HasKey(KeyOf, KeyOf(link)));
    CountIgnoresOrder(links, links', Both(HasKey(KeyOf, KeyOf(link)), Below(link)));
  }

  ghost predicate RankTaken(links: seq<Link>, key: string, rank: nat) {
    exists l :: l in links && KeyOf(l) == key && SiblingRank(links, l) == rank
  }

  /** The indices of the siblings of a group are exactly 0 .. count - 1. */
  lemma RanksAreExact(links: seq<Link>, link: Link, rank: nat)
    requires UniqueIds(links) && link in links
    ensures RankTaken(links, KeyOf(link), rank) <==> rank < SiblingCount(links, link)
  {
    var key := KeyOf(link);
    if rank < SiblingCount(links, link) {
      SortedGroupIsRanked(links, key, rank);
    }
    if RankTaken(links, key, rank) {
      var l :| l in links && KeyOf(l) == key && SiblingRank(links, l) == rank;
      var position := PositionInGroup(links, l);
    }
  }

  lemma PositionInGroup(links: seq<Link>, link: Link) returns (index: nat)
    requires UniqueIds(links) && link in links
    ensures var sorted := Sort(Select(links, KeyOf, KeyOf(link)), IdAtMost);
            index < |sorted| == SiblingCount(links, link) && sorted[index] == link
    ensures index == SiblingRank(links, link)
  {
    var group := Select(links, KeyOf, KeyOf(link));
    var sorted := Sort(group, IdAtMost);
    SortPermutes(group, IdAtMost);
    SelectIsExact(links, KeyOf, KeyOf(link));
    SameMembers(sorted, group);
    assert link in sorted;
    index :| 0 <= index < |sorted| && sorted[index] == link;
    SortedGroupIsRanked(links, KeyOf(link), index);
  }

  lemma SiblingsDifferInRank(links: seq<Link>, a: Link, b: Link)
    requires UniqueIds(links) && a in links && b in links && KeyOf(a) == KeyOf(b) && a != b
    ensures SiblingRank(links, a) != SiblingRank(links, b)
  {
    var i := PositionInGroup(links, a);
    var j := PositionInGroup(links, b);
  }

  ghost function Sum(s: seq<real>): real {
    if s == [] then 0.0 else Sum(s[..|s| - 1]) + s[|s| - 1]
  }

  lemma SumOneMore(s: seq<real>, x: real)
    ensures Sum(s + [x]) == Sum(s) + x
  {
    assert (s + [x])[..|s + [x]| - 1] == s;
  }

  /** The slots of a group balance around the straight line. */
  lemma SlotsBalance(count: nat)
    ensures Sum(Offsets(count)) == 0.0
  {
    var s := Offsets(count);
    if count >= 5 {
      EvenSlotsBalance(count);
    } else if count <= 1 {
      assert s[..|s| - 1] == [];
    } else if count == 2 {
      SumOfTwo(-18.0, 18.0);
    } else if count == 3 {
      SumOfTwo(0.0, -26.0);
      SumOneMore([0.0, -26.0], 26.0);
      assert [0.0, -26.0] + [26.0] == s;
    } else {
      SumOfTwo(-36.0, -12.0);
      SumOneMore([-36.0, -12.0], 12.0);
      SumOneMore([-36.0, -12.0] + [12.0], 36.0);
      assert [-36.0, -12.0] + [12.0] + [36.0] == s;
    }
  }

  lemma SumOfTwo(x: real, y: real)
    ensures Sum([x, y]) == x + y
  {
    SumOneMore([], x);
    SumOneMore([x], y);
    assert [] + [x] == [x] && [x] + [y] == [x, y];
  }

  ghost function SumOf(f: nat -> real, n: nat): real {
    if n == 0 then 0.0 else SumOf(f, n - 1) + f(n - 1)
  }

  lemma {:induction false} SumIsSumOf(s: seq<real>, f: nat -> real, taken: nat)
    requires taken <= |s|
    requires forall i: nat :: i < |s| ==> s[i] == f(i)
    ensures Sum(s[..taken]) == SumOf(f, taken)
  {
    if taken == 0 {
    } else {
      SumIsSumOf(s, f, taken - 1);
      assert s[..taken] == s[..taken - 1] + [s[taken - 1]];
      SumOneMore(s[..taken - 1], s[taken - 1]);
    }
  }

  function EvenSlot(count: nat, spacing: real): nat -> real {
    (i: nat) => (i as real - (count - 1) as real / 2.0) * spacing
  }

  lemma EvenSlotsBalance(count: nat)
    requires count >= 5
    ensures Sum(Offsets(count)) == 0.0
  {
    assert Offsets(count)[..count] == Offsets(count);
    SumIsSumOf(Offsets(count), EvenSlot(count, Spacing(count)), count);
    EvenSlotsSum(count, count, Spacing(count));
  }

  lemma {:induction false} EvenSlotsSum(taken: nat, count: nat, spacing: real)
    ensures SumOf(EvenSlot(count, spacing), taken) == taken as real * (taken as real - count as real) / 2.0 * spacing
  {
    if taken == 0 {
    } else {
      var t, c := taken as real, count as real;
      assert (taken - 1) as real == t - 1.0 && (count - 1) as real == c - 1.0;
      EvenSlotsSum(taken - 1, count, spacing);
      assert SumOf(EvenSlot(count, spacing), taken - 1) == (t - 1.0) * (t - 1.0 - c) / 2.0 * spacing;
      assert EvenSlot(count, spacing)(taken - 1) == (t - 1.0 - (c - 1.0) / 2.0) * spacing;
      NextSlot(t, c, spacing);
    }
  }

  lemma NextSlot(taken: real, count: real, spacing: real)
    ensures (taken - 1.0) * (taken - 1.0 - count) / 2.0 * spacing + (taken - 1.0 - (count - 1.0) / 2.0) * spacing
            == taken * (taken - count) / 2.0 * spacing
  {
    assert (taken - 1.0) * (taken - 1.0 - count) / 2.0 + (taken - 1.0 - (count - 1.0) / 2.0)
           == taken * (taken - count) / 2.0;
  }

  /** The slots of up to four siblings. */
  ghost predicate IsSlotOfFew(count: nat, rank: nat, offset: real) {
    && (count == 1 ==> offset == 0.0)
    && (count == 2 ==> offset == if rank == 0 then -18.0 else 18.0)
    && (count == 3 ==> offset == if rank == 0 then 0.0 else if rank == 1 then -26.0 else 26.0)
    && (count == 4 ==> offset == -36.0 + 24.0 * rank as real)
  }

  /** Five and more lie evenly around the middle, 14 and one more for each sibling apart, but no more than 24. */
  ghost predicate IsSlotOfMany(count: nat, rank: nat, offset: real) {
    if count < 10 then 2.0 * offset == (2 * rank - count + 1) as real * (14 + count) as real
    else offset == 12.0 * (2 * rank - count + 1) as real
  }

  ghost predicate IsSlot(count: nat, rank: nat, offset: real) {
    if count < 5 then IsSlotOfFew(count, rank, offset) else IsSlotOfMany(count, rank, offset)
  }

  /** An automatic link lies in the slot of its rank, on the map; a manual one stays on the straight line. */
  lemma LinkTakesItsSlot(links: seq<Link>, link: Link)
    requires UniqueIds(links) && link in links
    ensures if link.mode == AUTO then
              IsSlot(SiblingCount(links, link), SiblingRank(links, link), WorldOffset(links, link))
            else LayoutOf(links, link).offset == 0.0
  {
    var index := PositionInGroup(links, link);
    SlotsAreExact(SiblingCount(links, link), index);
  }

  lemma SlotsAreExact(count: nat, rank: nat)
    requires rank < count
    ensures IsSlot(count, rank, Slot(count, rank))
  {
    if count < 5 {
      FewSlotsAreExact(count, rank);
    } else {
      SlotIs(count, rank);
      ManySlotsAreExact(count, rank, Spacing(count));
    }
  }

  lemma FewSlotsAreExact(count: nat, rank: nat)
    requires rank < count < 5
    ensures IsSlotOfFew(count, rank, Slot(count, rank))
  {
    assert rank == 0 || rank == 1 || rank == 2 || rank == 3;
  }

  lemma ManySlotsAreExact(count: nat, rank: nat, spacing: real)
    requires spacing == if count < 10 then (14 + count) as real else 24.0
    ensures IsSlotOfMany(count, rank, (rank as real - (count - 1) as real / 2.0) * spacing)
  {
    HalfSteps(rank, count, spacing);
  }

  lemma HalfSteps(rank: nat, count: nat, spacing: real)
    ensures 2.0 * ((rank as real - (count - 1) as real / 2.0) * spacing) == (2 * rank - count + 1) as real * spacing
  {
    assert 2.0 * (rank as real - (count - 1) as real / 2.0) == (2 * rank - count + 1) as real;
  }

  /** Two slots of a group are never closer than 19 pixels. */
  lemma SlotsAreApart(count: nat, i: nat, j: nat)
    requires i < |Offsets(count)| && j < |Offsets(count)| && i != j
    ensures Offsets(count)[i] - Offsets(count)[j] >= 19.0 || Offsets(count)[j] - Offsets(count)[i] >= 19.0
  {
    if count < 5 {
      FewSlotsAreApart(count, i, j);
    } else if i > j {
      ManySlotsAreApart(count, i, j);
    } else {
      ManySlotsAreApart(count, j, i);
    }
  }

  lemma ManySlotsAreApart(count: nat, i: nat, j: nat)
    requires 5 <= count && j < i < count
    ensures Offsets(count)[i] - Offsets(count)[j] >= 19.0
  {
    SlotIs(count, i);
    SlotIs(count, j);
    EvenSlotsAreApart(i as real, j as real, (count - 1) as real / 2.0, Spacing(count));
  }

  lemma SlotIs(count: nat, i: nat)
    requires 5 <= count && i < count
    ensures Offsets(count)[i] == (i as real - (count - 1) as real / 2.0) * Spacing(count)
  {
  }

  lemma FewSlotsAreApart(count: nat, i: nat, j: nat)
    requires count < 5 && i < |Offsets(count)| && j < |Offsets(count)| && i != j
    ensures Offsets(count)[i] - Offsets(count)[j] >= 19.0 || Offsets(count)[j] - Offsets(count)[i] >= 19.0
  {
  }

  lemma EvenSlotsAreApart(i: real, j: real, middle: real, spacing: real)
    requires i - j >= 1.0 && spacing >= 19.0
    ensures (i - middle) * spacing - (j - middle) * spacing >= 19.0
  {
    assert (i - middle) * spacing - (j - middle) * spacing == (i - j) * spacing;
    assert (i - j) * spacing == (i - j - 1.0) * spacing + spacing;
  }

  /** The offset seen on the map, whichever way round the link is stored. */
  ghost function WorldOffset(links: seq<Link>, link: Link): real {
    if Less(link.sourceKey, link.targetKey) then LayoutOf(links, link).offset else -LayoutOf(links, link).offset
  }

  lemma AutoSiblingsAreApart(links: seq<Link>, a: Link, b: Link)
    requires UniqueIds(links) && a in links && b in links && a != b
    requires KeyOf(a) == KeyOf(b) && a.mode == AUTO && b.mode == AUTO
    ensures WorldOffset(links, a) - WorldOffset(links, b) >= 19.0
            || WorldOffset(links, b) - WorldOffset(links, a) >= 19.0
  {
    var i := PositionInGroup(links, a);
    var j := PositionInGroup(links, b);
    SiblingsDifferInRank(links, a, b);
    SlotsAreApart(SiblingCount(links, a), SiblingRank(links, a), SiblingRank(links, b));
  }

  ghost function WorldSum(links: seq<Link>, some: seq<Link>): real {
    if some == [] then 0.0
    else WorldSum(links, some[..|some| - 1]) + WorldOffset(links, some[|some| - 1])
  }

  /** Without manual siblings the offsets of a whole group sum to zero on the map. */
  lemma AutoGroupBalances(links: seq<Link>, key: string)
    requires UniqueIds(links)
    requires forall l :: l in links && KeyOf(l) == key ==> l.mode == AUTO
    ensures WorldSum(links, Sort(Select(links, KeyOf, key), IdAtMost)) == 0.0
  {
    var sorted := Sort(Select(links, KeyOf, key), IdAtMost);
    SortPermutes(Select(links, KeyOf, key), IdAtMost);
    forall i | 0 <= i < |sorted| ensures WorldOffset(links, sorted[i]) == Offsets(|sorted|)[i] {
      AutoLinkTakesItsSlot(links, key, i);
    }
    if sorted != [] {
      assert sorted[..|sorted|] == sorted && Offsets(|sorted|)[..|sorted|] == Offsets(|sorted|);
      WorldSumIsSlotSum(links, sorted, Offsets(|sorted|), |sorted|);
      SlotsBalance(|sorted|);
    }
  }

  lemma {:induction false} WorldSumIsSlotSum(links: seq<Link>, sorted: seq<Link>, offsets: seq<real>, taken: nat)
    requires taken <= |sorted| == |offsets|
    requires forall i :: 0 <= i < |sorted| ==> WorldOffset(links, sorted[i]) == offsets[i]
    ensures WorldSum(links, sorted[..taken]) == Sum(offsets[..taken])
  {
    if taken == 0 {
    } else {
      WorldSumIsSlotSum(links, sorted, offsets, taken - 1);
      assert sorted[..taken][..taken - 1] == sorted[..taken - 1];
      assert offsets[..taken][..taken - 1] == offsets[..taken - 1];
    }
  }

  lemma AutoLinkTakesItsSlot(links: seq<Link>, key: string, index: nat)
    requires UniqueIds(links) && index < |Select(links, KeyOf, key)|
    requires forall l :: l in links && KeyOf(l) == key ==> l.mode == AUTO
    ensures var sorted := Sort(Select(links, KeyOf, key), IdAtMost);
            && |sorted| == |Select(links, KeyOf, key)|
            && WorldOffset(links, sorted[index]) == Offsets(|sorted|)[index]
  {
    var sorted := Sort(Select(links, KeyOf, key), IdAtMost);
    SortedGroupIsRanked(links, key, index);
    var link := sorted[index];
    assert LayoutOf(links, link) == Layout(|sorted|, index, Oriented(link, Slot(|sorted|, index)));
    assert link.mode == AUTO;
  }

  // ----- direction

  function Reversed(link: Link): Link {
    link.(sourceKey := link.targetKey, targetKey := link.sourceKey)
  }

  lemma GroupKeyIgnoresDirection(a: string, b: string)
    ensures GroupKey(a, b) == GroupKey(b, a)
  {
    LessIsTotal(Present(a), Present(b));
  }

  /**
   * Storing one link the other way round moves nothing on the map: its own offset
   * is negated, unless it joins a node to itself, and every other link keeps its
   * layout.
   */
  lemma ReversalOnlyNegates(links: seq<Link>, n: nat, other: Link)
    requires n < |links|
    ensures var link, links' := links[n], links[n := Reversed(links[n])];
            && LayoutOf(links', other) == LayoutOf(links, other)
            && LayoutOf(links', Reversed(link)).siblingCount == LayoutOf(links, link).siblingCount
            && LayoutOf(links', Reversed(link)).siblingIndex == LayoutOf(links, link).siblingIndex
            && (LayoutOf(links', Reversed(link)).offset == -LayoutOf(links, link).offset
                <==> link.sourceKey != link.targetKey || LayoutOf(links, link).offset == 0.0)
  {
    var link, links' := links[n], links[n := Reversed(links[n])];
    GroupKeyIgnoresDirection(link.sourceKey, link.targetKey);
    LessIsTotal(link.sourceKey, link.targetKey);
    assert KeyOf(Reversed(link)) == KeyOf(link);
    CountAfterReplacing(links, n, Reversed(link), HasKey(KeyOf, KeyOf(other)));
    CountAfterReplacing(links, n, Reversed(link), Both(HasKey(KeyOf, KeyOf(other)), Below(other)));
    CountAfterReplacing(links, n, Reversed(link), HasKey(KeyOf, KeyOf(link)));
    CountAfterReplacing(links, n, Reversed(link), Both(HasKey(KeyOf, KeyOf(link)), Below(link)));
    CountIsPointwise(links', Both(HasKey(KeyOf, KeyOf(link)), Below(link)),
                     Both(HasKey(KeyOf, KeyOf(Reversed(link))), Below(Reversed(link))));
  }

  lemma CountAfterReplacing(links: seq<Link>, n: nat, link: Link, p: Link -> bool)
    requires n < |links| && p(links[n]) == p(link)
    ensures Count(links[n := link], p) == Count(links, p)
  {
    assert links == links[..n] + ([links[n]] + links[n + 1..]);
    assert links[n := link] == links[..n] + ([link] + links[n + 1..]);
    CountOfConcat(links[..n], [links[n]] + links[n + 1..], p);
    CountOfConcat(links[..n], [link] + links[n + 1..], p);
    CountOfConcat([links[n]], links[n + 1..], p);
    CountOfConcat([link], links[n + 1..], p);
    assert Count([link], p) == (if p(link) then 1 else 0) && Count([links[n]], p) == (if p(links[n]) then 1 else 0);
  }

  /** The same node; a link without one counts as joining the node "\U{0000}". */
  ghost predicate SameNode(a: string, b: string) {
    a == b || (a == "" && b == ['\U{0000}']) || (a == ['\U{0000}'] && b == "")
  }

  /**
   * Two links are grouped exactly when they join the same two nodes, as long as
   * no key contains the separator.
   */
  lemma GroupKeyIsExact(a: string, b: string, c: string, d: string)
    requires SEPARATOR !in a && SEPARATOR !in b && SEPARATOR !in c && SEPARATOR !in d
    ensures GroupKey(a, b) == GroupKey(c, d) <==>
            (SameNode(a, c) && SameNode(b, d)) || (SameNode(a, d) && SameNode(b, c))
  {
    LessIsTotal(Present(a), Present(b));
    LessIsTotal(Present(c), Present(d));
    PresentIsExact(a, c);
    PresentIsExact(b, d);
    PresentIsExact(a, d);
    PresentIsExact(b, c);
    if GroupKey(a, b) == GroupKey(c, d) {
      var l, r := if Less(Present(a), Present(b)) then (Present(a), Present(b)) else (Present(b), Present(a)),
                  if Less(Present(c), Present(d)) then (Present(c), Present(d)) else (Present(d), Present(c));
      SplitIsUnique(l.0, l.1, r.0, r.1, SEPARATOR);
    }
  }

  lemma PresentIsExact(a: string, b: string)
    ensures Present(a) == Present(b) <==> SameNode(a, b)
  {
  }
}
