/**
 * Insertion-ordered `Map<key, item[]>` as the source builds it: keys in order of
 * first appearance, and in each group the items in input order.
 */
module Grouping {

  function Count<T>(s: seq<T>, p: T -> bool): (n: nat)
    ensures n <= |s|
  {
    if s == [] then 0
    else Count(s[..|s| - 1], p) + if p(s[|s| - 1]) then 1 else 0
  }

  function HasKey<T, K(==)>(key: T -> K, k: K): T -> bool {
    x => key(x) == k
  }

  function Both<T>(p: T -> bool, q: T -> bool): T -> bool {
    x => p(x) && q(x)
  }

  function Select<T, K(==)>(items: seq<T>, key: T -> K, k: K): (r: seq<T>)
    ensures |r| == Count(items, HasKey(key, k))
  {
    if items == [] then []
    else
      var last := items[|items| - 1];
      var earlier := Select(items[..|items| - 1], key, k);
      if key(last) == k then earlier + [last] else earlier
  }

  function Keys<T, K(==)>(items: seq<T>, key: T -> K): seq<K> {
    if items == [] then []
    else
      var earlier, last := Keys(items[..|items| - 1], key), key(items[|items| - 1]);
      if last in earlier then earlier else earlier + [last]
  }

  function Groups<T, K(==)>(items: seq<T>, key: T -> K): seq<seq<T>> {
    var keys := Keys(items, key);
    seq(|keys|, i requires 0 <= i < |keys| => Select(items, key, keys[i]))
  }

  method IndexBy<T, K(==, !new)>(items: seq<T>, key: T -> K) returns (order: seq<K>, byKey: map<K, seq<T>>)
    ensures Indexed(items, key, order, byKey)
  {
    order, byKey := [], map[];
    for n := 0 to |items|
      invariant Indexed(items[..n], key, order, byKey)
    {
      var k := key(items[n]);
      assert items[..n + 1] == items[..n] + [items[n]];
      IndexOneMore(items[..n], items[n], key, order, byKey);
      if k in byKey {
        byKey := byKey[k := byKey[k] + [items[n]]];
      } else {
        byKey := byKey[k := [items[n]]];
        order := order + [k];
      }
    }
    assert items[..|items|] == items;
  }

  method GroupBy<T, K(==, !new)>(items: seq<T>, key: T -> K) returns (groups: seq<seq<T>>)
    ensures groups == Groups(items, key)
  {
    var order, byKey := IndexBy(items, key);
    groups := seq(|order|, i requires 0 <= i < |order| && order[i] in byKey => byKey[order[i]]);
  }

  ghost predicate Indexed<T, K(!new)>(items: seq<T>, key: T -> K, order: seq<K>, byKey: map<K, seq<T>>) {
    && order == Keys(items, key)
    && (forall k :: k in order <==> k in byKey)
    && (forall k :: k in byKey ==> byKey[k] == Select(items, key, k))
  }

  lemma IndexOneMore<T, K(!new)>(items: seq<T>, x: T, key: T -> K, order: seq<K>, byKey: map<K, seq<T>>)
    requires Indexed(items, key, order, byKey)
    ensures var k := key(x);
            if k in byKey then Indexed(items + [x], key, order, byKey[k := byKey[k] + [x]])
            else Indexed(items + [x], key, order + [k], byKey[k := [x]])
  {
    Append(items, x, key);
    var k := key(x);
    if k !in byKey {
      SelectAbsent(items, key, k);
      assert Select(items, key, k) + [x] == [x];
    }
  }

  /** What one more item changes. */
  lemma Append<T, K>(items: seq<T>, x: T, key: T -> K)
    ensures Keys(items + [x], key) == if key(x) in Keys(items, key) then Keys(items, key)
            else Keys(items, key) + [key(x)]
    ensures forall k :: Select(items + [x], key, k) ==
                        if key(x) == k then Select(items, key, k) + [x] else Select(items, key, k)
  {
    assert (items + [x])[..|items + [x]| - 1] == items;
  }

  lemma {:induction false} KeysAreDistinct<T, K>(items: seq<T>, key: T -> K)
    ensures forall i, j :: 0 <= i < j < |Keys(items, key)| ==> Keys(items, key)[i] != Keys(items, key)[j]
  {
    if items == [] {
    } else {
      KeysAreDistinct(items[..|items| - 1], key);
    }
  }

  lemma {:induction false} KeysAreTheKeys<T(!new), K(!new)>(items: seq<T>, key: T -> K)
    ensures forall x :: x in items ==> key(x) in Keys(items, key)
    ensures forall k :: k in Keys(items, key) ==> exists x :: x in items && key(x) == k
  {
    if items == [] {
    } else {
      var last := |items| - 1;
      KeysAreTheKeys(items[..last], key);
      assert items == items[..last] + [items[last]];
      forall k | k in Keys(items, key) ensures exists x :: x in items && key(x) == k {
        if k in Keys(items[..last], key) {
          var x :| x in items[..last] && key(x) == k;
          assert x in items;
        } else {
          assert items[last] in items && key(items[last]) == k;
        }
      }
    }
  }

  lemma {:induction false} SelectIsExact<T(!new), K>(items: seq<T>, key: T -> K, k: K)
    ensures forall x :: x in Select(items, key, k) <==> x in items && key(x) == k
  {
    if items == [] {
    } else {
      var last := |items| - 1;
      SelectIsExact(items[..last], key, k);
      assert items == items[..last] + [items[last]];
    }
  }

  ghost function Flatten<T>(groups: seq<seq<T>>): seq<T> {
    if groups == [] then [] else Flatten(groups[..|groups| - 1]) + groups[|groups| - 1]
  }

  /** Grouping neither loses nor repeats an item. */
  lemma {:induction false} GroupsPartition<T, K>(items: seq<T>, key: T -> K)
    ensures multiset(Flatten(Groups(items, key))) == multiset(items)
  {
    if items == [] {
      assert Groups(items, key) == [];
    } else {
      var last := |items| - 1;
      var x, before := items[last], items[..last];
      assert items == before + [x];
      Append(before, x, key);
      GroupsPartition(before, key);
      KeysAreDistinct(before, key);
      var earlier, later := Groups(before, key), Groups(items, key);
      if key(x) in Keys(before, key) {
        var j :| 0 <= j < |earlier| && Keys(before, key)[j] == key(x);
        assert later == earlier[j := earlier[j] + [x]];
        FlattenUpdate(earlier, j, x);
      } else {
        NewGroup(before, x, key);
      }
    }
  }

  lemma NewGroup<T, K>(before: seq<T>, x: T, key: T -> K)
    requires key(x) !in Keys(before, key)
    ensures Groups(before + [x], key) == Groups(before, key) + [[x]]
  {
    Append(before, x, key);
    SelectAbsent(before, key, key(x));
    assert Select(before, key, key(x)) + [x] == [x];
    var earlier, later := Groups(before, key), Groups(before + [x], key);
    forall i | 0 <= i < |later| ensures later[i] == (earlier + [[x]])[i] {
      if i < |earlier| {
        assert Keys(before, key)[i] != key(x);
      }
    }
  }

  lemma {:induction false} SelectAbsent<T, K>(items: seq<T>, key: T -> K, k: K)
    requires k !in Keys(items, key)
    ensures Select(items, key, k) == []
  {
    if items == [] {
    } else {
      SelectAbsent(items[..|items| - 1], key, k);
    }
  }

  lemma {:induction false} FlattenUpdate<T>(groups: seq<seq<T>>, j: nat, x: T)
    requires j < |groups|
    ensures multiset(Flatten(groups[j := groups[j] + [x]])) == multiset(Flatten(groups)) + multiset{x}
  {
    var last := |groups| - 1;
    var updated := groups[j := groups[j] + [x]];
    if j == last {
      assert updated[..last] == groups[..last];
    } else {
      assert updated[..last] == groups[..last][j := groups[j] + [x]];
      FlattenUpdate(groups[..last], j, x);
    }
  }

  /** A count depends on what is counted, not on the order. */
  lemma {:induction false} CountIgnoresOrder<T(!new)>(a: seq<T>, b: seq<T>, p: T -> bool)
    requires multiset(a) == multiset(b)
    ensures Count(a, p) == Count(b, p)
    decreases |a|
  {
    if a == [] {
      assert |multiset(b)| == 0;
    } else {
      var last := |a| - 1;
      assert a == a[..last] + [a[last]];
      assert a[last] in multiset(a);
      var i :| 0 <= i < |b| && b[i] == a[last];
      WithoutOne(a, b, i);
      var rest := b[..i] + b[i + 1..];
      CountIgnoresOrder(a[..last], rest, p);
      CountWithout(b, i, p);
    }
  }

  lemma ThreeParts<T>(b: seq<T>, i: nat)
    requires i < |b|
    ensures b == b[..i] + [b[i]] + b[i + 1..]
  {
  }

  lemma CountWithout<T>(b: seq<T>, i: nat, p: T -> bool)
    requires i < |b|
    ensures Count(b, p) == Count(b[..i] + b[i + 1..], p) + if p(b[i]) then 1 else 0
  {
    ThreeParts(b, i);
    CountOfThree(b, b[..i], b[i], b[i + 1..], p);
  }

  lemma CountOfThree<T>(s: seq<T>, head: seq<T>, x: T, tail: seq<T>, p: T -> bool)
    requires s == head + [x] + tail
    ensures Count(s, p) == Count(head + tail, p) + if p(x) then 1 else 0
  {
    CountOfConcat(head + [x], tail, p);
    CountOneMore(head, x, p);
    CountOfConcat(head, tail, p);
  }

  lemma CountOneMore<T>(s: seq<T>, x: T, p: T -> bool)
    ensures Count(s + [x], p) == Count(s, p) + if p(x) then 1 else 0
  {
    assert (s + [x])[..|s + [x]| - 1] == s;
  }

  lemma WithoutOne<T>(a: seq<T>, b: seq<T>, i: nat)
    requires a != [] && i < |b| && b[i] == a[|a| - 1] && multiset(a) == multiset(b)
    ensures multiset(a[..|a| - 1]) == multiset(b[..i] + b[i + 1..])
  {
    MultisetWithout(a, |a| - 1);
    MultisetWithout(b, i);
    assert a[..|a| - 1] + a[|a|..] == a[..|a| - 1];
  }

  lemma MultisetWithout<T>(s: seq<T>, i: nat)
    requires i < |s|
    ensures multiset(s[..i] + s[i + 1..]) == multiset(s) - multiset{s[i]}
  {
    ThreeParts(s, i);
    MultisetOfThree(s[..i], s[i], s[i + 1..]);
  }

  lemma MultisetOfThree<T>(head: seq<T>, x: T, tail: seq<T>)
    ensures multiset(head + [x] + tail) == multiset(head + tail) + multiset{x}
  {
  }

  lemma {:induction false} CountOfConcat<T>(a: seq<T>, b: seq<T>, p: T -> bool)
    ensures Count(a + b, p) == Count(a, p) + Count(b, p)
  {
    if b == [] {
      assert a + b == a;
    } else {
      assert (a + b)[..|a + b| - 1] == a + b[..|b| - 1];
      CountOfConcat(a, b[..|b| - 1], p);
    }
  }

  lemma {:induction false} CountIsPointwise<T>(s: seq<T>, p: T -> bool, q: T -> bool)
    requires forall x :: x in s ==> p(x) == q(x)
    ensures Count(s, p) == Count(s, q)
  {
    if s == [] {
    } else {
      CountIsPointwise(s[..|s| - 1], p, q);
    }
  }

  lemma {:induction false} SelectIsPart<T, K>(items: seq<T>, key: T -> K, k: K)
    ensures multiset(Select(items, key, k)) <= multiset(items)
  {
    if items == [] {
    } else {
      var last := |items| - 1;
      assert items == items[..last] + [items[last]];
      SelectIsPart(items[..last], key, k);
    }
  }

  lemma {:induction false} CountOfSelect<T, K>(items: seq<T>, key: T -> K, k: K, p: T -> bool)
    ensures Count(Select(items, key, k), p) == Count(items, Both(HasKey(key, k), p))
  {
    if items == [] {
    } else {
      var last := |items| - 1;
      CountOfSelect(items[..last], key, k, p);
      if key(items[last]) == k {
        var earlier := Select(items[..last], key, k);
        assert (earlier + [items[last]])[..|earlier|] == earlier;
      }
    }
  }

  lemma {:induction false} CountOfAll<T>(s: seq<T>, p: T -> bool)
    requires forall x :: x in s ==> p(x)
    ensures Count(s, p) == |s|
  {
    if s == [] {
    } else {
      CountOfAll(s[..|s| - 1], p);
    }
  }

  lemma {:induction false} CountOfNone<T>(s: seq<T>, p: T -> bool)
    requires forall x :: x in s ==> !p(x)
    ensures Count(s, p) == 0
  {
    if s == [] {
    } else {
      CountOfNone(s[..|s| - 1], p);
    }
  }

  // ----- nested loops as one sequence

  function FlatMap<A, B>(s: seq<A>, f: A -> seq<B>): seq<B> {
    if s == [] then [] else FlatMap(s[..|s| - 1], f) + f(s[|s| - 1])
  }

  lemma FlatMapOneMore<A, B>(s: seq<A>, n: nat, f: A -> seq<B>)
    requires n < |s|
    ensures FlatMap(s[..n + 1], f) == FlatMap(s[..n], f) + f(s[n])
  {
    assert s[..n + 1][..n] == s[..n];
  }

  lemma {:induction false} FlatMapMembers<A, B>(s: seq<A>, f: A -> seq<B>, y: B)
    ensures y in FlatMap(s, f) <==> exists x :: x in s && y in f(x)
  {
    if s == [] {
    } else {
      var last := |s| - 1;
      FlatMapMembers(s[..last], f, y);
      assert s == s[..last] + [s[last]];
      assert forall x :: x in s <==> x in s[..last] || x == s[last];
    }
  }

  /** Elements keep the order of what they come from: positions within it, and positions in it. */
  lemma {:induction false} FlatMapOrder<A, B>(s: seq<A>, f: A -> seq<B>, j: nat, k: nat)
    returns (a: nat, p: nat, b: nat, q: nat)
    requires j < k < |FlatMap(s, f)|
    ensures a <= b < |s| && p < |f(s[a])| && q < |f(s[b])| && (a == b ==> p < q)
    ensures FlatMap(s, f)[j] == f(s[a])[p] && FlatMap(s, f)[k] == f(s[b])[q]
  {
    var last, start := |s| - 1, |FlatMap(s[..|s| - 1], f)|;
    if k < start {
      a, p, b, q := FlatMapOrder(s[..last], f, j, k);
    } else if j < start {
      a, p := FlatMapPlace(s[..last], f, j);
      b, q := last, k - start;
    } else {
      a, p, b, q := last, j - start, last, k - start;
    }
  }

  lemma {:induction false} FlatMapPlace<A, B>(s: seq<A>, f: A -> seq<B>, k: nat) returns (a: nat, p: nat)
    requires k < |FlatMap(s, f)|
    ensures a < |s| && p < |f(s[a])| && FlatMap(s, f)[k] == f(s[a])[p]
  {
    var last, start := |s| - 1, |FlatMap(s[..|s| - 1], f)|;
    if k < start {
      a, p := FlatMapPlace(s[..last], f, k);
    } else {
      a, p := last, k - start;
    }
  }
}
