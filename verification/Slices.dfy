/** Slices that count from the end. */
module Slices {

  /** `s.slice(-n)`: the last n elements, all of them if there are fewer, and all of them for n = 0. */
  function LastOf<T>(s: seq<T>, n: nat): seq<T> {
    if n == 0 || n >= |s| then s else s[|s| - n..]
  }

  /** How many of the latest elements satisfy p without interruption: one more on a match, else back to zero. */
  ghost function RunOf<T>(s: seq<T>, p: T -> bool): (n: nat)
    ensures n <= |s|
  {
    if s != [] && p(s[|s| - 1]) then RunOf(s[..|s| - 1], p) + 1 else 0
  }

  lemma RunOneMore<T>(s: seq<T>, p: T -> bool, count: nat)
    requires 1 <= count <= |s|
    ensures RunOf(s[..count], p) == if p(s[count - 1]) then RunOf(s[..count - 1], p) + 1 else 0
  {
    assert s[..count][..count - 1] == s[..count - 1];
  }

  ghost predicate All<T(!new)>(s: seq<T>, p: T -> bool) {
    forall x :: x in s ==> p(x)
  }

  lemma AllWithLast<T(!new)>(earlier: seq<T>, last: T, p: T -> bool)
    ensures All(earlier + [last], p) <==> All(earlier, p) && p(last)
  {
    assert last in earlier + [last];
    assert forall x :: x in earlier ==> x in earlier + [last];
  }

  lemma LastOfOneMore<T>(s: seq<T>, n: nat)
    requires 1 <= n <= |s|
    ensures LastOf(s, n) == (if n == 1 then [] else LastOf(s[..|s| - 1], n - 1)) + [s[|s| - 1]]
  {
  }

  lemma {:induction false} AllIsRun<T(!new)>(s: seq<T>, p: T -> bool)
    ensures All(s, p) <==> RunOf(s, p) >= |s|
  {
    if s == [] {
    } else {
      var last := |s| - 1;
      AllIsRun(s[..last], p);
      AllWithLast(s[..last], s[last], p);
      assert s == s[..last] + [s[last]];
    }
  }

  /** Testing the last n elements is counting the run; testing the last 0 of them tests them all. */
  lemma {:induction false} LastOfIsRun<T(!new)>(s: seq<T>, p: T -> bool, n: nat)
    ensures |s| >= n && All(LastOf(s, n), p) <==> RunOf(s, p) >= if n == 0 then |s| else n
  {
    if n == 0 {
      AllIsRun(s, p);
    } else if n <= |s| {
      var last := |s| - 1;
      LastOfOneMore(s, n);
      if n == 1 {
        AllWithLast([], s[last], p);
      } else {
        AllWithLast(LastOf(s[..last], n - 1), s[last], p);
        LastOfIsRun(s[..last], p, n - 1);
      }
    }
  }
}
