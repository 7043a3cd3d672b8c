/** Sequences without repetition, and their tails. */
module Seqs {

  ghost predicate Distinct<T>(s: seq<T>) {
    forall i, j | 0 <= i < j < |s| :: s[i] != s[j]
  }

  function ToSet<T>(s: seq<T>): (r: set<T>) {
    set x | x in s
  }

  lemma ToSetAppend<T>(s: seq<T>, x: T)
    ensures ToSet(s + [x]) == ToSet(s) + {x}
    ensures Distinct(s) && x !in s ==> Distinct(s + [x])
  {
  }

  lemma {:induction false} DistinctSize<T>(s: seq<T>)
    requires Distinct(s)
    ensures |ToSet(s)| == |s|
  {
    if s != [] {
      var init, last := s[..|s| - 1], s[|s| - 1];
      assert last !in init;
      DistinctSize(init);
      assert s == init + [last];
      ToSetAppend(init, last);
      SizeWithOneMore(ToSet(init), last);
    }
  }

  lemma SizeWithOneMore<T>(s: set<T>, x: T)
    requires x !in s
    ensures |s + {x}| == |s| + 1
  {
  }

  lemma ToSetInsert<T>(s: seq<T>, i: nat, x: T)
    requires i <= |s| && Distinct(s) && x !in s
    ensures Distinct(s[..i] + [x] + s[i..]) && ToSet(s[..i] + [x] + s[i..]) == ToSet(s) + {x}
  {
    var r := s[..i] + [x] + s[i..];
    assert s == s[..i] + s[i..];
    assert forall k | 0 <= k < |r| :: r[k] == if k < i then s[k] else if k == i then x else s[k - 1];
  }

  lemma ToSetTail<T>(s: seq<T>)
    requires s != [] && Distinct(s)
    ensures Distinct(s[1..]) && s[0] !in s[1..] && ToSet(s[1..]) == ToSet(s) - {s[0]}
  {
    assert s == [s[0]] + s[1..];
  }

  /** A split of a sequence without repetition splits its elements. */
  lemma DistinctSplit<T>(s: seq<T>, n: nat)
    requires Distinct(s) && n <= |s|
    ensures ToSet(s[..n]) == ToSet(s) - ToSet(s[n..]) && |ToSet(s[..n])| == n
  {
    assert s == s[..n] + s[n..];
    assert forall x | x in s[..n] :: x !in s[n..];
    DistinctSize(s[..n]);
  }

  /** The last `n` elements, or all of them when there are fewer. */
  function LastN<T>(s: seq<T>, n: nat): (r: seq<T>)
    ensures |r| == if |s| < n then |s| else n
    ensures r == s[|s| - |r|..]
  {
    if |s| <= n then s else s[|s| - n..]
  }

  /** Keeping a bounded window while appending loses nothing of the final window. */
  lemma LastNAppend<T>(s: seq<T>, n: nat, x: T)
    ensures LastN(LastN(s, n) + [x], n) == LastN(s + [x], n)
  {
  }
}
