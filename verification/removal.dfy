/** Removing list entries by index the way both colonies do it: the indices
    are collected in increasing order and then popped from the highest down,
    so that every pop leaves the lower indices still pointing at the right
    entries. The reference meaning is a plain order-preserving filter. */
module Removal {

  /** Strictly increasing and inside `[0, n)`. */
  predicate IndexList(dead: seq<int>, n: int)
  {
    && (forall k :: 0 <= k < |dead| ==> 0 <= dead[k] < n)
    && (forall j, k :: 0 <= j < k < |dead| ==> dead[j] < dead[k])
  }

  /** `[i for i, flag in enumerate(flags) if flag]`. */
  function Marked(flags: seq<bool>): (r: seq<int>)
    ensures IndexList(r, |flags|)
    ensures forall i :: 0 <= i < |flags| ==> (flags[i] <==> i in r)
    ensures |r| <= |flags|
  {
    if |flags| == 0 then []
    else
      var n := |flags| - 1;
      var prefix := Marked(flags[..n]);
      assert forall i :: 0 <= i < n ==> flags[..n][i] == flags[i];
      prefix + (if flags[n] then [n] else [])
  }

  /** How many flags are set. */
  function Count(flags: seq<bool>): (c: nat)
    ensures c <= |flags|
  {
    if |flags| == 0 then 0 else Count(flags[..|flags| - 1]) + (if flags[|flags| - 1] then 1 else 0)
  }

  lemma {:induction false} MarkedCount(flags: seq<bool>)
    ensures |Marked(flags)| == Count(flags)
  {
    if |flags| > 0 {
      MarkedCount(flags[..|flags| - 1]);
    }
  }

  /** The entries whose flag is clear, in their original order. */
  function Unmarked<T>(s: seq<T>, flags: seq<bool>): (r: seq<T>)
    requires |s| == |flags|
    ensures |r| == |s| - Count(flags)
  {
    if |s| == 0 then []
    else
      var n := |s| - 1;
      Unmarked(s[..n], flags[..n]) + (if flags[n] then [] else [s[n]])
  }

  /** `for i in reversed(dead): s.pop(i)`. */
  function Drop<T>(s: seq<T>, dead: seq<int>): (r: seq<T>)
    requires IndexList(dead, |s|)
    ensures |r| == |s| - |dead|
  {
    if |dead| == 0 then s
    else
      var last := dead[|dead| - 1];
      Drop(s[..last] + s[last + 1..], dead[..|dead| - 1])
  }

  /** Pops below `|a|` never touch what follows `a`. */
  lemma {:induction false} DropAppend<T>(a: seq<T>, b: seq<T>, dead: seq<int>)
    requires IndexList(dead, |a|)
    ensures IndexList(dead, |a + b|)
    ensures Drop(a + b, dead) == Drop(a, dead) + b
  {
    if |dead| > 0 {
      var last := dead[|dead| - 1];
      var a' := a[..last] + a[last + 1..];
      assert (a + b)[..last] + (a + b)[last + 1..] == a' + b;
      DropAppend(a', b, dead[..|dead| - 1]);
    }
  }

  /** Popping the marked indices from the highest down leaves exactly the
      unmarked entries, in order. */
  lemma {:induction false} DropMarked<T>(s: seq<T>, flags: seq<bool>)
    requires |s| == |flags|
    ensures Drop(s, Marked(flags)) == Unmarked(s, flags)
  {
    if |s| > 0 {
      var n := |s| - 1;
      DropMarked(s[..n], flags[..n]);
      DropStep(s, flags);
    }
  }

  /** The step of `DropMarked`: what holds of the list without its last
      entry holds of the whole list. */
  lemma {:induction false} DropStep<T>(s: seq<T>, flags: seq<bool>)
    requires |s| == |flags| > 0
    requires Drop(s[..|s| - 1], Marked(flags[..|s| - 1])) == Unmarked(s[..|s| - 1], flags[..|s| - 1])
    ensures Drop(s, Marked(flags)) == Unmarked(s, flags)
  {
    if flags[|s| - 1] {
      DropFlagged(s, flags);
    } else {
      DropUnflagged(s, flags);
    }
  }

  /** The step of `DropMarked` when the last entry is flagged. */
  lemma {:induction false} DropFlagged<T>(s: seq<T>, flags: seq<bool>)
    requires |s| == |flags| > 0 && flags[|s| - 1]
    requires Drop(s[..|s| - 1], Marked(flags[..|s| - 1])) == Unmarked(s[..|s| - 1], flags[..|s| - 1])
    ensures Drop(s, Marked(flags)) == Unmarked(s, flags)
  {
    var n := |s| - 1;
    var prefix := Marked(flags[..n]);
    assert Marked(flags) == prefix + [n];
    DropLast(s, prefix);
  }

  /** The step of `DropMarked` when the last entry is kept. */
  lemma {:induction false} DropUnflagged<T>(s: seq<T>, flags: seq<bool>)
    requires |s| == |flags| > 0 && !flags[|s| - 1]
    requires Drop(s[..|s| - 1], Marked(flags[..|s| - 1])) == Unmarked(s[..|s| - 1], flags[..|s| - 1])
    ensures Drop(s, Marked(flags)) == Unmarked(s, flags)
  {
    var n := |s| - 1;
    var front, last := s[..n], [s[n]];
    SplitLast(s);
    var prefix := Marked(flags[..n]);
    KeepLast(s, flags);
    DropAppend(front, last, prefix);
  }

  /** An unflagged last entry adds no index and is kept at the end. */
  lemma KeepLast<T>(s: seq<T>, flags: seq<bool>)
    requires |s| == |flags| > 0 && !flags[|s| - 1]
    ensures Marked(flags) == Marked(flags[..|s| - 1])
    ensures Unmarked(s, flags) == Unmarked(s[..|s| - 1], flags[..|s| - 1]) + [s[|s| - 1]]
  {
  }

  lemma SplitLast<T>(s: seq<T>)
    requires |s| > 0
    ensures s[..|s| - 1] + [s[|s| - 1]] == s
  {
  }

  /** Dropping a list that ends with the last index drops that entry first. */
  lemma DropLast<T>(s: seq<T>, prefix: seq<int>)
    requires |s| > 0 && IndexList(prefix, |s| - 1)
    ensures IndexList(prefix + [|s| - 1], |s|)
    ensures Drop(s, prefix + [|s| - 1]) == Drop(s[..|s| - 1], prefix)
  {
    var n := |s| - 1;
    assert (prefix + [n])[..|prefix|] == prefix;
    assert s[..n] + s[n + 1..] == s[..n];
  }

  /** Every entry of the filter is an entry of the input with its flag clear. */
  lemma {:induction false} UnmarkedFrom<T>(s: seq<T>, flags: seq<bool>, k: int)
    requires |s| == |flags| && 0 <= k < |Unmarked(s, flags)|
    ensures exists i :: 0 <= i < |s| && !flags[i] && s[i] == Unmarked(s, flags)[k]
  {
    var n := |s| - 1;
    var prefix := Unmarked(s[..n], flags[..n]);
    if k < |prefix| {
      UnmarkedFrom(s[..n], flags[..n], k);
      var i :| 0 <= i < n && !flags[..n][i] && s[..n][i] == prefix[k];
      assert !flags[i] && s[i] == Unmarked(s, flags)[k];
    } else {
      assert !flags[n] && s[n] == Unmarked(s, flags)[k];
    }
  }

  /** Nothing is dropped when no flag is set. */
  lemma {:induction false} UnmarkedNone<T>(s: seq<T>, flags: seq<bool>)
    requires |s| == |flags| && forall i :: 0 <= i < |flags| ==> !flags[i]
    ensures Unmarked(s, flags) == s
  {
    if |s| > 0 {
      var n := |s| - 1;
      UnmarkedNone(s[..n], flags[..n]);
      assert s == s[..n] + [s[n]];
    }
  }
}
