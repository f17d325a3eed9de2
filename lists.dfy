/**
 * The JavaScript array operations the library relies on (`filter`,
 * `indexOf`, `splice(i, 1)`, `reverse`), stated once over Dafny sequences.
 */
module Lists {

  /** `s.filter(p)`: the elements satisfying `p`, in their original order. */
  function Filter<T>(s: seq<T>, p: T -> bool): (r: seq<T>)
    ensures |r| <= |s|
    ensures forall i | 0 <= i < |r| :: p(r[i]) && r[i] in s
    ensures forall i | 0 <= i < |s| && p(s[i]) :: s[i] in r
  {
    if |s| == 0 then []
    else if p(s[0]) then [s[0]] + Filter(s[1..], p)
    else Filter(s[1..], p)
  }

  /** Filtering distributes over concatenation. */
  lemma {:induction false} FilterAppend<T>(s: seq<T>, t: seq<T>, p: T -> bool)
    ensures Filter(s + t, p) == Filter(s, p) + Filter(t, p)
  {
    if |s| == 0 {
      assert s + t == t;
    } else {
      assert (s + t)[1..] == s[1..] + t;
      FilterAppend(s[1..], t, p);
    }
  }

  /** Two predicates that agree on every element of `s` filter it alike. */
  lemma {:induction false} FilterCongruent<T>(s: seq<T>, p: T -> bool, q: T -> bool)
    requires forall i | 0 <= i < |s| :: p(s[i]) == q(s[i])
    ensures Filter(s, p) == Filter(s, q)
  {
    if |s| > 0 {
      FilterCongruent(s[1..], p, q);
    }
  }

  /** Filtering one more element of `s` adds it at the end when it passes. */
  lemma FilterSnoc<T>(s: seq<T>, i: nat, p: T -> bool)
    requires i < |s|
    ensures Filter(s[..i + 1], p) == Filter(s[..i], p) + (if p(s[i]) then [s[i]] else [])
  {
    assert s[..i + 1] == s[..i] + [s[i]];
    FilterAppend(s[..i], [s[i]], p);
    assert Filter([s[i]], p) == (if p(s[i]) then [s[i]] else []) by {
      assert [s[i]][1..] == [];
    }
  }

  /** A predicate every element satisfies keeps the whole sequence. */
  lemma {:induction false} FilterAll<T>(s: seq<T>, p: T -> bool)
    requires forall i | 0 <= i < |s| :: p(s[i])
    ensures Filter(s, p) == s
  {
    if |s| > 0 {
      FilterAll(s[1..], p);
    }
  }

  /** A predicate no element satisfies keeps nothing. */
  lemma {:induction false} FilterNone<T>(s: seq<T>, p: T -> bool)
    requires forall i | 0 <= i < |s| :: !p(s[i])
    ensures Filter(s, p) == []
  {
    if |s| > 0 {
      FilterNone(s[1..], p);
    }
  }

  /** `s.indexOf(x)`: the first index holding `x`, or -1. */
  function IndexOf<T(==)>(s: seq<T>, x: T): (r: int)
    ensures -1 <= r < |s|
    ensures r == -1 <==> x !in s
    ensures r >= 0 ==> s[r] == x && x !in s[..r]
  {
    if |s| == 0 then -1
    else if s[0] == x then 0
    else
      var k := IndexOf(s[1..], x);
      assert s[1..][..k + 1] == s[1..k + 2] by {
        if k >= 0 {
          assert s[1..][..k] == s[1..k + 1];
        }
      }
      if k == -1 then -1 else k + 1
  }

  /** The first occurrence of `x` is where `indexOf` finds it. */
  lemma {:induction false} IndexOfAt<T>(s: seq<T>, k: nat, x: T)
    requires k < |s| && s[k] == x && x !in s[..k]
    ensures IndexOf(s, x) == k
  {
    if k > 0 {
      assert s[..k][0] == s[0];
      assert s[1..][..k - 1] == s[..k][1..];
      IndexOfAt(s[1..], k - 1, x);
    }
  }

  /**
   * `s.splice(i, 1)` for an index `i` that `indexOf` returned: -1 counts
   * from the end, so it removes the last element (nothing when `s` is empty).
   */
  function SpliceOne<T>(s: seq<T>, i: int): (r: seq<T>)
    requires -1 <= i < |s|
    ensures |s| > 0 ==> |r| == |s| - 1
    ensures |s| == 0 ==> r == []
    ensures 0 <= i ==> r == s[..i] + s[i + 1..]
    ensures i == -1 && |s| > 0 ==> r == s[..|s| - 1]
  {
    if i >= 0 then s[..i] + s[i + 1..]
    else if |s| > 0 then s[..|s| - 1]
    else []
  }

  /** `s` without the elements of `xs`, in order. */
  function Minus<T(==)>(s: seq<T>, xs: seq<T>): (r: seq<T>)
    ensures |r| <= |s|
    ensures forall i | 0 <= i < |r| :: r[i] in s && r[i] !in xs
  {
    if |s| == 0 then []
    else if s[0] in xs then Minus(s[1..], xs)
    else [s[0]] + Minus(s[1..], xs)
  }

  /** Removal distributes over concatenation. */
  lemma {:induction false} MinusAppend<T>(a: seq<T>, b: seq<T>, xs: seq<T>)
    ensures Minus(a + b, xs) == Minus(a, xs) + Minus(b, xs)
  {
    if |a| == 0 {
      assert a + b == b;
    } else {
      assert (a + b)[1..] == a[1..] + b;
      MinusAppend(a[1..], b, xs);
    }
  }

  /** Only membership in the removed sequence matters. */
  lemma {:induction false} MinusCongruent<T>(s: seq<T>, xs: seq<T>, ys: seq<T>)
    requires forall i | 0 <= i < |s| :: s[i] in xs <==> s[i] in ys
    ensures Minus(s, xs) == Minus(s, ys)
  {
    if |s| > 0 {
      MinusCongruent(s[1..], xs, ys);
    }
  }

  /** Removing nothing that occurs leaves the sequence as it is. */
  lemma {:induction false} MinusDisjoint<T>(s: seq<T>, xs: seq<T>)
    requires forall i | 0 <= i < |s| :: s[i] !in xs
    ensures Minus(s, xs) == s
  {
    if |s| > 0 {
      MinusDisjoint(s[1..], xs);
    }
  }

  /** In a sequence without repeats, `splice(indexOf(x), 1)` removes exactly `x`. */
  lemma {:induction false} SpliceOutIsMinus<T>(s: seq<T>, x: T)
    requires Distinct(s) && x in s
    ensures SpliceOne(s, IndexOf(s, x)) == Minus(s, [x])
  {
    if s[0] == x {
      MinusDisjoint(s[1..], [x]);
    } else {
      SpliceOutIsMinus(s[1..], x);
      var k := IndexOf(s[1..], x);
      assert s[..k + 1] == [s[0]] + s[1..][..k];
      assert s[k + 2..] == s[1..][k + 1..];
    }
  }

  /** Removing `x`, then `xs`, is removing `[x] + xs`. */
  lemma {:induction false} MinusMinus<T>(s: seq<T>, x: T, xs: seq<T>)
    ensures Minus(Minus(s, [x]), xs) == Minus(s, [x] + xs)
  {
    if |s| > 0 {
      MinusMinus(s[1..], x, xs);
    }
  }

  /** Removing elements keeps a sequence free of repeats. */
  lemma {:induction false} MinusDistinct<T>(s: seq<T>, xs: seq<T>)
    requires Distinct(s)
    ensures Distinct(Minus(s, xs))
  {
    if |s| > 0 {
      MinusDistinct(s[1..], xs);
      var rest := Minus(s[1..], xs);
      forall k | 0 <= k < |rest|
        ensures rest[k] != s[0]
      {
        var j :| 0 <= j < |s[1..]| && s[1..][j] == rest[k];
        assert s[j + 1] == rest[k];
      }
    }
  }

  /** `xs.forEach(x => s.splice(s.indexOf(x), 1))`, one element after another. */
  function RemoveEach<T(==)>(s: seq<T>, xs: seq<T>): seq<T>
    decreases |xs|
  {
    if |xs| == 0 then s
    else RemoveEach(SpliceOne(s, IndexOf(s, xs[0])), xs[1..])
  }

  /**
   * When `s` has no repeats and every element of `xs` occurs in `s` once,
   * removing them one by one removes exactly them.
   */
  lemma {:induction false} RemoveEachIsMinus<T>(s: seq<T>, xs: seq<T>)
    requires Distinct(s) && Distinct(xs)
    requires forall i | 0 <= i < |xs| :: xs[i] in s
    ensures RemoveEach(s, xs) == Minus(s, xs)
    decreases |xs|
  {
    if |xs| == 0 {
      MinusDisjoint(s, xs);
    } else {
      RemoveFirst(s, xs);
      RemoveEachIsMinus(SpliceOne(s, IndexOf(s, xs[0])), xs[1..]);
    }
  }

  /** After the first element of `xs` is spliced out, the rest of `xs` is left to remove. */
  lemma RemoveFirst<T>(s: seq<T>, xs: seq<T>)
    requires Distinct(s) && Distinct(xs) && |xs| > 0
    requires forall i | 0 <= i < |xs| :: xs[i] in s
    ensures var s' := SpliceOne(s, IndexOf(s, xs[0]));
            Distinct(s') && Distinct(xs[1..])
            && (forall i | 0 <= i < |xs[1..]| :: xs[1..][i] in s')
            && Minus(s', xs[1..]) == Minus(s, xs)
  {
    SpliceOutIsMinus(s, xs[0]);
    MinusDistinct(s, [xs[0]]);
    RestSurvives(s, xs);
    MinusOfRest(s, xs);
  }

  /** Removing the first element of `xs`, then the rest, is removing `xs`. */
  lemma MinusOfRest<T>(s: seq<T>, xs: seq<T>)
    requires |xs| > 0
    ensures Minus(Minus(s, [xs[0]]), xs[1..]) == Minus(s, xs)
  {
    MinusMinus(s, xs[0], xs[1..]);
    assert [xs[0]] + xs[1..] == xs;
  }

  /** The elements of `xs` after its first survive the removal of the first. */
  lemma RestSurvives<T>(s: seq<T>, xs: seq<T>)
    requires Distinct(xs) && |xs| > 0
    requires forall i | 0 <= i < |xs| :: xs[i] in s
    ensures Distinct(xs[1..])
    ensures forall i | 0 <= i < |xs[1..]| :: xs[1..][i] in Minus(s, [xs[0]])
  {
    forall i | 0 <= i < |xs[1..]|
      ensures xs[1..][i] in Minus(s, [xs[0]])
    {
      assert xs[1..][i] == xs[i + 1];
      MinusKeeps(s, [xs[0]], xs[i + 1]);
    }
  }

  /** An element of `s` outside `xs` survives the removal. */
  lemma {:induction false} MinusKeeps<T>(s: seq<T>, xs: seq<T>, y: T)
    requires y in s && y !in xs
    ensures y in Minus(s, xs)
  {
    if s[0] != y {
      MinusKeeps(s[1..], xs, y);
    }
  }

  /** `s.reverse()`. */
  function Reverse<T>(s: seq<T>): (r: seq<T>)
    ensures |r| == |s|
    ensures forall i | 0 <= i < |s| :: r[i] == s[|s| - 1 - i]
  {
    if |s| == 0 then [] else Reverse(s[1..]) + [s[0]]
  }

  /** Reversing twice gives back the original order. */
  lemma ReverseInvolutive<T>(s: seq<T>)
    ensures Reverse(Reverse(s)) == s
  {
    var r := Reverse(Reverse(s));
    assert |r| == |s|;
    forall i | 0 <= i < |s|
      ensures r[i] == s[i]
    {
      assert r[i] == Reverse(s)[|s| - 1 - i];
    }
  }

  /** Reversing a concatenation reverses each part and swaps them. */
  lemma ReverseAppend<T>(a: seq<T>, b: seq<T>)
    ensures Reverse(a + b) == Reverse(b) + Reverse(a)
  {
    var r, t := Reverse(a + b), Reverse(b) + Reverse(a);
    assert |r| == |t|;
    forall i | 0 <= i < |r|
      ensures r[i] == t[i]
    {
      if i < |b| {
        assert t[i] == Reverse(b)[i];
      } else {
        assert t[i] == Reverse(a)[i - |b|];
      }
    }
  }

  /** No element occurs twice. */
  predicate Distinct<T(==)>(s: seq<T>) {
    forall i, j | 0 <= i < j < |s| :: s[i] != s[j]
  }

  /** Two sequences without repeats and without a common element concatenate without repeats. */
  lemma DistinctAppend<T>(a: seq<T>, b: seq<T>)
    requires Distinct(a) && Distinct(b)
    requires forall i, j | 0 <= i < |a| && 0 <= j < |b| :: a[i] != b[j]
    ensures Distinct(a + b)
  {
    forall i, j | 0 <= i < j < |a + b|
      ensures (a + b)[i] != (a + b)[j]
    {
      if j < |a| {
        assert (a + b)[i] == a[i] && (a + b)[j] == a[j];
      } else if i < |a| {
        assert (a + b)[i] == a[i] && (a + b)[j] == b[j - |a|];
      } else {
        assert (a + b)[i] == b[i - |a|] && (a + b)[j] == b[j - |a|];
      }
    }
  }

  /** The sequences of `ss`, one after another (`ss.flat()`). */
  function Concat<T>(ss: seq<seq<T>>): seq<T> {
    if |ss| == 0 then [] else Concat(ss[..|ss| - 1]) + ss[|ss| - 1]
  }

  /** One more sequence of `ss` is appended after those before it. */
  lemma ConcatPrefix<T>(ss: seq<seq<T>>, i: nat)
    requires i < |ss|
    ensures Concat(ss[..i + 1]) == Concat(ss[..i]) + ss[i]
  {
    assert ss[..i + 1][..i] == ss[..i];
  }
}
