/**
 The orderings the reports use. The HTML report lists every critical move
 by `sorted(..., key=delta, reverse=True)`, a stable sort with the largest
 swing first; the prompt file takes the first ten of that order. Each
 HTML entry is marked "good" or "error" by the same test the comment uses.
 */
module Ranking {
  import opened Records

  /** Deltas never increase along the list. */
  ghost predicate SortedByDeltaDesc(ms: seq<CriticalMove>) {
    forall i, j :: 0 <= i < j < |ms| ==> ms[i].delta >= ms[j].delta
  }

  /**
   Puts `m` into a list sorted by decreasing delta, in front of every
   record whose delta is not larger: among equal deltas `m` comes first.
   */
  function Insert(m: CriticalMove, ms: seq<CriticalMove>): (r: seq<CriticalMove>)
    ensures multiset(r) == multiset(ms) + multiset{m}
    ensures |r| == |ms| + 1
    ensures SortedByDeltaDesc(ms) ==> SortedByDeltaDesc(r)
  {
    if |ms| == 0 || m.delta >= ms[0].delta then [m] + ms
    else
      var rest := Insert(m, ms[1..]);
      assert ms == [ms[0]] + ms[1..];
      assert SortedByDeltaDesc(ms) ==> SortedByDeltaDesc(ms[1..]);
      assert rest[0] in multiset(rest);
      [ms[0]] + rest
  }

  /** `sorted(ms, key=lambda x: x.delta, reverse=True)`, as an insertion sort. */
  function SortByDelta(ms: seq<CriticalMove>): (r: seq<CriticalMove>)
    ensures multiset(r) == multiset(ms)
    ensures |r| == |ms|
    ensures SortedByDeltaDesc(r)
  {
    if |ms| == 0 then []
    else
      assert ms == [ms[0]] + ms[1..];
      Insert(ms[0], SortByDelta(ms[1..]))
  }

  /** The records of `ms` whose delta is `d`, in order. */
  function WithDelta(ms: seq<CriticalMove>, d: real): seq<CriticalMove> {
    if |ms| == 0 then []
    else (if ms[0].delta == d then [ms[0]] else []) + WithDelta(ms[1..], d)
  }

  /** Filtering a list that starts with `x`. */
  lemma WithDeltaCons(x: CriticalMove, xs: seq<CriticalMove>, d: real)
    ensures WithDelta([x] + xs, d) == (if x.delta == d then [x] else []) + WithDelta(xs, d)
  {
    assert ([x] + xs)[1..] == xs;
  }

  /**
   Inserting `m` puts it in front of the records with its delta and leaves
   the records of every delta in their order.
   */
  lemma {:induction false} InsertKeepsTiesInOrder(m: CriticalMove, ms: seq<CriticalMove>, d: real)
    ensures WithDelta(Insert(m, ms), d) == (if m.delta == d then [m] else []) + WithDelta(ms, d)
  {
    if |ms| == 0 || m.delta >= ms[0].delta {
      WithDeltaCons(m, ms, d);
    } else {
      var rest := Insert(m, ms[1..]);
      assert Insert(m, ms) == [ms[0]] + rest;
      InsertKeepsTiesInOrder(m, ms[1..], d);
      WithDeltaCons(ms[0], rest, d);
      WithDeltaCons(ms[0], ms[1..], d);
      assert [ms[0]] + ms[1..] == ms;
      assert !(m.delta == d && ms[0].delta == d);
    }
  }

  /**
   The sort is stable: the records sharing any one delta appear in the
   sorted list in the order they had in the input. With the permutation and
   the order this pins the sorted list down completely.
   */
  lemma {:induction false} SortIsStable(ms: seq<CriticalMove>, d: real)
    ensures WithDelta(SortByDelta(ms), d) == WithDelta(ms, d)
  {
    if |ms| > 0 {
      SortIsStable(ms[1..], d);
      InsertKeepsTiesInOrder(ms[0], SortByDelta(ms[1..]), d);
    }
  }

  /** At most this many moves get a prompt. */
  const PromptLimit: nat := 10

  /** The HTML report's order: every record, largest swing first. */
  function HtmlOrder(ms: seq<CriticalMove>): seq<CriticalMove> {
    SortByDelta(ms)
  }

  /** The moves that get a prompt: the first `min(10, |ms|)` of the HTML order. */
  function PromptMoves(ms: seq<CriticalMove>): (r: seq<CriticalMove>)
    ensures |r| == if |ms| < PromptLimit then |ms| else PromptLimit
    ensures r <= HtmlOrder(ms)
  {
    var s := HtmlOrder(ms);
    s[..if |s| < PromptLimit then |s| else PromptLimit]
  }

  /** Two lists that are permutations of each other have the same members. */
  lemma SameMembers(a: seq<CriticalMove>, b: seq<CriticalMove>)
    requires multiset(a) == multiset(b)
    ensures forall x :: x in a <==> x in b
  {
    forall x ensures x in a <==> x in b {
      assert x in a <==> x in multiset(a);
      assert x in b <==> x in multiset(b);
    }
  }

  /** In a list sorted by decreasing delta, every record up to `n` beats every one after. */
  lemma SortedPrefixDominates(s: seq<CriticalMove>, n: nat)
    requires SortedByDeltaDesc(s)
    requires n <= |s|
    ensures forall x, y :: x in s[..n] && y in s && y !in s[..n] ==> x.delta >= y.delta
  {
    forall x, y | x in s[..n] && y in s && y !in s[..n] ensures x.delta >= y.delta {
      var i :| 0 <= i < n && s[..n][i] == x;
      var j :| 0 <= j < |s| && s[j] == y;
      assert s[i] == x;
    }
  }

  /**
   The prompts go to the largest swings: every chosen move comes from the
   list, and no move left out has a larger swing than a chosen one.
   */
  lemma PromptMovesAreTop(ms: seq<CriticalMove>)
    ensures forall x :: x in PromptMoves(ms) ==> x in ms
    ensures forall x, y :: x in PromptMoves(ms) && y in ms && y !in PromptMoves(ms) ==>
              x.delta >= y.delta
  {
    var s := HtmlOrder(ms);
    var r := PromptMoves(ms);
    assert r == s[..|r|];
    SameMembers(s, ms);
    SortedPrefixDominates(s, |r|);
    forall x | x in r ensures x in s {
      var i :| 0 <= i < |r| && r[i] == x;
      assert s[i] == x;
    }
  }

  datatype MoveClass = Good | Error

  /** The HTML marker: "good" when the evaluation rose, "error" otherwise. */
  function ClassOf(m: CriticalMove): (c: MoveClass)
    ensures c == Good <==> DirectionOf(m.evalBefore, m.evalAfter) == Improvement
  {
    if m.evalAfter > m.evalBefore then Good else Error
  }

  /**
   For a record whose comment was generated from its own evaluations, the
   HTML marker and the comment agree: "good" exactly when the comment is
   the improvement text for its swing.
   */
  lemma ClassMatchesComment(m: CriticalMove)
    requires m.comment == Comment(m.evalBefore, m.evalAfter, m.delta)
    ensures ClassOf(m) == Good <==> m.comment == CommentText(Improvement, BucketOf(m.delta))
    ensures ClassOf(m) == Error <==> m.comment == CommentText(Regression, BucketOf(m.delta))
  {
    if m.comment == CommentText(Improvement, BucketOf(m.delta)) {
      CommentTextsDistinct(DirectionOf(m.evalBefore, m.evalAfter), BucketOf(m.delta),
                           Improvement, BucketOf(m.delta));
    }
    if m.comment == CommentText(Regression, BucketOf(m.delta)) {
      CommentTextsDistinct(DirectionOf(m.evalBefore, m.evalAfter), BucketOf(m.delta),
                           Regression, BucketOf(m.delta));
    }
  }
}
