/** Shared vocabulary: optional values, results, and filtering of table scans. */
module Common {

  datatype Option<+T> = None | Some(value: T)

  datatype Result<+T, +E> = Ok(value: T) | Err(error: E)

  /** A table scan with a WHERE clause: the rows of `s` that satisfy `p`, in scan order. */
  function Filter<T(!new)>(p: T -> bool, s: seq<T>): (r: seq<T>)
    ensures |r| <= |s|
    ensures forall x :: x in r <==> x in s && p(x)
  {
    if s == [] then []
    else if p(s[0]) then [s[0]] + Filter(p, s[1..])
    else Filter(p, s[1..])
  }

  lemma {:induction false} FilterAppend<T(!new)>(p: T -> bool, s: seq<T>, t: seq<T>)
    ensures Filter(p, s + t) == Filter(p, s) + Filter(p, t)
  {
    if s == [] {
      assert s + t == t;
    } else {
      assert (s + t)[1..] == s[1..] + t;
      FilterAppend(p, s[1..], t);
    }
  }

  lemma FilterSnoc<T(!new)>(p: T -> bool, s: seq<T>, x: T)
    ensures Filter(p, s + [x]) == if p(x) then Filter(p, s) + [x] else Filter(p, s)
  {
    FilterAppend(p, s, [x]);
    assert Filter(p, [x]) == if p(x) then [x] else [];
  }

  /** A narrower scan of a wider scan is the narrower scan. */
  lemma {:induction false} FilterWithin<T(!new)>(p: T -> bool, q: T -> bool, s: seq<T>)
    requires forall x :: p(x) ==> q(x)
    ensures Filter(p, Filter(q, s)) == Filter(p, s)
  {
    if s != [] {
      FilterWithin(p, q, s[1..]);
      if q(s[0]) {
        assert Filter(q, s)[1..] == Filter(q, s[1..]);
      }
    }
  }

  lemma {:induction false} FilterNone<T(!new)>(p: T -> bool, s: seq<T>)
    requires forall x | x in s :: !p(x)
    ensures Filter(p, s) == []
  {
    if s != [] {
      FilterNone(p, s[1..]);
    }
  }

  lemma {:induction false} FilterAll<T(!new)>(p: T -> bool, s: seq<T>)
    requires forall x | x in s :: p(x)
    ensures Filter(p, s) == s
  {
    if s != [] {
      FilterAll(p, s[1..]);
    }
  }

  /** Filtering keeps the multiplicity of what passes and drops the rest. */
  lemma {:induction false} FilterCount<T(!new)>(p: T -> bool, s: seq<T>, x: T)
    ensures multiset(Filter(p, s))[x] == if p(x) then multiset(s)[x] else 0
  {
    if s != [] {
      assert s == [s[0]] + s[1..];
      FilterCount(p, s[1..], x);
    }
  }

  /** Two scans of one table in different physical orders, filtered, are permutations of each other. */
  lemma FilterPermutes<T(!new)>(p: T -> bool, s: seq<T>, t: seq<T>)
    requires multiset(s) == multiset(t)
    ensures multiset(Filter(p, s)) == multiset(Filter(p, t))
  {
    forall x: T
      ensures multiset(Filter(p, s))[x] == multiset(Filter(p, t))[x]
    {
      FilterCount(p, s, x);
      FilterCount(p, t, x);
    }
  }

  /** The member taken out, and what stands before and after it. */
  lemma SplitAt<T>(s: seq<T>, x: T) returns (left: seq<T>, right: seq<T>)
    requires x in s
    ensures s == left + [x] + right
    ensures multiset(left + right) == multiset(s) - multiset{x}
  {
    var i :| 0 <= i < |s| && s[i] == x;
    left, right := s[..i], s[i + 1..];
    assert s == left + [x] + right;
  }

  lemma SameMembers<T(!new)>(s: seq<T>, t: seq<T>)
    requires multiset(s) == multiset(t)
    ensures forall x :: x in s <==> x in t
  {
    forall x: T
      ensures x in s <==> x in t
    {
      assert x in s <==> x in multiset(s);
      assert x in t <==> x in multiset(t);
    }
  }

  /** What each row contributes, in order. */
  function FlatMap<T, U>(f: T -> seq<U>, s: seq<T>): seq<U>
  {
    if s == [] then [] else FlatMap(f, s[..|s| - 1]) + f(s[|s| - 1])
  }

  lemma {:induction false} FlatMapConcat<T, U>(f: T -> seq<U>, a: seq<T>, b: seq<T>)
    ensures FlatMap(f, a + b) == FlatMap(f, a) + FlatMap(f, b)
  {
    if b == [] {
      assert a + b == a;
    } else {
      assert (a + b)[..|a + b| - 1] == a + b[..|b| - 1];
      FlatMapConcat(f, a, b[..|b| - 1]);
    }
  }

  lemma FlatMapMiddleOut<T, U>(f: T -> seq<U>, a: seq<T>, x: T, b: seq<T>)
    ensures multiset(FlatMap(f, a + [x] + b)) == multiset(FlatMap(f, a + b)) + multiset(f(x))
  {
    FlatMapConcat(f, a + [x], b);
    FlatMapConcat(f, a, b);
    assert (a + [x])[..|a + [x]| - 1] == a;
    MiddleLast(FlatMap(f, a), f(x), FlatMap(f, b));
  }

  lemma MiddleLast<T>(a: seq<T>, x: seq<T>, b: seq<T>)
    ensures multiset(a + x + b) == multiset(a + b) + multiset(x)
  {
  }

  /** Permuting the rows permutes the contributions. */
  lemma {:induction false} FlatMapPermutes<T, U>(f: T -> seq<U>, a: seq<T>, b: seq<T>)
    requires multiset(a) == multiset(b)
    ensures multiset(FlatMap(f, a)) == multiset(FlatMap(f, b))
  {
    if a == [] {
      assert |multiset(b)| == 0;
    } else {
      var front, x := a[..|a| - 1], a[|a| - 1];
      assert a == front + [x];
      assert x in multiset(b);
      var left, right := SplitAt(b, x);
      FlatMapPermutes(f, front, left + right);
      FlatMapMiddleOut(f, left, x, right);
    }
  }

  /** Every earlier row stands in the relation to every later one. */
  ghost predicate Pairwise<T(!new)>(related: (T, T) -> bool, s: seq<T>) {
    forall i, j | 0 <= i < j < |s| :: related(s[i], s[j])
  }

  /** A scan keeps what holds of every two rows in their order. */
  lemma {:induction false} FilterKeepsPairwise<T(!new)>(related: (T, T) -> bool, p: T -> bool, s: seq<T>)
    requires Pairwise(related, s)
    ensures Pairwise(related, Filter(p, s))
  {
    if s != [] {
      FilterKeepsPairwise(related, p, s[1..]);
      var rest := Filter(p, s[1..]);
      forall j | 0 <= j < |rest|
        ensures related(s[0], rest[j])
      {
        assert rest[j] in rest && rest[j] in s[1..];
        var i :| 0 <= i < |s[1..]| && s[1..][i] == rest[j];
        assert s[i + 1] == rest[j];
      }
    }
  }

  /** The property holds at every point of the run. */
  ghost predicate AtEveryPoint<T(!new)>(p: seq<T> -> bool, steps: seq<T>) {
    forall n | 0 <= n <= |steps| :: p(steps[..n])
  }

  lemma AtEveryPointSplits<T(!new)>(p: seq<T> -> bool, steps: seq<T>)
    ensures steps == [] ==> (AtEveryPoint(p, steps) <==> p([]))
    ensures steps != [] ==> (AtEveryPoint(p, steps) <==> AtEveryPoint(p, steps[..|steps| - 1]) && p(steps))
    ensures AtEveryPoint(p, steps) ==> p(steps)
  {
    assert steps[..|steps|] == steps;
    if steps != [] {
      var front := steps[..|steps| - 1];
      assert forall n | 0 <= n <= |front| :: front[..n] == steps[..n];
    }
  }
}
