/** Summing amounts per key, the accumulation every report source is built with. */
module Totals {

  datatype Entry<K> = Entry(key: K, amount: int)

  function Sum<K>(entries: seq<Entry<K>>): int
  {
    if entries == [] then 0 else Sum(entries[..|entries| - 1]) + entries[|entries| - 1].amount
  }

  /** The total of one key's amounts. */
  function SumOf<K(==)>(entries: seq<Entry<K>>, k: K): int
  {
    if entries == [] then 0
    else
      var last := entries[|entries| - 1];
      SumOf(entries[..|entries| - 1], k) + (if last.key == k then last.amount else 0)
  }

  function KeysOf<K(==)>(entries: seq<Entry<K>>): set<K>
  {
    set e | e in entries :: e.key
  }

  /** A key is present exactly when some entry has it, even if its amounts cancel to zero. */
  function TotalsOf<K(==)>(entries: seq<Entry<K>>): map<K, int>
  {
    map k | k in KeysOf(entries) :: SumOf(entries, k)
  }

  /** `totals[key] = totals.get(key, 0) + amount` */
  function Add<K(==)>(totals: map<K, int>, key: K, amount: int): map<K, int>
  {
    totals[key := (if key in totals then totals[key] else 0) + amount]
  }

  lemma {:induction false} AbsentSum<K>(entries: seq<Entry<K>>, k: K)
    requires k !in KeysOf(entries)
    ensures SumOf(entries, k) == 0
  {
    if entries != [] {
      assert entries[|entries| - 1] in entries;
      var front := entries[..|entries| - 1];
      assert forall e | e in front :: e in entries;
      AbsentSum(front, k);
    }
  }

  lemma TotalsStep<K>(entries: seq<Entry<K>>, e: Entry<K>)
    ensures TotalsOf(entries + [e]) == Add(TotalsOf(entries), e.key, e.amount)
  {
    var longer := entries + [e];
    assert longer[..|longer| - 1] == entries;
    assert KeysOf(longer) == KeysOf(entries) + {e.key} by {
      assert e in longer;
      assert forall x | x in entries :: x in longer;
    }
    if e.key !in KeysOf(entries) {
      AbsentSum(entries, e.key);
    }
  }

  lemma {:induction false} SumAppend<K>(a: seq<Entry<K>>, b: seq<Entry<K>>, k: K)
    ensures Sum(a + b) == Sum(a) + Sum(b)
    ensures SumOf(a + b, k) == SumOf(a, k) + SumOf(b, k)
  {
    if b == [] {
      assert a + b == a;
    } else {
      assert (a + b)[..|a + b| - 1] == a + b[..|b| - 1];
      SumAppend(a, b[..|b| - 1], k);
    }
  }

  /** Totals do not depend on the order in which the database returns the rows. */
  lemma {:induction false} TotalsPermute<K>(a: seq<Entry<K>>, b: seq<Entry<K>>)
    requires multiset(a) == multiset(b)
    ensures TotalsOf(a) == TotalsOf(b) && Sum(a) == Sum(b)
  {
    assert forall e :: e in a <==> e in multiset(a) <==> e in multiset(b) <==> e in b;
    assert KeysOf(a) == KeysOf(b);
    forall k: K
      ensures SumOf(a, k) == SumOf(b, k) && Sum(a) == Sum(b)
    {
      SumPermute(a, b, k);
    }
    if a == [] {
      assert b == [];
    } else {
      SumPermute(a, b, a[0].key);
    }
  }

  lemma {:induction false} SumPermute<K>(a: seq<Entry<K>>, b: seq<Entry<K>>, k: K)
    requires multiset(a) == multiset(b)
    ensures Sum(a) == Sum(b) && SumOf(a, k) == SumOf(b, k)
  {
    if a == [] {
      assert |multiset(b)| == 0;
    } else {
      var front, last := a[..|a| - 1], a[|a| - 1];
      assert a == front + [last];
      assert last in multiset(b);
      var j :| 0 <= j < |b| && b[j] == last;
      var rest := b[..j] + b[j + 1..];
      assert b == b[..j] + [last] + b[j + 1..];
      assert multiset(front) == multiset(rest) by {
        assert multiset(front) == multiset(a) - multiset{last};
        assert multiset(rest) == multiset(b) - multiset{last};
      }
      SumPermute(front, rest, k);
      SumAppend(b[..j] + [last], b[j + 1..], k);
      SumAppend(b[..j], [last], k);
      SumAppend(b[..j], b[j + 1..], k);
      SumAppend(front, [last], k);
    }
  }

  // ------------------------------------------------------------------ sum of a map's values

  ghost function MapSum<K>(m: map<K, int>): int
    decreases |m|
  {
    if m == map[] then 0
    else
      var k :| k in m;
      m[k] + MapSum(m - {k})
  }

  /** The value does not depend on which key is taken out first. */
  lemma {:induction false} MapSumRemove<K>(m: map<K, int>, k: K)
    requires k in m
    ensures MapSum(m) == m[k] + MapSum(m - {k})
    decreases |m|
  {
    var c :| c in m && MapSum(m) == m[c] + MapSum(m - {c});
    if c != k {
      MapSumRemove(m - {c}, k);
      MapSumRemove(m - {k}, c);
      assert m - {c} - {k} == m - {k} - {c};
    }
  }

  lemma MapSumAdd<K>(m: map<K, int>, k: K, v: int)
    ensures MapSum(Add(m, k, v)) == MapSum(m) + v
  {
    var n := Add(m, k, v);
    MapSumRemove(n, k);
    if k in m {
      MapSumRemove(m, k);
      assert n - {k} == m - {k};
    } else {
      assert n - {k} == m;
    }
  }

  /** Conservation: the values of the totals map add up to all the amounts. */
  lemma {:induction false} TotalsConserve<K>(entries: seq<Entry<K>>)
    ensures MapSum(TotalsOf(entries)) == Sum(entries)
  {
    if entries == [] {
      assert TotalsOf(entries) == map[];
    } else {
      var front, last := entries[..|entries| - 1], entries[|entries| - 1];
      assert entries == front + [last];
      TotalsConserve(front);
      TotalsStep(front, last);
      MapSumAdd(TotalsOf(front), last.key, last.amount);
    }
  }

  /** The entries whose keys pass the test, or fail it. */
  function Restrict<K(!new), V>(m: map<K, V>, p: K -> bool, passes: bool): map<K, V>
  {
    map k | k in m && p(k) == passes :: m[k]
  }

  /** A sum splits into what passes a test and what fails it. */
  lemma {:induction false} MapSumSplit<K(!new)>(m: map<K, int>, p: K -> bool)
    ensures MapSum(m) == MapSum(Restrict(m, p, true)) + MapSum(Restrict(m, p, false))
    decreases |m|
  {
    if m == map[] {
      assert Restrict(m, p, true) == map[] && Restrict(m, p, false) == map[];
    } else {
      var k :| k in m;
      var rest := m - {k};
      MapSumSplit(rest, p);
      MapSumRemove(m, k);
      MapSumRemove(Restrict(m, p, p(k)), k);
      assert Restrict(m, p, p(k)) - {k} == Restrict(rest, p, p(k));
      assert Restrict(m, p, !p(k)) == Restrict(rest, p, !p(k));
    }
  }

  /** Entries under distinct keys are the map they total to. */
  lemma {:induction false} DistinctTotals<K>(entries: seq<Entry<K>>)
    requires forall i, j | 0 <= i < j < |entries| :: entries[i].key != entries[j].key
    ensures forall i | 0 <= i < |entries| ::
              entries[i].key in TotalsOf(entries) && TotalsOf(entries)[entries[i].key] == entries[i].amount
    ensures forall k | k in TotalsOf(entries) :: exists i | 0 <= i < |entries| :: entries[i].key == k
  {
    if entries != [] {
      var front, last := entries[..|entries| - 1], entries[|entries| - 1];
      assert entries == front + [last];
      DistinctTotals(front);
      TotalsStep(front, last);
      assert forall i | 0 <= i < |front| :: entries[i] == front[i];
      assert last.key !in TotalsOf(front);
    }
  }
}
