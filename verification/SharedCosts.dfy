/** Shared-cost versions: which units a new version affects, and what each of them is told. */
module SharedCosts {
  import opened Common
  import opened Totals
  import OrgTree

  datatype Line = Line(unit: nat, account: nat, amount: int)

  datatype Row = Row(unit: nat, accountCode: string, amount: int)

  function ByUnit(lines: seq<Line>): seq<Entry<nat>>
  {
    if lines == [] then []
    else
      var last := lines[|lines| - 1];
      ByUnit(lines[..|lines| - 1]) + [Entry(last.unit, last.amount)]
  }

  predicate Names(lines: seq<Line>, unit: nat) { exists l | l in lines :: l.unit == unit }

  /** The unit's total, or None when no line names it: a unit with lines that add up to zero has a total. */
  function UnitTotal(lines: seq<Line>, unit: nat): Option<int>
  {
    if Names(lines, unit) then Some(SumOf(ByUnit(lines), unit)) else None
  }

  /** Read from the aggregated totals, an absent unit counts as zero. */
  function AmountOf(lines: seq<Line>, unit: nat): int
  {
    if UnitTotal(lines, unit).Some? then UnitTotal(lines, unit).value else 0
  }

  lemma {:induction false} KeysAreUnits(lines: seq<Line>)
    ensures forall u :: u in KeysOf(ByUnit(lines)) <==> Names(lines, u)
  {
    if lines != [] {
      var front, last := lines[..|lines| - 1], lines[|lines| - 1];
      assert lines == front + [last];
      KeysAreUnits(front);
      TotalsStep(ByUnit(front), Entry(last.unit, last.amount));
      forall u
        ensures u in KeysOf(ByUnit(lines)) <==> u in KeysOf(ByUnit(front)) || u == last.unit
      {
        assert KeysOf(ByUnit(lines)) == TotalsOf(ByUnit(lines)).Keys;
        assert KeysOf(ByUnit(front)) == TotalsOf(ByUnit(front)).Keys;
      }
    }
  }

  function Lookup(totals: map<nat, int>, unit: nat): Option<int> { if unit in totals then Some(totals[unit]) else None }

  lemma TotalsAreUnitTotals(lines: seq<Line>)
    ensures forall u :: UnitTotal(lines, u) == Lookup(TotalsOf(ByUnit(lines)), u)
  {
    KeysAreUnits(lines);
  }

  function OfUnit(unit: nat): Line -> bool { (l: Line) => l.unit == unit }

  function AmountSum(lines: seq<Line>): int
  {
    if lines == [] then 0 else AmountSum(lines[..|lines| - 1]) + lines[|lines| - 1].amount
  }

  /** A unit's total is the sum of its lines, and the total of the whole the sum of all lines. */
  lemma TotalsAreSums(lines: seq<Line>, unit: nat)
    ensures UnitTotal(lines, unit) == if exists l | l in lines :: l.unit == unit
                                      then Some(AmountSum(Filter(OfUnit(unit), lines))) else None
    ensures AmountOf(lines, unit) == AmountSum(Filter(OfUnit(unit), lines))
    ensures TotalAmount(lines) == AmountSum(lines)
  {
    SumIsFiltered(lines, unit);
    WholeIsSum(lines);
    if !Names(lines, unit) {
      FilterNone(OfUnit(unit), lines);
    }
  }

  lemma {:induction false} SumIsFiltered(lines: seq<Line>, unit: nat)
    ensures SumOf(ByUnit(lines), unit) == AmountSum(Filter(OfUnit(unit), lines))
  {
    if lines != [] {
      var front, last := lines[..|lines| - 1], lines[|lines| - 1];
      assert lines == front + [last];
      SumIsFiltered(front, unit);
      FilterSnoc(OfUnit(unit), front, last);
    }
  }

  lemma {:induction false} WholeIsSum(lines: seq<Line>)
    ensures TotalAmount(lines) == AmountSum(lines)
  {
    if lines != [] {
      WholeIsSum(lines[..|lines| - 1]);
    }
  }

  method AggregateByUnit(lines: seq<Line>) returns (totals: map<nat, int>)
    ensures totals == TotalsOf(ByUnit(lines))
    ensures forall u :: UnitTotal(lines, u) == Lookup(totals, u)
  {
    totals := map[];
    for i := 0 to |lines|
      invariant totals == TotalsOf(ByUnit(lines[..i]))
    {
      var line := lines[i];
      assert lines[..i + 1][..i] == lines[..i];
      TotalsStep(ByUnit(lines[..i]), Entry(line.unit, line.amount));
      totals := Add(totals, line.unit, line.amount);
    }
    assert lines[..|lines|] == lines;
    TotalsAreUnitTotals(lines);
  }

  /** The affected units are exactly those whose optional totals differ. */
  method DiffAffectedUnits(prevLines: seq<Line>, newLines: seq<Line>) returns (affected: set<nat>)
    ensures forall u :: u in affected <==> UnitTotal(prevLines, u) != UnitTotal(newLines, u)
    ensures affected == Affected(prevLines, newLines)
  {
    var prevTotals := AggregateByUnit(prevLines);
    var newTotals := AggregateByUnit(newLines);
    affected := DiffTotals(prevTotals, newTotals);
    AffectedMembers(prevLines, newLines);
  }

  method DiffTotals(prevTotals: map<nat, int>, newTotals: map<nat, int>) returns (affected: set<nat>)
    ensures forall u :: u in affected <==> Lookup(prevTotals, u) != Lookup(newTotals, u)
  {
    var allUnits := prevTotals.Keys + newTotals.Keys;
    var rest := allUnits;
    affected := {};
    while rest != {}
      invariant rest <= allUnits
      invariant forall u :: u in affected <==> u in allUnits - rest && Lookup(prevTotals, u) != Lookup(newTotals, u)
      decreases |rest|
    {
      var unit :| unit in rest;
      rest := rest - {unit};
      if Lookup(prevTotals, unit) != Lookup(newTotals, unit) {
        affected := affected + {unit};
      }
    }
  }

  function UnitsOf(lines: seq<Line>): set<nat> { set l | l in lines :: l.unit }

  function Affected(prevLines: seq<Line>, newLines: seq<Line>): set<nat>
  {
    set u | u in UnitsOf(prevLines) + UnitsOf(newLines) && UnitTotal(prevLines, u) != UnitTotal(newLines, u)
  }

  lemma AffectedMembers(prevLines: seq<Line>, newLines: seq<Line>)
    ensures forall u :: u in Affected(prevLines, newLines) <==> UnitTotal(prevLines, u) != UnitTotal(newLines, u)
  {
    forall u | UnitTotal(prevLines, u) != UnitTotal(newLines, u)
      ensures u in UnitsOf(prevLines) + UnitsOf(newLines)
    {
      assert UnitTotal(prevLines, u).Some? || UnitTotal(newLines, u).Some?;
    }
  }

  // ------------------------------------------------------------------ the difference as a distance

  /** Symmetric, empty between equal versions, and subadditive along a chain of versions. */
  lemma AffectedIsADistance(a: seq<Line>, b: seq<Line>, c: seq<Line>)
    ensures Affected(a, b) == Affected(b, a)
    ensures Affected(a, a) == {}
    ensures Affected(a, c) <= Affected(a, b) + Affected(b, c)
  {
    AffectedMembers(a, b);
    AffectedMembers(b, a);
    AffectedMembers(b, c);
    AffectedMembers(a, c);
  }

  /** Neither reordering a version's lines nor splitting one of them changes what is affected. */
  lemma AffectedIgnoresOrderAndSplits(prev: seq<Line>, lines: seq<Line>, other: seq<Line>)
    requires SameCosts(lines, other)
    ensures Affected(prev, lines) == Affected(prev, other)
  {
    AffectedMembers(prev, lines);
    AffectedMembers(prev, other);
    forall u
      ensures UnitTotal(lines, u) == UnitTotal(other, u)
    {
      SameCostsSameTotal(lines, other, u);
    }
  }

  /** The two versions hold the same lines in another order, or one line of the first is split in two. */
  ghost predicate SameCosts(lines: seq<Line>, other: seq<Line>) {
    || multiset(lines) == multiset(other)
    || exists front, split, back, part: int, account: nat ::
         IsSplit(lines, other, front, split, back, part, account)
  }

  ghost predicate IsSplit(lines: seq<Line>, other: seq<Line>, front: seq<Line>, split: Line, back: seq<Line>,
                          part: int, account: nat) {
    && lines == front + [split] + back
    && other == front + [split.(amount := part), Line(split.unit, account, split.amount - part)] + back
  }

  lemma SameCostsSameTotal(lines: seq<Line>, other: seq<Line>, unit: nat)
    requires SameCosts(lines, other)
    ensures UnitTotal(lines, unit) == UnitTotal(other, unit)
  {
    if multiset(lines) == multiset(other) {
      SameMembers(lines, other);
      SumPermutes(lines, other, unit);
    } else {
      var front, split, back, part: int, account: nat :| IsSplit(lines, other, front, split, back, part, account);
      SplitKeepsTotal(front, split, back, part, account, unit);
    }
  }

  lemma SplitKeepsTotal(front: seq<Line>, split: Line, back: seq<Line>, part: int, account: nat, unit: nat)
    ensures UnitTotal(front + [split] + back, unit)
         == UnitTotal(front + [split.(amount := part), Line(split.unit, account, split.amount - part)] + back, unit)
  {
    var one, first, second := [split], split.(amount := part), Line(split.unit, account, split.amount - part);
    var two := [first, second];
    SumOfThree(front, one, back, unit);
    SumOfThree(front, two, back, unit);
    NamesThree(front, one, back, unit);
    NamesThree(front, two, back, unit);
    SplitLine(split, first, second, unit);
  }

  lemma SplitLine(split: Line, first: Line, second: Line, unit: nat)
    requires first.unit == split.unit && second.unit == split.unit && first.amount + second.amount == split.amount
    ensures Names([split], unit) == Names([first, second], unit)
    ensures SumOf(ByUnit([split]), unit) == SumOf(ByUnit([first, second]), unit)
  {
    SumOfOne(split, unit);
    SumOfOne(first, unit);
    SumOfOne(second, unit);
    assert [first, second] == [first] + [second];
    SumOfTwo([first], [second], unit);
    assert split in [split] && first in [first, second];
  }

  lemma NamesThree(a: seq<Line>, b: seq<Line>, c: seq<Line>, unit: nat)
    ensures Names(a + b + c, unit) <==> Names(a, unit) || Names(b, unit) || Names(c, unit)
  {
    assert forall l :: l in a + b + c <==> l in a || l in b || l in c;
  }

  lemma SumOfOne(line: Line, unit: nat)
    ensures SumOf(ByUnit([line]), unit) == if line.unit == unit then line.amount else 0
  {
    assert ByUnit([line]) == [Entry(line.unit, line.amount)];
    assert [Entry(line.unit, line.amount)][..0] == [];
  }

  lemma SumOfTwo(a: seq<Line>, b: seq<Line>, unit: nat)
    ensures SumOf(ByUnit(a + b), unit) == SumOf(ByUnit(a), unit) + SumOf(ByUnit(b), unit)
  {
    ByUnitConcat(a, b);
    SumAppend(ByUnit(a), ByUnit(b), unit);
  }

  lemma SumOfThree(a: seq<Line>, b: seq<Line>, c: seq<Line>, unit: nat)
    ensures SumOf(ByUnit(a + b + c), unit) == SumOf(ByUnit(a), unit) + SumOf(ByUnit(b), unit) + SumOf(ByUnit(c), unit)
  {
    SumOfTwo(a + b, c, unit);
    SumOfTwo(a, b, unit);
  }

  lemma {:induction false} ByUnitConcat(a: seq<Line>, b: seq<Line>)
    ensures ByUnit(a + b) == ByUnit(a) + ByUnit(b)
  {
    if b == [] {
      assert a + b == a;
    } else {
      assert (a + b)[..|a + b| - 1] == a + b[..|b| - 1];
      ByUnitConcat(a, b[..|b| - 1]);
    }
  }

  function EntryOf(): Line -> seq<Entry<nat>> { (l: Line) => [Entry(l.unit, l.amount)] }

  lemma {:induction false} ByUnitIsFlat(lines: seq<Line>)
    ensures ByUnit(lines) == FlatMap(EntryOf(), lines)
  {
    if lines != [] {
      ByUnitIsFlat(lines[..|lines| - 1]);
    }
  }

  lemma SumPermutes(a: seq<Line>, b: seq<Line>, unit: nat)
    requires multiset(a) == multiset(b)
    ensures SumOf(ByUnit(a), unit) == SumOf(ByUnit(b), unit)
  {
    ByUnitIsFlat(a);
    ByUnitIsFlat(b);
    FlatMapPermutes(EntryOf(), a, b);
    SumPermute(ByUnit(a), ByUnit(b), unit);
  }

  // ------------------------------------------------------------------ deltas

  /** new_amt - prev_amt of each of these units. */
  function Deltas(prevLines: seq<Line>, newLines: seq<Line>, units: set<nat>): map<nat, int>
  {
    map u | u in units :: AmountOf(newLines, u) - AmountOf(prevLines, u)
  }

  function TotalAmount(lines: seq<Line>): int { Sum(ByUnit(lines)) }

  ghost function GetOr0(m: map<nat, int>, k: nat): int { if k in m then m[k] else 0 }

  ghost function MapDelta(m: map<nat, int>, n: map<nat, int>, keys: set<nat>): map<nat, int>
  {
    map k | k in keys :: GetOr0(n, k) - GetOr0(m, k)
  }

  ghost predicate SameOutside(m: map<nat, int>, n: map<nat, int>, keys: set<nat>) {
    forall k | k !in keys && k in m.Keys + n.Keys :: GetOr0(m, k) == GetOr0(n, k)
  }

  /** Over any keys that include every key whose value differs, the differences add up to the difference. */
  lemma {:induction false} MapDeltaSum(m: map<nat, int>, n: map<nat, int>, keys: set<nat>, all: set<nat>)
    requires SameOutside(m, n, keys) && m.Keys <= all && n.Keys <= all && keys <= all
    ensures MapSum(MapDelta(m, n, keys)) == MapSum(n) - MapSum(m)
    decreases all
  {
    if all == {} {
      assert m == map[] && n == map[] && MapDelta(m, n, keys) == map[];
    } else {
      var k :| k in all;
      WithoutKey(m, n, keys, k);
      MapDeltaSum(m - {k}, n - {k}, keys - {k}, all - {k});
      SumWithout(m, k);
      SumWithout(n, k);
    }
  }

  lemma WithoutKey(m: map<nat, int>, n: map<nat, int>, keys: set<nat>, k: nat)
    requires SameOutside(m, n, keys)
    ensures SameOutside(m - {k}, n - {k}, keys - {k})
    ensures MapSum(MapDelta(m, n, keys)) == MapSum(MapDelta(m - {k}, n - {k}, keys - {k})) + GetOr0(n, k) - GetOr0(m, k)
  {
    SumWithout(MapDelta(m, n, keys), k);
    assert MapDelta(m, n, keys) - {k} == MapDelta(m - {k}, n - {k}, keys - {k});
  }

  lemma SumWithout(m: map<nat, int>, k: nat)
    ensures MapSum(m) == GetOr0(m, k) + MapSum(m - {k})
  {
    if k in m {
      MapSumRemove(m, k);
    } else {
      assert m - {k} == m;
    }
  }

  /** What the affected units are told adds up: their deltas sum to the change of the whole. */
  lemma DeltasConserve(prevLines: seq<Line>, newLines: seq<Line>)
    ensures MapSum(Deltas(prevLines, newLines, Affected(prevLines, newLines)))
            == TotalAmount(newLines) - TotalAmount(prevLines)
  {
    var m, n, affected := TotalsOf(ByUnit(prevLines)), TotalsOf(ByUnit(newLines)), Affected(prevLines, newLines);
    OutsideAffectedSame(prevLines, newLines);
    MapDeltaSum(m, n, affected, m.Keys + n.Keys + affected);
    DeltasAreMapDelta(prevLines, newLines, affected);
    TotalsConserve(ByUnit(prevLines));
    TotalsConserve(ByUnit(newLines));
  }

  lemma DeltasAreMapDelta(prevLines: seq<Line>, newLines: seq<Line>, units: set<nat>)
    ensures Deltas(prevLines, newLines, units)
            == MapDelta(TotalsOf(ByUnit(prevLines)), TotalsOf(ByUnit(newLines)), units)
  {
    AmountsAreTotals(prevLines);
    AmountsAreTotals(newLines);
  }

  lemma AmountsAreTotals(lines: seq<Line>)
    ensures forall u :: AmountOf(lines, u) == GetOr0(TotalsOf(ByUnit(lines)), u)
  {
    TotalsAreUnitTotals(lines);
  }

  lemma OutsideAffectedSame(prevLines: seq<Line>, newLines: seq<Line>)
    ensures SameOutside(TotalsOf(ByUnit(prevLines)), TotalsOf(ByUnit(newLines)), Affected(prevLines, newLines))
  {
    AmountsAreTotals(prevLines);
    AmountsAreTotals(newLines);
    AffectedMembers(prevLines, newLines);
  }

  /** Affected is documented as "any non-zero change". It means that for exactly the pairs of versions in
      which no unit appears on one side only with a total of zero. */
  lemma AffectedMeansNonZeroDeltaIff(prevLines: seq<Line>, newLines: seq<Line>)
    ensures (forall u :: u in Affected(prevLines, newLines) <==> AmountOf(newLines, u) - AmountOf(prevLines, u) != 0)
       <==> (forall u :: UnitTotal(prevLines, u).Some? == UnitTotal(newLines, u).Some?
                         || AmountOf(newLines, u) != AmountOf(prevLines, u))
  {
    AffectedMembers(prevLines, newLines);
    forall u
      ensures UnitTotal(prevLines, u).Some? == UnitTotal(newLines, u).Some? ==>
                (u in Affected(prevLines, newLines) <==> AmountOf(newLines, u) - AmountOf(prevLines, u) != 0)
    {
    }
    forall u
      ensures UnitTotal(prevLines, u).Some? != UnitTotal(newLines, u).Some? ==> u in Affected(prevLines, newLines)
    {
    }
  }

  /** Between versions that are in the database, whose lines are all positive (CHECK amount > 0), it always
      means that. */
  lemma AffectedMeansNonZeroDelta(prevLines: seq<Line>, newLines: seq<Line>, unit: nat)
    requires (forall l | l in prevLines :: l.amount > 0) && (forall l | l in newLines :: l.amount > 0)
    ensures unit in Affected(prevLines, newLines) <==> AmountOf(newLines, unit) - AmountOf(prevLines, unit) != 0
  {
    AffectedMembers(prevLines, newLines);
    PositiveTotal(prevLines, unit);
    PositiveTotal(newLines, unit);
  }

  lemma {:induction false} PositiveTotal(lines: seq<Line>, unit: nat)
    requires forall l | l in lines :: l.amount > 0
    ensures SumOf(ByUnit(lines), unit) >= 0
    ensures Names(lines, unit) ==> SumOf(ByUnit(lines), unit) > 0
  {
    if lines != [] {
      var front, last := lines[..|lines| - 1], lines[|lines| - 1];
      assert lines == front + [last];
      PositiveTotal(front, unit);
      SumOfTwo(front, [last], unit);
      SumOfOne(last, unit);
    }
  }

  /** The difference is taken before the new version is saved, so a row of half a cent or less, parsed to
      0.00, makes its unit affected with a delta of zero; saving the version then fails. */
  lemma ZeroLineIsAffected(unit: nat, account: nat)
    ensures unit in Affected([], [Line(unit, account, 0)])
    ensures AmountOf([Line(unit, account, 0)], unit) - AmountOf([], unit) == 0
  {
    AffectedMembers([], [Line(unit, account, 0)]);
    SumOfOne(Line(unit, account, 0), unit);
    assert Line(unit, account, 0) in [Line(unit, account, 0)];
  }

  // ------------------------------------------------------------------ building lines and notifying

  /** The lines of the rows whose account code resolves, in order; the other rows are dropped silently. */
  function Resolved(rows: seq<Row>, codeIds: map<string, nat>): seq<Line>
  {
    if rows == [] then []
    else
      var r := rows[|rows| - 1];
      Resolved(rows[..|rows| - 1], codeIds)
      + (if r.accountCode in codeIds then [Line(r.unit, codeIds[r.accountCode], r.amount)] else [])
  }

  method BuildLinesData(rows: seq<Row>, codeIds: map<string, nat>) returns (lines: seq<Line>)
    ensures lines == Resolved(rows, codeIds)
  {
    lines := [];
    for i := 0 to |rows|
      invariant lines == Resolved(rows[..i], codeIds)
    {
      assert rows[..i + 1][..i] == rows[..i];
      if rows[i].accountCode !in codeIds {
        continue;
      }
      lines := lines + [Line(rows[i].unit, codeIds[rows[i].accountCode], rows[i].amount)];
    }
    assert rows[..|rows|] == rows;
  }

  /** Every row becomes a line exactly when every code resolves, and then no amount is lost. */
  lemma {:induction false} AllRowsBecomeLines(rows: seq<Row>, codeIds: map<string, nat>)
    ensures |Resolved(rows, codeIds)| <= |rows|
    ensures |Resolved(rows, codeIds)| == |rows| <==> forall r | r in rows :: r.accountCode in codeIds
    ensures |Resolved(rows, codeIds)| == |rows| ==>
              forall i | 0 <= i < |rows| ::
                  Resolved(rows, codeIds)[i].unit == rows[i].unit && Resolved(rows, codeIds)[i].amount == rows[i].amount
  {
    if rows != [] {
      AllRowsBecomeLines(rows[..|rows| - 1], codeIds);
      assert rows == rows[..|rows| - 1] + [rows[|rows| - 1]];
    }
  }

  function Resolvable(codeIds: map<string, nat>): Row -> bool { (r: Row) => r.accountCode in codeIds }

  /** Line for line, in order: the rows whose code resolves, with their unit, the id of their code, and their amount. */
  lemma {:induction false} LinesAreResolvedRows(rows: seq<Row>, codeIds: map<string, nat>)
    ensures var (lines, kept) := (Resolved(rows, codeIds), Filter(Resolvable(codeIds), rows));
            && |lines| == |kept|
            && forall i | 0 <= i < |lines| ::
                 && kept[i].accountCode in codeIds && lines[i].account == codeIds[kept[i].accountCode]
                 && lines[i].unit == kept[i].unit && lines[i].amount == kept[i].amount
  {
    if rows != [] {
      var front, last := rows[..|rows| - 1], rows[|rows| - 1];
      assert rows == front + [last];
      LinesAreResolvedRows(front, codeIds);
      FilterSnoc(Resolvable(codeIds), front, last);
    }
  }

  datatype Notice = Notice(recipient: nat, prevAmount: int, newAmount: int, delta: int)

  /** What a step raises: an error of the application, or any other exception. */
  datatype Raised = Handled | Unhandled

  /** The organisation as the notifier sees it, and the units for which finding the manager's address or
      sending the notice raises. */
  datatype Directory = Directory(parents: OrgTree.Parents, users: map<nat, seq<nat>>, emails: map<nat, string>,
                                 lookupRaises: map<nat, Raised>, sendRaises: map<nat, Raised>)

  /** Whether there is a notifier, and whether its `send` commits the session it shares with the import. */
  datatype Notifier = NotWired | Wired(commits: bool)

  /** The manager is the first user of the nearest self-or-ancestor unit that has an active user. */
  ghost predicate IsManagerOf(d: Directory, unit: nat, manager: nat) {
    exists k: nat :: OrgTree.NearestManaged(d.parents, d.users, unit, k)
                     && manager == d.users[OrgTree.Ancestor(d.parents, unit, k).value][0]
  }

  /** The unit's manager exists and has an e-mail address, so a notice to it is sent. */
  ghost predicate Addressed(d: Directory, unit: nat) {
    unit !in d.lookupRaises && exists manager :: IsManagerOf(d, unit, manager) && manager in d.emails
  }

  ghost predicate Notifiable(d: Directory, unit: nat) { Addressed(d, unit) && unit !in d.sendRaises }

  ghost predicate Crashes(d: Directory, unit: nat) {
    || (unit in d.lookupRaises && d.lookupRaises[unit].Unhandled?)
    || (Addressed(d, unit) && unit in d.sendRaises && d.sendRaises[unit].Unhandled?)
  }

  /** The notice a notifiable unit is owed: to its nearest manager, with its own amounts. */
  ghost predicate IsNoticeFor(d: Directory, prevLines: seq<Line>, newLines: seq<Line>, unit: nat, notice: Notice) {
    && IsManagerOf(d, unit, notice.recipient) && notice.recipient in d.emails
    && notice.prevAmount == AmountOf(prevLines, unit) && notice.newAmount == AmountOf(newLines, unit)
    && notice.delta == notice.newAmount - notice.prevAmount
  }

  /** The audit rows of imports: those committed, and those the request's open transaction holds. */
  class AuditSession {
    var committed: seq<nat>
    var pending: seq<nat>

    constructor (committed: seq<nat>)
      ensures this.committed == committed && pending == []
    {
      this.committed, pending := committed, [];
    }

    method Record(upload: nat)
      modifies this
      ensures pending == old(pending) + [upload] && committed == old(committed)
    {
      pending := pending + [upload];
    }

    method Commit()
      modifies this
      ensures committed == old(committed) + old(pending) && pending == []
    {
      committed, pending := committed + pending, [];
    }

    /** The end of the request: what was not committed is gone. */
    method Close()
      modifies this
      ensures committed == old(committed) && pending == []
    {
      pending := [];
    }
  }

  /** Best effort: without a notifier nothing is sent, and one unit's handled failure does not stop the
      others. Any other exception ends the loop, over a set in any order; it comes out exactly when some
      affected unit crashes, and every notice sent so far is right. A notifier that commits takes the open
      transaction's audit row with its first notice. */
  method SendDiffNotifications(
    notifier: Notifier, affected: set<nat>, prevLines: seq<Line>, newLines: seq<Line>, d: Directory,
    session: AuditSession)
    returns (notices: map<nat, Notice>, crashed: Option<nat>)
    modifies session
    ensures notifier.NotWired? ==> notices == map[]
    ensures notifier.Wired? && crashed.None? ==> forall u :: u in notices <==> u in affected && Notifiable(d, u)
    ensures crashed.Some? ==> notifier.Wired? && crashed.value in affected && Crashes(d, crashed.value)
    ensures crashed.None? <==> notifier.NotWired? || forall u | u in affected :: !Crashes(d, u)
    ensures forall u | u in notices ::
              u in affected && Notifiable(d, u) && IsNoticeFor(d, prevLines, newLines, u, notices[u])
    ensures session.pending == if notifier == Wired(true) && notices != map[] then [] else old(session.pending)
    ensures session.committed == if notifier == Wired(true) && notices != map[]
            then old(session.committed + session.pending)
                                 else old(session.committed)
  {
    notices := map[];
    if notifier.NotWired? {
      return notices, None;
    }
    var prevTotals := AggregateByUnit(prevLines);
    var newTotals := AggregateByUnit(newLines);
    var rest := affected;
    while rest != {}
      invariant rest <= affected
      invariant forall u :: u in notices <==> u in affected - rest && Notifiable(d, u)
      invariant forall u | u in affected - rest :: !Crashes(d, u)
      invariant forall u | u in notices :: IsNoticeFor(d, prevLines, newLines, u, notices[u])
      invariant session.pending == if notifier == Wired(true) && notices != map[] then [] else old(session.pending)
      invariant session.committed == if notifier == Wired(true) && notices != map[]
                then old(session.committed + session.pending)
                                     else old(session.committed)
      decreases |rest|
    {
      var unit :| unit in rest;
      rest := rest - {unit};
      var notice, raised := Notify(prevTotals, newTotals, prevLines, newLines, d, unit);
      if raised.Some? && raised.value.Unhandled? {
        return notices, Some(unit);
      }
      if notice.Some? {
        if notifier.commits {
          session.Commit();
        }
        notices := notices[unit := notice.value];
      }
    }
    return notices, None;
  }

  /** One turn of the loop: the notice sent, or what was raised, or neither for a unit without an address. */
  method Notify(prevTotals: map<nat, int>, newTotals: map<nat, int>, ghost prevLines: seq<Line>,
                ghost newLines: seq<Line>,
                d: Directory, unit: nat)
    returns (notice: Option<Notice>, raised: Option<Raised>)
    requires forall u :: AmountOf(prevLines, u) == if u in prevTotals then prevTotals[u] else 0
    requires forall u :: AmountOf(newLines, u) == if u in newTotals then newTotals[u] else 0
    ensures notice.Some? <==> Notifiable(d, unit)
    ensures notice.Some? ==> IsNoticeFor(d, prevLines, newLines, unit, notice.value) && raised.None?
    ensures raised == Some(Unhandled) <==> Crashes(d, unit)
  {
    if unit in d.lookupRaises {
      return None, Some(d.lookupRaises[unit]);
    }
    var manager := OrgTree.ResolveManager(d.parents, d.users, unit);
    if manager.None? {
      UnmanagedIsUnaddressed(d, unit);
      return None, None;
    }
    UniqueManager(d, unit, manager.value);
    if manager.value !in d.emails {
      return None, None;
    }
    assert Addressed(d, unit);
    var prevAmount := if unit in prevTotals then prevTotals[unit] else 0;
    var newAmount := if unit in newTotals then newTotals[unit] else 0;
    if unit in d.sendRaises {
      return None, Some(d.sendRaises[unit]);
    }
    return Some(Notice(manager.value, prevAmount, newAmount, newAmount - prevAmount)), None;
  }

  /** The rest of a request once its upload is committed: record the import, notify, and end the request. The
      audit row is kept exactly when a notice was sent through a notifier that commits. When no affected unit
      crashes, that can be told beforehand. */
  method FinishImport(upload: nat, committed: seq<nat>, notifier: Notifier, affected: set<nat>, prevLines: seq<Line>,
                      newLines: seq<Line>, d: Directory)
    returns (audits: seq<nat>, notices: map<nat, Notice>, crashed: Option<nat>)
    ensures audits == if notifier == Wired(true) && notices != map[] then committed + [upload] else committed
    ensures crashed.None? ==>
              (audits == committed + [upload]
               <==> notifier == Wired(true) && exists u | u in affected :: Notifiable(d, u))
    ensures crashed.None? <==> notifier.NotWired? || forall u | u in affected :: !Crashes(d, u)
  {
    var session := new AuditSession(committed);
    session.Record(upload);
    notices, crashed := SendDiffNotifications(notifier, affected, prevLines, newLines, d, session);
    session.Close();
    audits := session.committed;
    assert |committed + [upload]| != |committed|;
    if crashed.None? && notifier.Wired? {
      if u :| u in affected && Notifiable(d, u) {
        assert u in notices;
      }
    }
  }

  lemma UnmanagedIsUnaddressed(d: Directory, unit: nat)
    requires forall k: nat :: !OrgTree.Managed(d.users, OrgTree.Ancestor(d.parents, unit, k))
    ensures !Addressed(d, unit)
  {
    forall k: nat
      ensures !OrgTree.NearestManaged(d.parents, d.users, unit, k)
    {
      assert !OrgTree.Managed(d.users, OrgTree.Ancestor(d.parents, unit, k));
    }
  }

  lemma UniqueManager(d: Directory, unit: nat, manager: nat)
    requires IsManagerOf(d, unit, manager)
    ensures forall other :: IsManagerOf(d, unit, other) ==> other == manager
  {
    forall other | IsManagerOf(d, unit, other)
      ensures other == manager
    {
      var j: nat :| OrgTree.NearestManaged(d.parents, d.users, unit, j)
                    && manager == d.users[OrgTree.Ancestor(d.parents, unit, j).value][0];
      var k: nat :| OrgTree.NearestManaged(d.parents, d.users, unit, k)
                    && other == d.users[OrgTree.Ancestor(d.parents, unit, k).value][0];
      assert j == k by {
        assert !(j < k) && !(k < j);
      }
    }
  }
}
