/**
 From the upload protocol to the report: the tables that any run of concurrent uploads leaves behind are
 tables the report's sources are defined on, and what the report's columns add up to is the last committed
 upload of each key.
*/
module Consolidation {
  import opened Common
  import opened Totals
  import Uploads
  import LatestTotals
  import CycleTotals
  import Actuals
  import OrgTree
  import Report

  type Header = Uploads.Header

  // ------------------------------------------------------------------ the tables as each repository reads them

  function BudgetUploads(headers: seq<Header>): seq<LatestTotals.Upload>
  {
    if headers == [] then []
    else
      var rest, h := BudgetUploads(headers[..|headers| - 1]), headers[|headers| - 1];
      if h.key.PerUnit? then rest + [BudgetUpload(h)] else rest
  }

  function BudgetUpload(h: Header): LatestTotals.Upload
    requires h.key.PerUnit?
  {
    LatestTotals.Upload(h.id, h.key.cycle, h.key.unit, h.version)
  }

  function CycleUploads(headers: seq<Header>): seq<CycleTotals.Upload>
  {
    if headers == [] then []
    else
      var rest, h := CycleUploads(headers[..|headers| - 1]), headers[|headers| - 1];
      if h.key.PerCycle? then rest + [CycleUpload(h)] else rest
  }

  function CycleUpload(h: Header): CycleTotals.Upload
    requires h.key.PerCycle?
  {
    CycleTotals.Upload(h.id, h.key.cycle, h.version)
  }

  /** Budget lines have no unit column. */
  function BudgetLines(lines: seq<Uploads.Line>): seq<LatestTotals.Line>
  {
    if lines == [] then []
    else
      var l := lines[|lines| - 1];
      BudgetLines(lines[..|lines| - 1]) + [LatestTotals.Line(l.upload, l.account, l.amount)]
  }

  function CycleLines(lines: seq<Uploads.Line>): seq<CycleTotals.Line>
  {
    if lines == [] then []
    else
      var l := lines[|lines| - 1];
      CycleLines(lines[..|lines| - 1]) + [CycleTotals.Line(l.upload, l.unit, l.account, l.amount)]
  }

  lemma {:induction false} BudgetUploadsAreThose(headers: seq<Header>)
    ensures forall u ::
              u in BudgetUploads(headers) <==> exists h | h in headers :: h.key.PerUnit? && BudgetUpload(h) == u
  {
    if headers != [] {
      var front, last := headers[..|headers| - 1], headers[|headers| - 1];
      assert headers == front + [last];
      BudgetUploadsAreThose(front);
      assert forall h :: h in headers <==> h in front || h == last;
    }
  }

  lemma {:induction false} CycleUploadsAreThose(headers: seq<Header>)
    ensures forall u ::
              u in CycleUploads(headers) <==> exists h | h in headers :: h.key.PerCycle? && CycleUpload(h) == u
  {
    if headers != [] {
      var front, last := headers[..|headers| - 1], headers[|headers| - 1];
      assert headers == front + [last];
      CycleUploadsAreThose(front);
      assert forall h :: h in headers <==> h in front || h == last;
    }
  }

  // ------------------------------------------------------------------ reachable tables are well keyed

  /** Distinct ids, and distinct versions of each key. */
  ghost predicate Keyed(headers: seq<Header>) {
    && (forall h, g | h in headers && g in headers && h.id == g.id :: h == g)
    && (forall h, g | h in headers && g in headers && h.key == g.key && h.version == g.version :: h == g)
  }

  lemma {:induction false} EarlierVersions(headers: seq<Header>, i: nat, j: nat)
    requires Uploads.GapFree(headers) && i < j < |headers| && headers[i].key == headers[j].key
    ensures headers[i].version < headers[j].version
  {
    var front := headers[..j];
    assert forall m | 0 <= m < j :: front[..m] == headers[..m];
    Uploads.CountTail(front, i, headers[i].key);
  }

  lemma GapFreeKeyed(headers: seq<Header>)
    requires Uploads.GapFree(headers)
    requires forall i, j | 0 <= i < j < |headers| :: headers[i].id != headers[j].id
    ensures Keyed(headers)
  {
    forall i, j | 0 <= i < j < |headers| && headers[i].key == headers[j].key
      ensures headers[i].version != headers[j].version
    {
      EarlierVersions(headers, i, j);
    }
  }

  lemma ReachableKeyed(steps: seq<Uploads.Step>)
    ensures Keyed(Uploads.Run(Uploads.EMPTY, steps).tables.headers)
  {
    Uploads.ReachableInv(steps);
    GapFreeKeyed(Uploads.Run(Uploads.EMPTY, steps).tables.headers);
  }

  /** The keys the report's sources rely on hold in every table a run of uploads can leave. */
  lemma ReachableTablesAreWellKeyed(steps: seq<Uploads.Step>)
    ensures LatestTotals.WellKeyed(BudgetUploads(Uploads.Run(Uploads.EMPTY, steps).tables.headers))
    ensures CycleTotals.WellKeyed(CycleUploads(Uploads.Run(Uploads.EMPTY, steps).tables.headers))
  {
    ReachableKeyed(steps);
    var headers := Uploads.Run(Uploads.EMPTY, steps).tables.headers;
    BudgetUploadsAreThose(headers);
    CycleUploadsAreThose(headers);
  }

  // ------------------------------------------------------------------ latest is last committed

  /** No header of the same key was committed after this one. */
  predicate LastCommitted(headers: seq<Header>, h: Header) {
    exists i | 0 <= i < |headers| :: headers[i] == h && forall j | i < j < |headers| :: headers[j].key != h.key
  }

  lemma LastHasHighestVersion(steps: seq<Uploads.Step>, h: Header)
    requires h in Uploads.Run(Uploads.EMPTY, steps).tables.headers
    ensures var headers := Uploads.Run(Uploads.EMPTY, steps).tables.headers;
            LastCommitted(headers, h) <==> forall g | g in headers && g.key == h.key :: g.version <= h.version
  {
    var headers := Uploads.Run(Uploads.EMPTY, steps).tables.headers;
    ReachableKeyed(steps);
    var i :| 0 <= i < |headers| && headers[i] == h;
    Uploads.LatestIsLastCommitted(steps, i);
    Uploads.MaxIsBound(headers, h.key);
    Uploads.MaxIsAttained(headers, h.key);
    assert h.version <= Uploads.MaxVersion(headers, h.key);
    if LastCommitted(headers, h) {
      var m :| 0 <= m < |headers| && headers[m] == h && forall j | m < j < |headers| :: headers[j].key != h.key;
      Uploads.LatestIsLastCommitted(steps, m);
    }
  }

  lemma LatestBudgetIsLastCommitted(steps: seq<Uploads.Step>, h: Header)
    requires h in Uploads.Run(Uploads.EMPTY, steps).tables.headers && h.key.PerUnit?
    ensures var headers := Uploads.Run(Uploads.EMPTY, steps).tables.headers;
            LatestTotals.IsLatest(BudgetUploads(headers), h.key.cycle, BudgetUpload(h)) <==> LastCommitted(headers, h)
  {
    var headers := Uploads.Run(Uploads.EMPTY, steps).tables.headers;
    LastHasHighestVersion(steps, h);
    BudgetUploadsAreThose(headers);
    assert forall g | g in headers && g.key.PerUnit? :: BudgetUpload(g) in BudgetUploads(headers);
  }

  lemma LatestOfCycleIsLastCommitted(steps: seq<Uploads.Step>, h: Header)
    requires h in Uploads.Run(Uploads.EMPTY, steps).tables.headers && h.key.PerCycle?
    ensures var headers := Uploads.Run(Uploads.EMPTY, steps).tables.headers;
            CycleTotals.IsLatest(CycleUploads(headers), h.key.cycle, CycleUpload(h)) <==> LastCommitted(headers, h)
  {
    var headers := Uploads.Run(Uploads.EMPTY, steps).tables.headers;
    LastHasHighestVersion(steps, h);
    CycleUploadsAreThose(headers);
    assert forall g | g in headers && g.key.PerCycle? :: CycleUpload(g) in CycleUploads(headers);
  }

  // ------------------------------------------------------------------ what the columns add up to

  /** The line belongs to the last committed budget upload of some unit of the cycle. */
  predicate OfLastBudget(headers: seq<Header>, cycle: nat, upload: nat) {
    exists h | h in headers :: h.key.PerUnit? && h.key.cycle == cycle && h.id == upload && LastCommitted(headers, h)
  }

  /** The amounts of the lines of the last committed budget upload of each unit. */
  function LastBudgetSum(headers: seq<Header>, lines: seq<Uploads.Line>, cycle: nat): int
  {
    if lines == [] then 0
    else
      var l := lines[|lines| - 1];
      LastBudgetSum(headers, lines[..|lines| - 1], cycle)
          + (if OfLastBudget(headers, cycle, l.upload) then l.amount else 0)
  }

  lemma OfLatestIsOfLast(steps: seq<Uploads.Step>, cycle: nat, upload: nat)
    ensures var headers := Uploads.Run(Uploads.EMPTY, steps).tables.headers;
            (exists u | u in BudgetUploads(headers) ::
               LatestTotals.IsLatest(BudgetUploads(headers), cycle, u) && u.id == upload)
            <==> OfLastBudget(headers, cycle, upload)
  {
    var headers := Uploads.Run(Uploads.EMPTY, steps).tables.headers;
    BudgetUploadsAreThose(headers);
    forall h | h in headers && h.key.PerUnit?
      ensures BudgetUpload(h) in BudgetUploads(headers)
      ensures LatestTotals.IsLatest(BudgetUploads(headers), h.key.cycle, BudgetUpload(h)) <==> LastCommitted(headers, h)
    {
      LatestBudgetIsLastCommitted(steps, h);
    }
  }

  lemma {:induction false} LatestSumIsLastSum(steps: seq<Uploads.Step>, lines: seq<Uploads.Line>, cycle: nat)
    ensures var headers := Uploads.Run(Uploads.EMPTY, steps).tables.headers;
            LatestTotals.LatestLineSum(BudgetUploads(headers), BudgetLines(lines), cycle)
                == LastBudgetSum(headers, lines, cycle)
  {
    if lines != [] {
      var front, l := lines[..|lines| - 1], lines[|lines| - 1];
      LatestSumIsLastSum(steps, front, cycle);
      OfLatestIsOfLast(steps, cycle, l.upload);
      assert BudgetLines(lines)[..|BudgetLines(lines)| - 1] == BudgetLines(front);
    }
  }

  /** The budget source as the report reads it from the tables of a run. */
  ghost function BudgetSource(steps: seq<Uploads.Step>, cycle: nat): map<Report.Key, int>
  {
    var t := Uploads.Run(Uploads.EMPTY, steps).tables;
    ReachableTablesAreWellKeyed(steps);
    LatestTotals.LatestAmounts(BudgetUploads(t.headers), BudgetLines(t.lines), cycle)
  }

  /** Whatever run of concurrent uploads filled the tables, the operational column of the unrestricted report
      adds up to the last committed upload of each unit. */
  lemma OperationalColumnIsLastCommitted(
    steps: seq<Uploads.Step>, cycle: nat, rows: seq<Report.Row>, src: Report.Sources, units: seq<Report.OrgUnit>,
    accounts: map<nat, Report.Account>)
    requires src.budget == BudgetSource(steps, cycle)
    requires Report.DistinctUnits(units) && Report.IsReport(rows, src, units, accounts, Report.EVERYTHING)
    requires forall id | id in accounts :: accounts[id].id == id
    requires forall k | k in src.budget :: Report.Known(k, Report.UnitsById(units), accounts)
    ensures var t := Uploads.Run(Uploads.EMPTY, steps).tables;
            Report.ColumnSum(rows, Report.OperationalColumn) == LastBudgetSum(t.headers, t.lines, cycle)
  {
    var t := Uploads.Run(Uploads.EMPTY, steps).tables;
    ReachableTablesAreWellKeyed(steps);
    Report.ReportCarriesLatestUploads(rows, src, units, accounts, BudgetUploads(t.headers), BudgetLines(t.lines),
                                      cycle);
    LatestSumIsLastSum(steps, t.lines, cycle);
  }

  /** The amounts of one upload's lines. */
  function SumOfUpload(lines: seq<Uploads.Line>, id: nat): int
  {
    if lines == [] then 0
    else
      var l := lines[|lines| - 1];
      SumOfUpload(lines[..|lines| - 1], id) + (if l.upload == id then l.amount else 0)
  }

  lemma {:induction false} UploadSumsAgree(lines: seq<Uploads.Line>, id: nat)
    ensures CycleTotals.UploadSum(CycleLines(lines), id) == SumOfUpload(lines, id)
  {
    if lines != [] {
      UploadSumsAgree(lines[..|lines| - 1], id);
      assert CycleLines(lines)[..|CycleLines(lines)| - 1] == CycleLines(lines[..|lines| - 1]);
    }
  }

  /** A source of uploads per cycle adds up to the cycle's last committed upload. */
  lemma CycleSourceIsLastCommitted(steps: seq<Uploads.Step>, h: Header)
    requires var headers := Uploads.Run(Uploads.EMPTY, steps).tables.headers;
             h in headers && h.key.PerCycle? && LastCommitted(headers, h)
    ensures var t := Uploads.Run(Uploads.EMPTY, steps).tables;
            MapSum(CycleTotals.LatestAmounts(CycleUploads(t.headers), CycleLines(t.lines), h.key.cycle))
                == SumOfUpload(t.lines, h.id)
  {
    var t := Uploads.Run(Uploads.EMPTY, steps).tables;
    ReachableTablesAreWellKeyed(steps);
    LatestOfCycleIsLastCommitted(steps, h);
    CycleTotals.LatestAmountsConserve(CycleUploads(t.headers), CycleLines(t.lines), h.key.cycle);
    assert CycleTotals.IsLatest(CycleUploads(t.headers), h.key.cycle, CycleUpload(h));
    UploadSumsAgree(t.lines, h.id);
  }

  /** The part of a source that the report does not show: the amounts of units below the aggregate levels. */
  function HiddenPart(source: map<Report.Key, int>, units: map<nat, Report.OrgUnit>, c: Report.Column)
    : map<Report.Key, int>
  {
    Restrict(source, ShownKey(units, c), false)
  }

  function ShownKey(units: map<nat, Report.OrgUnit>, c: Report.Column): Report.Key -> bool
  {
    (k: Report.Key) => Report.Shown(k, units, Report.EVERYTHING, c)
  }

  lemma ColumnAndHiddenPart(
    rows: seq<Report.Row>, src: Report.Sources, c: Report.Column, units: seq<Report.OrgUnit>,
    accounts: map<nat, Report.Account>)
    requires Report.DistinctUnits(units) && Report.IsReport(rows, src, units, accounts, Report.EVERYTHING)
    requires forall id | id in accounts :: accounts[id].id == id
    requires forall k | k in Report.SourceOf(src, c) :: Report.Known(k, Report.UnitsById(units), accounts)
    ensures Report.ColumnSum(rows, c) + MapSum(HiddenPart(Report.SourceOf(src, c), Report.UnitsById(units), c))
         == MapSum(Report.SourceOf(src, c))
  {
    Report.ColumnsConserve(rows, src, units, accounts, Report.EVERYTHING, c);
    ShownAndHidden(Report.SourceOf(src, c), Report.UnitsById(units), c);
  }

  lemma ShownAndHidden(source: map<Report.Key, int>, units: map<nat, Report.OrgUnit>, c: Report.Column)
    ensures MapSum(Report.ShownPart(source, units, Report.EVERYTHING, c)) + MapSum(HiddenPart(source, units, c))
            == MapSum(source)
  {
    MapSumSplit(source, ShownKey(units, c));
    assert Report.ShownPart(source, units, Report.EVERYTHING, c) == Restrict(source, ShownKey(units, c), true);
  }

  /** The personnel or shared-cost column and what it leaves out add up to the cycle's last committed upload. */
  lemma CycleColumnIsLastCommitted(
    steps: seq<Uploads.Step>, h: Header, rows: seq<Report.Row>, src: Report.Sources, c: Report.Column,
    units: seq<Report.OrgUnit>, accounts: map<nat, Report.Account>)
    requires var t := Uploads.Run(Uploads.EMPTY, steps).tables;
             && h in t.headers && h.key.PerCycle? && LastCommitted(t.headers, h)
             && Report.SourceOf(src, c)
                == CycleTotals.LatestAmounts(CycleUploads(t.headers), CycleLines(t.lines), h.key.cycle)
    requires Report.DistinctUnits(units) && Report.IsReport(rows, src, units, accounts, Report.EVERYTHING)
    requires forall id | id in accounts :: accounts[id].id == id
    requires forall k | k in Report.SourceOf(src, c) :: Report.Known(k, Report.UnitsById(units), accounts)
    ensures Report.ColumnSum(rows, c) + MapSum(HiddenPart(Report.SourceOf(src, c), Report.UnitsById(units), c))
         == SumOfUpload(Uploads.Run(Uploads.EMPTY, steps).tables.lines, h.id)
  {
    ColumnAndHiddenPart(rows, src, c, units, accounts);
    CycleSourceIsLastCommitted(steps, h);
  }

  // ------------------------------------------------------------------ placeholders

  /** The unit's last committed upload of the cycle has lines. */
  predicate LastBudgetHasLines(headers: seq<Header>, cycle: nat, unit: nat) {
    exists h | h in headers :: h.key == Uploads.PerUnit(cycle, unit) && LastCommitted(headers, h) && h.rowCount > 0
  }

  lemma {:induction false} EntryUnits(unitOf: map<nat, nat>, lines: seq<Uploads.Line>, unit: nat)
    ensures (exists k | k in KeysOf(LatestTotals.EntriesOf(unitOf, BudgetLines(lines))) :: k.0 == unit)
       <==> exists l | l in lines :: l.upload in unitOf && unitOf[l.upload] == unit
  {
    if lines != [] {
      var front, last := lines[..|lines| - 1], lines[|lines| - 1];
      assert lines == front + [last];
      EntryUnits(unitOf, front, unit);
      forall k: Report.Key
        ensures k in KeysOf(LatestTotals.EntriesOf(unitOf, BudgetLines(lines))) <==>
                  k in KeysOf(LatestTotals.EntriesOf(unitOf, BudgetLines(front)))
                  || (last.upload in unitOf && (unitOf[last.upload], last.account) == k)
      {
        EntriesStep(unitOf, front, last, k);
      }
      assert forall l :: l in lines <==> l in front || l == last;
    }
  }

  lemma {:induction false} CountedIff(lines: seq<Uploads.Line>, upload: nat)
    ensures Uploads.CountLines(lines, upload) > 0 <==> exists l | l in lines :: l.upload == upload
  {
    if lines != [] {
      CountedIff(lines[..|lines| - 1], upload);
      assert lines == lines[..|lines| - 1] + [lines[|lines| - 1]];
    }
  }

  lemma HasBudgetIff(steps: seq<Uploads.Step>, cycle: nat, src: Report.Sources, unit: nat)
    requires src.budget == BudgetSource(steps, cycle)
    ensures Report.HasBudget(unit, src)
       <==> LastBudgetHasLines(Uploads.Run(Uploads.EMPTY, steps).tables.headers, cycle, unit)
  {
    var t := Uploads.Run(Uploads.EMPTY, steps).tables;
    ReachableTablesAreWellKeyed(steps);
    var unitOf := LatestTotals.LatestUnits(BudgetUploads(t.headers), cycle);
    EntryUnits(unitOf, t.lines, unit);
    assert Report.HasBudget(unit, src) <==> exists l | l in t.lines :: l.upload in unitOf && unitOf[l.upload] == unit;
    if l :| l in t.lines && l.upload in unitOf && unitOf[l.upload] == unit {
      LatestUnitIff(steps, cycle, l.upload, unit);
      var h :| h in t.headers && h.key == Uploads.PerUnit(cycle, unit) && LastCommitted(t.headers, h)
          && h.id == l.upload;
      Uploads.CommittedHeadersAreComplete(steps, h);
      CountedIff(t.lines, h.id);
    }
    if h :| h in t.headers && h.key == Uploads.PerUnit(cycle, unit) && LastCommitted(t.headers, h) && h.rowCount > 0 {
      LatestUnitIff(steps, cycle, h.id, unit);
      Uploads.CommittedHeadersAreComplete(steps, h);
      CountedIff(t.lines, h.id);
    }
  }

  lemma LatestUnitIff(steps: seq<Uploads.Step>, cycle: nat, upload: nat, unit: nat)
    requires LatestTotals.WellKeyed(BudgetUploads(Uploads.Run(Uploads.EMPTY, steps).tables.headers))
    ensures var headers := Uploads.Run(Uploads.EMPTY, steps).tables.headers;
            var unitOf := LatestTotals.LatestUnits(BudgetUploads(headers), cycle);
            (upload in unitOf && unitOf[upload] == unit) <==>
            exists h | h in headers ::
                h.key == Uploads.PerUnit(cycle, unit) && LastCommitted(headers, h) && h.id == upload
  {
    var headers := Uploads.Run(Uploads.EMPTY, steps).tables.headers;
    var uploads := BudgetUploads(headers);
    BudgetUploadsAreThose(headers);
    forall h | h in headers && h.key.PerUnit?
      ensures BudgetUpload(h) in uploads
      ensures LatestTotals.IsLatest(uploads, h.key.cycle, BudgetUpload(h)) <==> LastCommitted(headers, h)
    {
      LatestBudgetIsLastCommitted(steps, h);
    }
  }

  /** A unit reads as not uploaded, once, exactly when it is in scope and has no committed upload in the cycle or
      one without lines as its last. */
  lemma PlaceholderIff(
    steps: seq<Uploads.Step>, cycle: nat, rows: seq<Report.Row>, src: Report.Sources, units: seq<Report.OrgUnit>,
    accounts: map<nat, Report.Account>, scope: Report.Scope, u: Report.OrgUnit)
    returns (keyRows: nat)
    requires src.budget == BudgetSource(steps, cycle)
    requires Report.DistinctUnits(units) && Report.IsReport(rows, src, units, accounts, scope) && u in units
    ensures keyRows <= |rows|
    ensures multiset(rows[keyRows..])[Report.Placeholder(u)]
         == if Report.InScope(u.id, scope)
               && !LastBudgetHasLines(Uploads.Run(Uploads.EMPTY, steps).tables.headers, cycle, u.id) then 1 else 0
  {
    var included := Report.ReportShape(rows, src, units, accounts, scope);
    keyRows := |included|;
    HasBudgetIff(steps, cycle, src, u.id);
  }

  // ------------------------------------------------------------------ the caller's scope

  /** The data scope of a user's roles, as the report takes it. */
  method ResolveScope(roles: set<OrgTree.Role>, home: Option<nat>, parents: OrgTree.Parents, companies: set<nat>)
    returns (scope: Report.Scope)
    ensures forall unit :: Report.InScope(unit, scope) <==> OrgTree.MaySee(roles, home, parents, companies, unit)
  {
    var scopeSet := OrgTree.ScopedOrgUnits(roles, home, parents, companies);
    match scopeSet
    case AllScopes => return Report.Scope(true, {});
    case Units(units) => return Report.Scope(false, units);
  }

  /** A user's report is that part of the unrestricted report which is about units the user may see. */
  lemma UserSeesTheirPart(
    rows: seq<Report.Row>, allRows: seq<Report.Row>, src: Report.Sources, units: seq<Report.OrgUnit>,
    accounts: map<nat, Report.Account>, scope: Report.Scope,
    roles: set<OrgTree.Role>, home: Option<nat>, parents: OrgTree.Parents, companies: set<nat>)
    requires forall unit :: Report.InScope(unit, scope) <==> OrgTree.MaySee(roles, home, parents, companies, unit)
    requires Report.DistinctUnits(units) && Report.IsReport(rows, src, units, accounts, scope)
    requires Report.IsReport(allRows, src, units, accounts, Report.EVERYTHING)
    ensures forall r :: r in rows <==> r in allRows && OrgTree.MaySee(roles, home, parents, companies, r.unit)
  {
    Report.ScopeRestriction(rows, allRows, src, units, units, accounts, scope);
    SameMembers(rows, Filter(Report.RowIn(scope), allRows));
  }

  // ------------------------------------------------------------------ the actual column

  function ActualEntries(expenses: seq<Actuals.Expense>): seq<Entry<Report.Key>>
  {
    if expenses == [] then []
    else
      var e := expenses[|expenses| - 1];
      ActualEntries(expenses[..|expenses| - 1]) + [Entry((e.unit, e.account), e.amount)]
  }

  /** The amounts of the cycle's expenses per unit and account. */
  function ActualsSource(expenses: seq<Actuals.Expense>, cycle: nat): map<Report.Key, int>
  {
    TotalsOf(ActualEntries(Filter(Actuals.OfCycle(cycle), expenses)))
  }

  method FetchActuals(expenses: seq<Actuals.Expense>, cycle: nat) returns (out: map<Report.Key, int>)
    ensures out == ActualsSource(expenses, cycle)
  {
    var selected := Filter(Actuals.OfCycle(cycle), expenses);
    out := map[];
    for i := 0 to |selected|
      invariant out == TotalsOf(ActualEntries(selected[..i]))
    {
      var row := selected[i];
      var key := (row.unit, row.account);
      assert selected[..i + 1][..i] == selected[..i];
      TotalsStep(ActualEntries(selected[..i]), Entry(key, row.amount));
      out := Add(out, key, row.amount);
    }
    assert selected[..|selected|] == selected;
  }

  /** After an import the source holds the imported rows, each under its own key, and nothing else. */
  lemma SourceIsLastImport(expenses: seq<Actuals.Expense>, cycle: nat, added: seq<Actuals.Expense>)
    requires (forall e | e in added :: e.cycle == cycle) && Actuals.UniqueKeys(added)
    ensures var source := ActualsSource(Actuals.Replaced(expenses, cycle, added), cycle);
            && (forall e | e in added :: (e.unit, e.account) in source && source[(e.unit, e.account)] == e.amount)
            && forall k | k in source :: exists e | e in added :: k == (e.unit, e.account)
  {
    Actuals.ReplacementIsExact(expenses, cycle, cycle, added);
    EntriesByKey(added, cycle);
  }

  lemma {:induction false} ActualEntryAt(expenses: seq<Actuals.Expense>)
    ensures |ActualEntries(expenses)| == |expenses|
    ensures forall i | 0 <= i < |expenses| ::
              ActualEntries(expenses)[i] == Entry((expenses[i].unit, expenses[i].account), expenses[i].amount)
  {
    if expenses != [] {
      ActualEntryAt(expenses[..|expenses| - 1]);
    }
  }

  lemma EntriesByKey(added: seq<Actuals.Expense>, cycle: nat)
    requires (forall e | e in added :: e.cycle == cycle) && Actuals.UniqueKeys(added)
    ensures forall e | e in added ::
              (e.unit, e.account) in TotalsOf(ActualEntries(added))
                  && TotalsOf(ActualEntries(added))[(e.unit, e.account)] == e.amount
    ensures forall k | k in TotalsOf(ActualEntries(added)) :: exists e | e in added :: k == (e.unit, e.account)
  {
    var entries := ActualEntries(added);
    ActualEntryAt(added);
    forall i, j | 0 <= i < j < |entries|
      ensures entries[i].key != entries[j].key
    {
      assert !Actuals.SameKey(added[i], added[j]) && added[i] in added && added[j] in added;
    }
    DistinctTotals(entries);
    forall k | k in TotalsOf(entries)
      ensures exists e | e in added :: k == (e.unit, e.account)
    {
      var i :| 0 <= i < |entries| && entries[i].key == k;
      assert added[i] in added;
    }
  }

  function TotalOf(expenses: seq<Actuals.Expense>): int { Sum(ActualEntries(expenses)) }

  lemma SourceSum(expenses: seq<Actuals.Expense>, cycle: nat, added: seq<Actuals.Expense>)
    requires forall e | e in added :: e.cycle == cycle
    ensures MapSum(ActualsSource(Actuals.Replaced(expenses, cycle, added), cycle)) == TotalOf(added)
  {
    Actuals.ReplacementIsExact(expenses, cycle, cycle, added);
    TotalsConserve(ActualEntries(added));
  }

  /** The unrestricted report's actual column adds up to the file imported last for the cycle. */
  lemma ActualColumnIsLastImport(
    expenses: seq<Actuals.Expense>, cycle: nat, added: seq<Actuals.Expense>, rows: seq<Report.Row>, src: Report.Sources,
    units: seq<Report.OrgUnit>, accounts: map<nat, Report.Account>)
    requires forall e | e in added :: e.cycle == cycle
    requires src.actuals == ActualsSource(Actuals.Replaced(expenses, cycle, added), cycle)
    requires Report.DistinctUnits(units) && Report.IsReport(rows, src, units, accounts, Report.EVERYTHING)
    requires forall id | id in accounts :: accounts[id].id == id
    requires forall k | k in src.actuals :: Report.Known(k, Report.UnitsById(units), accounts)
    ensures Report.ColumnSum(rows, Report.ActualColumn) == TotalOf(added)
  {
    SourceSum(expenses, cycle, added);
    Report.ColumnsConserve(rows, src, units, accounts, Report.EVERYTHING, Report.ActualColumn);
    Report.AllOfItIsShown(src.actuals, Report.UnitsById(units), accounts, Report.ActualColumn);
  }

  // ------------------------------------------------------------------ back to the rows that were uploaded

  /** The rows of the call that a committed upload stores. */
  ghost function RowsOf(steps: seq<Uploads.Step>, h: Header): (rows: seq<Uploads.Row>)
    requires h in Uploads.Run(Uploads.EMPTY, steps).tables.headers
    ensures exists s :: Uploads.Allocate(s, h.key, rows) in steps
    ensures Uploads.Admissible(h.key, rows)
    ensures Uploads.HoldRows(Filter(Uploads.OfUpload(h.id), Uploads.Run(Uploads.EMPTY, steps).tables.lines), h.id, rows)
  {
    Uploads.ReachableFromCalls(steps);
    var rows :| Uploads.IsCallOf(Uploads.Run(Uploads.EMPTY, steps).tables, steps, h, rows);
    rows
  }

  function RowSum(rows: seq<Uploads.Row>): int
  {
    if rows == [] then 0 else RowSum(rows[..|rows| - 1]) + rows[|rows| - 1].amount
  }

  function LineSum(lines: seq<Uploads.Line>): int
  {
    if lines == [] then 0 else LineSum(lines[..|lines| - 1]) + lines[|lines| - 1].amount
  }

  lemma {:induction false} SumOfSelected(lines: seq<Uploads.Line>, id: nat)
    ensures SumOfUpload(lines, id) == LineSum(Filter(Uploads.OfUpload(id), lines))
  {
    if lines != [] {
      var front, last := lines[..|lines| - 1], lines[|lines| - 1];
      assert lines == front + [last];
      SumOfSelected(front, id);
      FilterSnoc(Uploads.OfUpload(id), front, last);
    }
  }

  lemma {:induction false} HeldSum(lines: seq<Uploads.Line>, id: nat, rows: seq<Uploads.Row>)
    requires Uploads.HoldRows(lines, id, rows)
    ensures LineSum(lines) == RowSum(rows)
  {
    if lines != [] {
      HeldSum(lines[..|lines| - 1], id, rows[..|rows| - 1]);
      assert Uploads.HoldsRow(lines[|lines| - 1], id, rows[|rows| - 1]);
    }
  }

  /** What an upload stores adds up to what was uploaded. */
  lemma UploadIsItsRows(steps: seq<Uploads.Step>, h: Header)
    requires h in Uploads.Run(Uploads.EMPTY, steps).tables.headers
    ensures SumOfUpload(Uploads.Run(Uploads.EMPTY, steps).tables.lines, h.id) == RowSum(RowsOf(steps, h))
  {
    var lines := Uploads.Run(Uploads.EMPTY, steps).tables.lines;
    SumOfSelected(lines, h.id);
    HeldSum(Filter(Uploads.OfUpload(h.id), lines), h.id, RowsOf(steps, h));
  }

  predicate IsLastBudget(headers: seq<Header>, cycle: nat, h: Header) {
    h.key.PerUnit? && h.key.cycle == cycle && LastCommitted(headers, h)
  }

  /** The sums of those of the given uploads that are the last of their unit. */
  function SumOverLast(headers: seq<Header>, some: seq<Header>, lines: seq<Uploads.Line>, cycle: nat): int
  {
    if some == [] then 0
    else
      var h := some[|some| - 1];
      SumOverLast(headers, some[..|some| - 1], lines, cycle)
      + (if IsLastBudget(headers, cycle, h) then SumOfUpload(lines, h.id) else 0)
  }

  predicate DistinctHeaders(some: seq<Header>) { forall i, j | 0 <= i < j < |some| :: some[i].id != some[j].id }

  predicate LastAmong(headers: seq<Header>, some: seq<Header>, cycle: nat, upload: nat) {
    exists h | h in some :: IsLastBudget(headers, cycle, h) && h.id == upload
  }

  /** One more line adds to the one upload it belongs to. */
  lemma {:induction false} OneMoreLine(headers: seq<Header>, some: seq<Header>, lines: seq<Uploads.Line>,
                                       l: Uploads.Line,
                                       cycle: nat)
    requires DistinctHeaders(some)
    ensures SumOverLast(headers, some, lines + [l], cycle)
         == SumOverLast(headers, some, lines, cycle)
             + (if LastAmong(headers, some, cycle, l.upload) then l.amount else 0)
  {
    assert (lines + [l])[..|lines + [l]| - 1] == lines;
    if some != [] {
      var front, h := some[..|some| - 1], some[|some| - 1];
      assert some == front + [h];
      OneMoreLine(headers, front, lines, l, cycle);
      assert forall x :: x in some <==> x in front || x == h;
      assert forall x | x in front :: x.id != h.id;
    }
  }

  lemma {:induction false} LastSumByUpload(headers: seq<Header>, lines: seq<Uploads.Line>, cycle: nat)
    requires DistinctHeaders(headers)
    ensures LastBudgetSum(headers, lines, cycle) == SumOverLast(headers, headers, lines, cycle)
  {
    if lines == [] {
      NoLinesNoSum(headers, headers, cycle);
    } else {
      var front, l := lines[..|lines| - 1], lines[|lines| - 1];
      assert lines == front + [l];
      LastSumByUpload(headers, front, cycle);
      OneMoreLine(headers, headers, front, l, cycle);
      assert LastAmong(headers, headers, cycle, l.upload) <==> OfLastBudget(headers, cycle, l.upload);
    }
  }

  lemma {:induction false} NoLinesNoSum(headers: seq<Header>, some: seq<Header>, cycle: nat)
    ensures SumOverLast(headers, some, [], cycle) == 0
  {
    if some != [] {
      NoLinesNoSum(headers, some[..|some| - 1], cycle);
    }
  }

  /** The rows uploaded last for each unit, added up over the first n committed headers. */
  ghost function UploadedSum(steps: seq<Uploads.Step>, cycle: nat, n: nat): int
    requires n <= |Uploads.Run(Uploads.EMPTY, steps).tables.headers|
  {
    var headers := Uploads.Run(Uploads.EMPTY, steps).tables.headers;
    if n == 0 then 0
    else
      UploadedSum(steps, cycle, n - 1)
      + (if IsLastBudget(headers, cycle, headers[n - 1]) then RowSum(RowsOf(steps, headers[n - 1])) else 0)
  }

  lemma {:induction false} UploadedIsStored(steps: seq<Uploads.Step>, cycle: nat, n: nat)
    requires n <= |Uploads.Run(Uploads.EMPTY, steps).tables.headers|
    ensures var t := Uploads.Run(Uploads.EMPTY, steps).tables;
            UploadedSum(steps, cycle, n) == SumOverLast(t.headers, t.headers[..n], t.lines, cycle)
  {
    var t := Uploads.Run(Uploads.EMPTY, steps).tables;
    if n > 0 {
      UploadedIsStored(steps, cycle, n - 1);
      assert t.headers[..n][..n - 1] == t.headers[..n - 1];
      UploadIsItsRows(steps, t.headers[n - 1]);
    }
  }

  /** From the input to the report: the operational column of the unrestricted report adds up to the rows of the
      call that was committed last for each unit. */
  lemma OperationalColumnIsUploadedRows(
    steps: seq<Uploads.Step>, cycle: nat, rows: seq<Report.Row>, src: Report.Sources, units: seq<Report.OrgUnit>,
    accounts: map<nat, Report.Account>)
    requires src.budget == BudgetSource(steps, cycle)
    requires Report.DistinctUnits(units) && Report.IsReport(rows, src, units, accounts, Report.EVERYTHING)
    requires forall id | id in accounts :: accounts[id].id == id
    requires forall k | k in src.budget :: Report.Known(k, Report.UnitsById(units), accounts)
    ensures Report.ColumnSum(rows, Report.OperationalColumn)
         == UploadedSum(steps, cycle, |Uploads.Run(Uploads.EMPTY, steps).tables.headers|)
  {
    var t := Uploads.Run(Uploads.EMPTY, steps).tables;
    OperationalColumnIsLastCommitted(steps, cycle, rows, src, units, accounts);
    Uploads.ReachableInv(steps);
    LastSumByUpload(t.headers, t.lines, cycle);
    UploadedIsStored(steps, cycle, |t.headers|);
    assert t.headers[..|t.headers|] == t.headers;
  }

  // ------------------------------------------------------------------ cell by cell

  /** The source holds each of the rows under its unit and account. */
  ghost predicate HoldsCells(source: map<Report.Key, int>, key: Uploads.Key, rows: seq<Uploads.Row>) {
    forall i | 0 <= i < |rows| && rows[i].account.Some? ::
      CellKey(key, rows[i]) in source && source[CellKey(key, rows[i])] == rows[i].amount
  }

  function CellKey(key: Uploads.Key, r: Uploads.Row): Report.Key
    requires r.account.Some?
  {
    (if key.PerUnit? then key.unit else r.unit, r.account.value)
  }

  function RowEntries(key: Uploads.Key, rows: seq<Uploads.Row>): (r: seq<Entry<Report.Key>>)
    requires Uploads.Admissible(key, rows)
    ensures |r| == |rows| && forall i | 0 <= i < |r| :: r[i] == Entry(CellKey(key, rows[i]), rows[i].amount)
  {
    seq(|rows|, i requires 0 <= i < |rows| => Entry(CellKey(key, rows[i]), rows[i].amount))
  }

  lemma RowEntriesTotal(key: Uploads.Key, rows: seq<Uploads.Row>)
    requires Uploads.Admissible(key, rows)
    ensures HoldsCells(TotalsOf(RowEntries(key, rows)), key, rows)
    ensures forall k | k in TotalsOf(RowEntries(key, rows)) ::
              exists i | 0 <= i < |rows| :: rows[i].account.Some? && k == CellKey(key, rows[i])
  {
    var entries := RowEntries(key, rows);
    forall i, j | 0 <= i < j < |entries|
      ensures entries[i].key != entries[j].key
    {
      assert rows[i].account != rows[j].account || rows[i].unit != rows[j].unit;
    }
    DistinctTotals(entries);
  }

  lemma {:induction false} CycleLinesFilter(lines: seq<Uploads.Line>, id: nat)
    ensures Filter(CycleTotals.OfUpload(id), CycleLines(lines)) == CycleLines(Filter(Uploads.OfUpload(id), lines))
  {
    if lines != [] {
      var front, l := lines[..|lines| - 1], lines[|lines| - 1];
      assert lines == front + [l];
      CycleLinesFilter(front, id);
      FilterSnoc(Uploads.OfUpload(id), front, l);
      FilterSnoc(CycleTotals.OfUpload(id), CycleLines(front), CycleTotals.Line(l.upload, l.unit, l.account, l.amount));
      var kept := Filter(Uploads.OfUpload(id), front);
      assert (kept + [l])[..|kept + [l]| - 1] == kept;
    }
  }

  lemma {:induction false} CycleLineAt(lines: seq<Uploads.Line>)
    ensures |CycleLines(lines)| == |lines|
    ensures forall i | 0 <= i < |lines| ::
              CycleLines(lines)[i]
                  == CycleTotals.Line(lines[i].upload, lines[i].unit, lines[i].account, lines[i].amount)
  {
    if lines != [] {
      CycleLineAt(lines[..|lines| - 1]);
    }
  }

  /** A source of uploads per cycle holds, cell by cell, the rows of the call committed last, and nothing else. */
  lemma CycleSourceHoldsRows(steps: seq<Uploads.Step>, h: Header)
    requires h in Uploads.Run(Uploads.EMPTY, steps).tables.headers && h.key.PerCycle?
    requires LastCommitted(Uploads.Run(Uploads.EMPTY, steps).tables.headers, h)
    ensures var t := Uploads.Run(Uploads.EMPTY, steps).tables;
            var source := CycleTotals.LatestAmounts(CycleUploads(t.headers), CycleLines(t.lines), h.key.cycle);
            && HoldsCells(source, h.key, RowsOf(steps, h))
            && forall k | k in source :: exists r | r in RowsOf(steps, h) :: r.account == Some(k.1) && r.unit == k.0
  {
    var t, rows := Uploads.Run(Uploads.EMPTY, steps).tables, RowsOf(steps, h);
    var held := Filter(Uploads.OfUpload(h.id), t.lines);
    LatestOfCycleIsLastCommitted(steps, h);
    ReachableTablesAreWellKeyed(steps);
    var latest := CycleTotals.GetLatest(CycleUploads(t.headers), h.key.cycle);
    assert CycleTotals.IsLatest(CycleUploads(t.headers), h.key.cycle, CycleUpload(h));
    assert latest == Some(CycleUpload(h));
    CycleLinesFilter(t.lines, h.id);
    CycleLineAt(held);
    assert CycleTotals.EntriesOf(CycleLines(held)) == RowEntries(h.key, rows) by {
      assert forall i | 0 <= i < |rows| :: Uploads.HoldsRow(held[i], h.id, rows[i]);
    }
    RowEntriesTotal(h.key, rows);
  }

  // ------------------------------------------------------------------ the same for budgets

  /** The entries of one upload. */
  lemma {:induction false} EntriesOfOne(id: nat, unit: nat, lines: seq<Uploads.Line>)
    ensures LatestTotals.EntriesOf(map[id := unit], BudgetLines(lines))
         == LineEntries(unit, Filter(Uploads.OfUpload(id), lines))
  {
    if lines != [] {
      var front, l := lines[..|lines| - 1], lines[|lines| - 1];
      assert lines == front + [l];
      EntriesOfOne(id, unit, front);
      FilterSnoc(Uploads.OfUpload(id), front, l);
      LatestTotals.EntriesAppend(map[id := unit], BudgetLines(front), LatestTotals.Line(l.upload, l.account, l.amount));
    }
  }

  function LineEntries(unit: nat, lines: seq<Uploads.Line>): (r: seq<Entry<Report.Key>>)
    ensures |r| == |lines| && forall i | 0 <= i < |r| :: r[i] == Entry((unit, lines[i].account), lines[i].amount)
  {
    seq(|lines|, i requires 0 <= i < |lines| => Entry((unit, lines[i].account), lines[i].amount))
  }

  /** When only one upload belongs to a unit, the unit's keys come from its lines alone. */
  lemma {:induction false} SumOfOneUnit(unitOf: map<nat, nat>, id: nat, unit: nat, lines: seq<Uploads.Line>,
                                        account: nat)
    requires OnlyUpload(unitOf, unit, id)
    ensures var (all, one) :=
              (LatestTotals.EntriesOf(unitOf, BudgetLines(lines)),
               LatestTotals.EntriesOf(map[id := unit], BudgetLines(lines)));
            && SumOf(all, (unit, account)) == SumOf(one, (unit, account))
            && ((unit, account) in KeysOf(all) <==> (unit, account) in KeysOf(one))
  {
    if lines != [] {
      var front, l := lines[..|lines| - 1], lines[|lines| - 1];
      assert lines == front + [l];
      SumOfOneUnit(unitOf, id, unit, front, account);
      EntriesStep(unitOf, front, l, (unit, account));
      EntriesStep(map[id := unit], front, l, (unit, account));
    }
  }

  lemma EntriesStep(unitOf: map<nat, nat>, front: seq<Uploads.Line>, l: Uploads.Line, k: Report.Key)
    ensures var (before, after) :=
              (LatestTotals.EntriesOf(unitOf, BudgetLines(front)),
               LatestTotals.EntriesOf(unitOf, BudgetLines(front + [l])));
            var hit := l.upload in unitOf && (unitOf[l.upload], l.account) == k;
            && SumOf(after, k) == SumOf(before, k) + (if hit then l.amount else 0)
            && (k in KeysOf(after) <==> k in KeysOf(before) || hit)
  {
    var line := LatestTotals.Line(l.upload, l.account, l.amount);
    assert (front + [l])[..|front + [l]| - 1] == front;
    LatestTotals.EntriesAppend(unitOf, BudgetLines(front), line);
    var before := LatestTotals.EntriesOf(unitOf, BudgetLines(front));
    if l.upload in unitOf {
      var e := Entry((unitOf[l.upload], l.account), line.amount);
      assert (before + [e])[..|before + [e]| - 1] == before;
      assert forall x :: x in before + [e] <==> x in before || x == e;
    } else {
      assert before + [] == before;
    }
  }

  /** The entries agree on the keys of the unit. */
  ghost predicate AgreeOn(all: seq<Entry<Report.Key>>, one: seq<Entry<Report.Key>>, unit: nat) {
    forall account: nat ::
      && SumOf(all, (unit, account)) == SumOf(one, (unit, account))
      && ((unit, account) in KeysOf(all) <==> (unit, account) in KeysOf(one))
  }

  lemma UnitEntries(unitOf: map<nat, nat>, lines: seq<Uploads.Line>, h: Header, rows: seq<Uploads.Row>)
    requires h.key.PerUnit? && Uploads.Admissible(h.key, rows)
    requires Uploads.HoldRows(Filter(Uploads.OfUpload(h.id), lines), h.id, rows)
    requires OnlyUpload(unitOf, h.key.unit, h.id)
    ensures AgreeOn(LatestTotals.EntriesOf(unitOf, BudgetLines(lines)), RowEntries(h.key, rows), h.key.unit)
  {
    EntriesOfOne(h.id, h.key.unit, lines);
    HeldEntries(Filter(Uploads.OfUpload(h.id), lines), h, rows);
    forall account: nat
      ensures var (all, one) := (LatestTotals.EntriesOf(unitOf, BudgetLines(lines)), RowEntries(h.key, rows));
              && SumOf(all, (h.key.unit, account)) == SumOf(one, (h.key.unit, account))
              && ((h.key.unit, account) in KeysOf(all) <==> (h.key.unit, account) in KeysOf(one))
    {
      SumOfOneUnit(unitOf, h.id, h.key.unit, lines, account);
    }
  }

  lemma HeldEntries(held: seq<Uploads.Line>, h: Header, rows: seq<Uploads.Row>)
    requires h.key.PerUnit? && Uploads.Admissible(h.key, rows) && Uploads.HoldRows(held, h.id, rows)
    ensures LineEntries(h.key.unit, held) == RowEntries(h.key, rows)
  {
    assert forall i | 0 <= i < |rows| :: Uploads.HoldsRow(held[i], h.id, rows[i]);
  }

  lemma CellsAgree(all: seq<Entry<Report.Key>>, key: Uploads.Key, rows: seq<Uploads.Row>)
    requires key.PerUnit? && Uploads.Admissible(key, rows) && AgreeOn(all, RowEntries(key, rows), key.unit)
    ensures HoldsCells(TotalsOf(all), key, rows)
    ensures forall k | k in TotalsOf(all) && k.0 == key.unit :: exists r | r in rows :: r.account == Some(k.1)
  {
    RowEntriesTotal(key, rows);
    forall k | k in TotalsOf(all) && k.0 == key.unit
      ensures exists r | r in rows :: r.account == Some(k.1)
    {
      assert (key.unit, k.1) in KeysOf(all);
      assert k in TotalsOf(RowEntries(key, rows));
      var i :| 0 <= i < |rows| && rows[i].account.Some? && k == CellKey(key, rows[i]);
      assert rows[i] in rows;
    }
    forall i | 0 <= i < |rows| && rows[i].account.Some?
      ensures CellKey(key, rows[i]) in TotalsOf(all) && TotalsOf(all)[CellKey(key, rows[i])] == rows[i].amount
    {
      assert CellKey(key, rows[i]) in TotalsOf(RowEntries(key, rows));
      assert (key.unit, rows[i].account.value) in KeysOf(all);
    }
  }

  ghost predicate OnlyCells(source: map<Report.Key, int>, unit: nat, rows: seq<Uploads.Row>) {
    forall k | k in source && k.0 == unit :: exists r | r in rows :: r.account == Some(k.1)
  }

  /** Only this upload belongs to the unit. */
  ghost predicate OnlyUpload(unitOf: map<nat, nat>, unit: nat, id: nat) {
    forall x: nat :: x in unitOf && unitOf[x] == unit <==> x == id
  }

  lemma UnitCells(uploads: seq<LatestTotals.Upload>, cycle: nat, lines: seq<Uploads.Line>, h: Header,
                  rows: seq<Uploads.Row>)
    requires LatestTotals.WellKeyed(uploads) && h.key.PerUnit? && Uploads.Admissible(h.key, rows)
    requires Uploads.HoldRows(Filter(Uploads.OfUpload(h.id), lines), h.id, rows)
    requires OnlyUpload(LatestTotals.LatestUnits(uploads, cycle), h.key.unit, h.id)
    ensures HoldsCells(LatestTotals.LatestAmounts(uploads, BudgetLines(lines), cycle), h.key, rows)
    ensures OnlyCells(LatestTotals.LatestAmounts(uploads, BudgetLines(lines), cycle), h.key.unit, rows)
  {
    var unitOf := LatestTotals.LatestUnits(uploads, cycle);
    UnitEntries(unitOf, lines, h, rows);
    CellsAgree(LatestTotals.EntriesOf(unitOf, BudgetLines(lines)), h.key, rows);
  }

  /** The budget source holds, cell by cell, the rows of the call committed last for the unit, and for that unit
      nothing else. */
  lemma BudgetSourceHoldsRows(steps: seq<Uploads.Step>, h: Header)
    requires h in Uploads.Run(Uploads.EMPTY, steps).tables.headers && h.key.PerUnit?
    requires LastCommitted(Uploads.Run(Uploads.EMPTY, steps).tables.headers, h)
    ensures HoldsCells(BudgetSource(steps, h.key.cycle), h.key, RowsOf(steps, h))
    ensures OnlyCells(BudgetSource(steps, h.key.cycle), h.key.unit, RowsOf(steps, h))
  {
    var t, rows := Uploads.Run(Uploads.EMPTY, steps).tables, RowsOf(steps, h);
    ReachableTablesAreWellKeyed(steps);
    OnlyLastOfUnit(steps, h);
    UnitCells(BudgetUploads(t.headers), h.key.cycle, t.lines, h, rows);
  }

  lemma OnlyLastOfUnit(steps: seq<Uploads.Step>, h: Header)
    requires h in Uploads.Run(Uploads.EMPTY, steps).tables.headers && h.key.PerUnit?
    requires LastCommitted(Uploads.Run(Uploads.EMPTY, steps).tables.headers, h)
    requires LatestTotals.WellKeyed(BudgetUploads(Uploads.Run(Uploads.EMPTY, steps).tables.headers))
    ensures var uploads := BudgetUploads(Uploads.Run(Uploads.EMPTY, steps).tables.headers);
            OnlyUpload(LatestTotals.LatestUnits(uploads, h.key.cycle), h.key.unit, h.id)
  {
    var headers := Uploads.Run(Uploads.EMPTY, steps).tables.headers;
    forall x: nat
      ensures var unitOf := LatestTotals.LatestUnits(BudgetUploads(headers), h.key.cycle);
              x in unitOf && unitOf[x] == h.key.unit <==> x == h.id
    {
      LatestUnitIff(steps, h.key.cycle, x, h.key.unit);
      ReachableKeyed(steps);
      LastHasHighestVersion(steps, h);
      if g :| g in headers && g.key == h.key && LastCommitted(headers, g) && g.id == x {
        LastHasHighestVersion(steps, g);
      }
    }
  }
}
