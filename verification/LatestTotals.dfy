/** Amounts of the latest upload versions of a cycle, as the consolidated report reads them. */
module LatestTotals {
  import opened Common
  import opened Totals

  datatype Upload = Upload(id: nat, cycle: nat, unit: nat, version: nat)

  datatype Line = Line(upload: nat, account: nat, amount: int)

  /** (org unit, account code) */
  type Key = (nat, nat)

  // ------------------------------------------------------------------ ORDER BY version DESC

  predicate VersionsDescend(s: seq<Upload>) {
    forall i, j | 0 <= i < j < |s| :: s[i].version >= s[j].version
  }

  function InsertByVersion(u: Upload, s: seq<Upload>): (r: seq<Upload>)
    requires VersionsDescend(s)
    ensures VersionsDescend(r)
    ensures forall x :: x in r <==> x == u || x in s
  {
    if s == [] || s[0].version <= u.version then [u] + s
    else
      var tail := InsertByVersion(u, s[1..]);
      assert forall x | x in s[1..] :: x.version <= s[0].version;
      assert forall j | 0 <= j < |tail| :: tail[j] in tail && tail[j].version <= s[0].version;
      [s[0]] + tail
  }

  /** Highest version first; rows of equal version keep some order the physical order decides. */
  function OrderByVersionDesc(s: seq<Upload>): (r: seq<Upload>)
    ensures VersionsDescend(r)
    ensures forall x :: x in r <==> x in s
  {
    if s == [] then [] else InsertByVersion(s[0], OrderByVersionDesc(s[1..]))
  }

  // ------------------------------------------------------------------ what the map should be

  /** u is the upload of its unit with the highest version in the cycle. */
  predicate IsLatest(uploads: seq<Upload>, cycle: nat, u: Upload) {
    && u in uploads && u.cycle == cycle
    && forall w | w in uploads && w.cycle == cycle && w.unit == u.unit :: w.version <= u.version
  }

  /** Primary key, and the UNIQUE constraint on (cycle, org unit, version). */
  predicate WellKeyed(uploads: seq<Upload>) {
    && (forall u, w | u in uploads && w in uploads && u.id == w.id :: u == w)
    && (forall u, w | u in uploads && w in uploads
          && u.cycle == w.cycle && u.unit == w.unit && u.version == w.version :: u == w)
  }

  /** The latest upload ids of the cycle with the unit each belongs to. */
  function LatestUnits(uploads: seq<Upload>, cycle: nat): map<nat, nat>
    requires WellKeyed(uploads)
  {
    map u | u in uploads && IsLatest(uploads, cycle, u) :: u.id := u.unit
  }

  /** The amounts of the lines that belong to the given uploads, keyed by (unit, account). */
  function EntriesOf(unitOf: map<nat, nat>, lines: seq<Line>): seq<Entry<Key>>
  {
    if lines == [] then []
    else
      var last := lines[|lines| - 1];
      EntriesOf(unitOf, lines[..|lines| - 1])
      + (if last.upload in unitOf then [Entry((unitOf[last.upload], last.account), last.amount)] else [])
  }

  /** For each unit take its maximum-version upload and sum its lines per account. */
  function LatestAmounts(uploads: seq<Upload>, lines: seq<Line>, cycle: nat): map<Key, int>
    requires WellKeyed(uploads)
  {
    TotalsOf(EntriesOf(LatestUnits(uploads, cycle), lines))
  }

  // ------------------------------------------------------------------ the one-pass form

  /** WHERE cycle_id = ... */
  function OfCycle(cycle: nat): Upload -> bool { (u: Upload) => u.cycle == cycle }

  /** WHERE upload_id IN (...) */
  function LineIn(unitOf: map<nat, nat>): Line -> bool { (l: Line) => l.upload in unitOf }

  predicate DistinctIds(latestByUnit: map<nat, Upload>) {
    forall u, w | u in latestByUnit.Values && w in latestByUnit.Values && u.id == w.id :: u == w
  }

  /** {upload.id: upload.org_unit_id} over the chosen uploads */
  function UploadToUnit(latestByUnit: map<nat, Upload>): map<nat, nat>
    requires DistinctIds(latestByUnit)
  {
    map u | u in latestByUnit.Values :: u.id := u.unit
  }

  class BudgetUploadRepo {
    var uploads: seq<Upload>
    var lines: seq<Line>

    /** The version-descending scan, the first upload seen per unit, then the lines of those uploads. */
    method GetLatestByCycle(cycle: nat) returns (aggregated: map<Key, int>)
      requires WellKeyed(uploads)
      ensures aggregated == LatestAmounts(uploads, lines, cycle)
    {
      var ordered := OrderByVersionDesc(Filter(OfCycle(cycle), uploads));
      aggregated := map[];
      if |ordered| == 0 {
        NoUploads(uploads, lines, cycle);
        return;
      }

      var latestByUnit := FirstSeenPerUnit(ordered);
      LatestAreSelected(uploads, cycle, ordered, latestByUnit);
      var uploadToUnit := UploadToUnit(latestByUnit);
      aggregated := SumLines(uploadToUnit, Filter(LineIn(uploadToUnit), lines));
      SelectedEntries(uploadToUnit, lines);
    }
  }

  /** `latest_by_unit.setdefault(...)` over the ordered scan. */
  method FirstSeenPerUnit(ordered: seq<Upload>) returns (latestByUnit: map<nat, Upload>)
    requires VersionsDescend(ordered)
    ensures forall k | k in latestByUnit :: latestByUnit[k] in ordered && latestByUnit[k].unit == k
    ensures forall u | u in ordered :: SeenAtLeast(latestByUnit, u)
  {
    latestByUnit := map[];
    for i := 0 to |ordered|
      invariant forall k | k in latestByUnit :: latestByUnit[k] in ordered[..i] && latestByUnit[k].unit == k
      invariant forall j | 0 <= j < i :: SeenAtLeast(latestByUnit, ordered[j])
    {
      var u := ordered[i];
      if u.unit !in latestByUnit {
        latestByUnit := latestByUnit[u.unit := u];
      }
    }
    assert ordered[..|ordered|] == ordered;
  }

  /** The aggregation loop over the selected lines. */
  method SumLines(uploadToUnit: map<nat, nat>, selected: seq<Line>) returns (aggregated: map<Key, int>)
    requires forall l | l in selected :: l.upload in uploadToUnit
    ensures aggregated == TotalsOf(EntriesOf(uploadToUnit, selected))
  {
    aggregated := map[];
    for i := 0 to |selected|
      invariant aggregated == TotalsOf(EntriesOf(uploadToUnit, selected[..i]))
    {
      var line := selected[i];
      var key := (uploadToUnit[line.upload], line.account);
      assert selected[..i + 1] == selected[..i] + [line];
      EntriesAppend(uploadToUnit, selected[..i], line);
      TotalsStep(EntriesOf(uploadToUnit, selected[..i]), Entry(key, line.amount));
      aggregated := Add(aggregated, key, line.amount);
    }
    assert selected[..|selected|] == selected;
  }

  /** u's unit already has an upload of at least u's version. */
  predicate SeenAtLeast(latestByUnit: map<nat, Upload>, u: Upload) {
    u.unit in latestByUnit && u.version <= latestByUnit[u.unit].version
  }

  lemma {:induction false} NoUploads(uploads: seq<Upload>, lines: seq<Line>, cycle: nat)
    requires WellKeyed(uploads)
    requires forall u | u in uploads :: u.cycle != cycle
    ensures LatestAmounts(uploads, lines, cycle) == map[]
  {
    assert LatestUnits(uploads, cycle) == map[];
    if lines != [] {
      NoUploads(uploads, lines[..|lines| - 1], cycle);
    }
  }

  /** The first-seen uploads of a descending scan are the maximum-version ones. */
  lemma LatestAreSelected(uploads: seq<Upload>, cycle: nat, ordered: seq<Upload>, chosen: map<nat, Upload>)
    requires WellKeyed(uploads)
    requires forall u :: u in ordered <==> u in uploads && u.cycle == cycle
    requires forall k | k in chosen :: chosen[k] in ordered && chosen[k].unit == k
    requires forall u | u in ordered :: SeenAtLeast(chosen, u)
    ensures forall u :: u in chosen.Values <==> u in uploads && IsLatest(uploads, cycle, u)
    ensures DistinctIds(chosen) && UploadToUnit(chosen) == LatestUnits(uploads, cycle)
  {
    forall u | u in uploads && IsLatest(uploads, cycle, u)
      ensures u in chosen.Values
    {
      assert u in ordered;
      assert chosen[u.unit] in ordered;
      assert chosen[u.unit] == u;
    }
  }

  lemma {:induction false} EntriesAppend(unitOf: map<nat, nat>, lines: seq<Line>, l: Line)
    ensures EntriesOf(unitOf, lines + [l]) == EntriesOf(unitOf, lines)
      + (if l.upload in unitOf then [Entry((unitOf[l.upload], l.account), l.amount)] else [])
  {
    assert (lines + [l])[..|lines + [l]| - 1] == lines;
  }

  lemma {:induction false} SelectedEntries(unitOf: map<nat, nat>, lines: seq<Line>)
    ensures EntriesOf(unitOf, Filter(LineIn(unitOf), lines)) == EntriesOf(unitOf, lines)
  {
    var p := LineIn(unitOf);
    if lines != [] {
      var front, last := lines[..|lines| - 1], lines[|lines| - 1];
      assert lines == front + [last];
      SelectedEntries(unitOf, front);
      FilterSnoc(p, front, last);
      EntriesAppend(unitOf, front, last);
      if p(last) {
        EntriesAppend(unitOf, Filter(p, front), last);
      }
    }
  }

  // ------------------------------------------------------------------ conservation

  /** The amounts of all lines of the latest uploads. */
  function LatestLineSum(uploads: seq<Upload>, lines: seq<Line>, cycle: nat): int
  {
    if lines == [] then 0
    else
      var last := lines[|lines| - 1];
      LatestLineSum(uploads, lines[..|lines| - 1], cycle)
      + (if exists u | u in uploads :: IsLatest(uploads, cycle, u) && u.id == last.upload then last.amount else 0)
  }

  /** Nothing is lost or counted twice: the map's values add up to the lines of the latest uploads. */
  lemma LatestAmountsConserve(uploads: seq<Upload>, lines: seq<Line>, cycle: nat)
    requires WellKeyed(uploads)
    ensures MapSum(LatestAmounts(uploads, lines, cycle)) == LatestLineSum(uploads, lines, cycle)
  {
    TotalsConserve(EntriesOf(LatestUnits(uploads, cycle), lines));
    EntriesSum(uploads, lines, cycle);
  }

  lemma {:induction false} EntriesSum(uploads: seq<Upload>, lines: seq<Line>, cycle: nat)
    requires WellKeyed(uploads)
    ensures Sum(EntriesOf(LatestUnits(uploads, cycle), lines)) == LatestLineSum(uploads, lines, cycle)
  {
    if lines != [] {
      var front, last := lines[..|lines| - 1], lines[|lines| - 1];
      var unitOf := LatestUnits(uploads, cycle);
      EntriesSum(uploads, front, cycle);
      assert last.upload in unitOf <==> exists u | u in uploads :: IsLatest(uploads, cycle, u) && u.id == last.upload;
      if last.upload in unitOf {
        var entry := Entry((unitOf[last.upload], last.account), last.amount);
        assert EntriesOf(unitOf, lines) == EntriesOf(unitOf, front) + [entry];
        SumAppend(EntriesOf(unitOf, front), [entry], entry.key);
        assert [entry][..0] == [];
      } else {
        assert EntriesOf(unitOf, lines) == EntriesOf(unitOf, front);
      }
    }
  }

  /** The map does not depend on the physical order of either table. */
  lemma LatestAmountsOrderFree(u1: seq<Upload>, u2: seq<Upload>, l1: seq<Line>, l2: seq<Line>, cycle: nat)
    requires WellKeyed(u1) && WellKeyed(u2)
    requires multiset(u1) == multiset(u2) && multiset(l1) == multiset(l2)
    ensures LatestAmounts(u1, l1, cycle) == LatestAmounts(u2, l2, cycle)
  {
    SameMembers(u1, u2);
    assert LatestUnits(u1, cycle) == LatestUnits(u2, cycle);
    var unitOf := LatestUnits(u1, cycle);
    FlatMapPermutes(EntryOf(unitOf), l1, l2);
    EntriesAreFlat(unitOf, l1);
    EntriesAreFlat(unitOf, l2);
    TotalsPermute(EntriesOf(unitOf, l1), EntriesOf(unitOf, l2));
  }

  function EntryOf(unitOf: map<nat, nat>): Line -> seq<Entry<Key>>
  {
    (l: Line) => if l.upload in unitOf then [Entry((unitOf[l.upload], l.account), l.amount)] else []
  }

  lemma {:induction false} EntriesAreFlat(unitOf: map<nat, nat>, lines: seq<Line>)
    ensures EntriesOf(unitOf, lines) == FlatMap(EntryOf(unitOf), lines)
  {
    if lines != [] {
      EntriesAreFlat(unitOf, lines[..|lines| - 1]);
    }
  }
}
