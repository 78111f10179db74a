/** Personnel and shared-cost sources: one upload per version for the whole cycle, lines carry their unit. */
module CycleTotals {
  import opened Common
  import opened Totals

  datatype Upload = Upload(id: nat, cycle: nat, version: nat)

  datatype Line = Line(upload: nat, unit: nat, account: nat, amount: int)

  type Key = (nat, nat)

  predicate IsLatest(uploads: seq<Upload>, cycle: nat, u: Upload) {
    && u in uploads && u.cycle == cycle
    && forall w | w in uploads && w.cycle == cycle :: w.version <= u.version
  }

  /** UNIQUE (cycle, version): the latest upload of a cycle is well defined. */
  predicate WellKeyed(uploads: seq<Upload>) {
    forall u, w | u in uploads && w in uploads && u.cycle == w.cycle && u.version == w.version :: u == w
  }

  /** ORDER BY version DESC LIMIT 1 over the cycle's uploads. */
  function GetLatest(uploads: seq<Upload>, cycle: nat): (r: Option<Upload>)
    ensures r.Some? ==> IsLatest(uploads, cycle, r.value)
    ensures r.None? ==> forall u | u in uploads :: u.cycle != cycle
  {
    if uploads == [] then None
    else
      var rest := GetLatest(uploads[1..], cycle);
      if uploads[0].cycle == cycle && (rest.None? || rest.value.version <= uploads[0].version) then Some(uploads[0])
      else rest
  }

  function OfUpload(id: nat): Line -> bool { (l: Line) => l.upload == id }

  function EntriesOf(lines: seq<Line>): (r: seq<Entry<Key>>)
    ensures |r| == |lines|
    ensures forall i | 0 <= i < |r| :: r[i] == Entry((lines[i].unit, lines[i].account), lines[i].amount)
  {
    seq(|lines|, i requires 0 <= i < |lines| => Entry((lines[i].unit, lines[i].account), lines[i].amount))
  }

  /** The totals per unit and account of the cycle's latest upload; empty without uploads. */
  function LatestAmounts(uploads: seq<Upload>, lines: seq<Line>, cycle: nat): map<Key, int>
  {
    var latest := GetLatest(uploads, cycle);
    if latest.None? then map[] else TotalsOf(EntriesOf(Filter(OfUpload(latest.value.id), lines)))
  }

  class CycleUploadRepo {
    var uploads: seq<Upload>
    var lines: seq<Line>

    method GetLatestByCycle(cycle: nat) returns (aggregated: map<Key, int>)
      ensures aggregated == LatestAmounts(uploads, lines, cycle)
      ensures forall u | IsLatest(uploads, cycle, u) && WellKeyed(uploads) ::
                aggregated == TotalsOf(EntriesOf(Filter(OfUpload(u.id), lines)))
    {
      aggregated := map[];
      var latest := GetLatest(uploads, cycle);
      if latest.None? {
        return;
      }
      var selected := Filter(OfUpload(latest.value.id), lines);
      for i := 0 to |selected|
        invariant aggregated == TotalsOf(EntriesOf(selected[..i]))
      {
        var line := selected[i];
        var entry := Entry((line.unit, line.account), line.amount);
        assert EntriesOf(selected[..i + 1]) == EntriesOf(selected[..i]) + [entry];
        TotalsStep(EntriesOf(selected[..i]), entry);
        aggregated := Add(aggregated, entry.key, entry.amount);
      }
      assert selected[..|selected|] == selected;
    }
  }

  /** The amounts of one upload's lines. */
  function UploadSum(lines: seq<Line>, id: nat): int
  {
    if lines == [] then 0
    else
      var last := lines[|lines| - 1];
      UploadSum(lines[..|lines| - 1], id) + (if last.upload == id then last.amount else 0)
  }

  /** The map's values add up to exactly the lines of the cycle's latest upload, and to nothing without one. */
  lemma LatestAmountsConserve(uploads: seq<Upload>, lines: seq<Line>, cycle: nat)
    requires WellKeyed(uploads)
    ensures forall u | IsLatest(uploads, cycle, u) ::
              MapSum(LatestAmounts(uploads, lines, cycle)) == UploadSum(lines, u.id)
    ensures (forall u | u in uploads :: u.cycle != cycle) ==> LatestAmounts(uploads, lines, cycle) == map[]
  {
    var latest := GetLatest(uploads, cycle);
    if latest.Some? {
      TotalsConserve(EntriesOf(Filter(OfUpload(latest.value.id), lines)));
      SelectedSum(lines, latest.value.id);
    }
  }

  lemma {:induction false} SelectedSum(lines: seq<Line>, id: nat)
    ensures Sum(EntriesOf(Filter(OfUpload(id), lines))) == UploadSum(lines, id)
  {
    if lines != [] {
      var front, last := lines[..|lines| - 1], lines[|lines| - 1];
      assert lines == front + [last];
      SelectedSum(front, id);
      FilterSnoc(OfUpload(id), front, last);
      if last.upload == id {
        var kept := Filter(OfUpload(id), front);
        assert EntriesOf(kept + [last])[..|kept|] == EntriesOf(kept);
      }
    }
  }
}
