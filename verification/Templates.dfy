/** Template generation: every filing unit gets its own transaction, and one unit's failure never stops the
    batch. Any step may raise; what is left in the committed tables must agree with the result reported. */
module Templates {
  import opened Common
  import OrgTree

  type Bytes = seq<nat>

  /** A row is an error row when it carries an error message. storageKey is None for the placeholder. */
  datatype Template = Template(id: nat, cycle: nat, unit: nat, storageKey: Option<nat>, hash: Bytes,
                               downloads: nat, error: Option<string>)

  datatype Audit = Generate(template: nat) | Download(template: nat, count: nat)

  /** The committed tables, and the files, which no transaction covers. */
  datatype State = State(templates: seq<Template>, audits: seq<Audit>, files: map<nat, Bytes>)

  datatype Place = AtActuals | AtBuild | AtSave | AtDelete | AtFlush | AtCommit | AtAudit | AtAuditCommit

  datatype ErrorPlace = AtErrorDelete | AtErrorFlush | AtErrorCommit

  /** What the outside contributes to one unit's turn: the workbook built, the fresh file key and row ids,
      the first step that raises and its message, and the step at which recording the error raises. */
  datatype Turn = Turn(workbook: Bytes, key: nat, id: nat, fault: Option<Place>, message: string,
                       errorId: nat, errorFault: Option<ErrorPlace>)

  datatype Status = Generated | Error

  datatype TemplateResult = TemplateResult(unit: nat, status: Status, error: Option<string>, id: Option<nat>)

  const MESSAGE_LIMIT := 500

  const ZERO_HASH: Bytes :=
      [0, 0, 0, 0, 0, 0, 0, 0, 0, 0, 0, 0, 0, 0, 0, 0, 0, 0, 0, 0, 0, 0, 0, 0, 0, 0, 0, 0, 0, 0, 0, 0]

  function Truncated(message: string): string
  {
    if |message| > MESSAGE_LIMIT then message[..MESSAGE_LIMIT] else message
  }

  /** The message itself, or its first 500 characters when it is longer. */
  predicate Shortened(stored: string, message: string) {
    stored <= message && |stored| == if |message| <= 500 then |message| else 500
  }

  function CleanRow(cycle: nat, unit: nat, turn: Turn, sha256: Bytes -> Bytes): Template
  {
    Template(turn.id, cycle, unit, Some(turn.key), sha256(turn.workbook), 0, None)
  }

  function ErrorRow(cycle: nat, unit: nat, turn: Turn): Template
  {
    Template(turn.errorId, cycle, unit, None, ZERO_HASH, 0, Some(Truncated(turn.message)))
  }

  function IsFor(cycle: nat, unit: nat): Template -> bool { (t: Template) => t.cycle == cycle && t.unit == unit }

  function NotFor(cycle: nat, unit: nat): Template -> bool { (t: Template) => !(t.cycle == cycle && t.unit == unit) }

  function OutsideBatch(cycle: nat, units: seq<nat>): Template -> bool
  {
    (t: Template) => !(t.cycle == cycle && t.unit in units)
  }

  function RowsFor(templates: seq<Template>, cycle: nat, unit: nat): seq<Template>
  {
    Filter(IsFor(cycle, unit), templates)
  }

  /** Delete the pair's rows, then insert one. */
  function Replaced(templates: seq<Template>, row: Template): seq<Template>
  {
    Filter(NotFor(row.cycle, row.unit), templates) + [row]
  }

  predicate FileSaved(turn: Turn) {
    turn.fault.None? || !(turn.fault.value.AtActuals? || turn.fault.value.AtBuild? || turn.fault.value.AtSave?)
  }

  /** The generated row is committed: the first fault, if any, comes after that commit. */
  predicate RowCommitted(turn: Turn) {
    turn.fault.None? || turn.fault.value.AtAudit? || turn.fault.value.AtAuditCommit?
  }

  /** What one unit's turn leaves in the committed tables, and the result it reports. */
  function OneTurn(s: State, cycle: nat, unit: nat, turn: Turn, sha256: Bytes -> Bytes): (State, TemplateResult)
  {
    var files := if FileSaved(turn) then s.files[turn.key := turn.workbook] else s.files;
    var templates := if RowCommitted(turn) then Replaced(s.templates, CleanRow(cycle, unit, turn, sha256))
        else s.templates;
    if turn.fault.None? then
      (State(templates, s.audits + [Generate(turn.id)], files), TemplateResult(unit, Generated, None, Some(turn.id)))
    else if turn.errorFault.None? then
      (State(Replaced(templates, ErrorRow(cycle, unit, turn)), s.audits, files),
       TemplateResult(unit, Error, Some(turn.message), Some(turn.errorId)))
    else
      (State(templates, s.audits, files), TemplateResult(unit, Error, Some(turn.message), None))
  }

  /** The first n turns of a batch. */
  function Batch(s: State, cycle: nat, units: seq<nat>, turns: seq<Turn>, n: nat, sha256: Bytes -> Bytes)
    : (r: (State, seq<TemplateResult>))
    requires n <= |units| == |turns|
    ensures |r.1| == n
  {
    if n == 0 then (s, [])
    else
      var (before, results) := Batch(s, cycle, units, turns, n - 1, sha256);
      var (after, result) := OneTurn(before, cycle, units[n - 1], turns[n - 1], sha256);
      (after, results + [result])
  }

  // ------------------------------------------------------------------ the service

  datatype DownloadFault = AtRead | AtCount | AtDownloadAudit

  datatype DownloadError = OutsideScope | NotGenerated | Faulted

  class TemplateService {
    /** Committed tables. */
    var templates: seq<Template>
    var audits: seq<Audit>
    /** The same tables as the open transaction sees them. */
    var workingTemplates: seq<Template>
    var workingAudits: seq<Audit>
    var files: map<nat, Bytes>
    const sha256: Bytes -> Bytes

    function Committed(): State
      reads this
    {
      State(templates, audits, files)
    }

    /** No transaction is open. */
    predicate Idle()
      reads this
    {
      workingTemplates == templates && workingAudits == audits
    }

    method Commit()
      modifies this`templates, this`audits
      ensures Idle() && templates == old(workingTemplates) && audits == old(workingAudits)
    {
      templates, audits := workingTemplates, workingAudits;
    }

    method Rollback()
      modifies this`workingTemplates, this`workingAudits
      ensures Idle()
    {
      workingTemplates, workingAudits := templates, audits;
    }

    method UpsertGeneratedRow(cycle: nat, unit: nat, storageKey: nat, content: Bytes, id: nat, fault: Option<Place>)
      returns (row: Option<Template>)
      modifies this`workingTemplates
      ensures row.None? <==> fault == Some(AtDelete) || fault == Some(AtFlush)
      ensures row.Some? ==> row.value == Template(id, cycle, unit, Some(storageKey), sha256(content), 0, None)
                            && workingTemplates == Replaced(old(workingTemplates), row.value)
    {
      if fault == Some(AtDelete) {
        return None;
      }
      workingTemplates := Filter(NotFor(cycle, unit), workingTemplates);
      var template := Template(id, cycle, unit, Some(storageKey), sha256(content), 0, None);
      workingTemplates := workingTemplates + [template];
      if fault == Some(AtFlush) {
        return None;
      }
      return Some(template);
    }

    method UpsertErrorRow(cycle: nat, unit: nat, message: string, id: nat, fault: Option<ErrorPlace>)
      returns (row: Option<Template>)
      modifies this`workingTemplates
      ensures row.None? <==> fault == Some(AtErrorDelete) || fault == Some(AtErrorFlush)
      ensures row.Some? ==> row.value.error.Some? && Shortened(row.value.error.value, message)
                            && row.value.storageKey.None? && |row.value.hash| == 32 && row.value.downloads == 0
                            && forall i | 0 <= i < 32 :: row.value.hash[i] == 0
      ensures row.Some? ==> row.value == Template(id, cycle, unit, None, ZERO_HASH, 0, Some(Truncated(message)))
                            && workingTemplates == Replaced(old(workingTemplates), row.value)
    {
      if fault == Some(AtErrorDelete) {
        return None;
      }
      workingTemplates := Filter(NotFor(cycle, unit), workingTemplates);
      var errorRow := Template(id, cycle, unit, None, ZERO_HASH, 0, Some(Truncated(message)));
      workingTemplates := workingTemplates + [errorRow];
      if fault == Some(AtErrorFlush) {
        return None;
      }
      return Some(errorRow);
    }

    /** The steps of one unit up to the first that raises; false when one did. */
    method TryGenerate(cycle: nat, unit: nat, turn: Turn) returns (result: Option<TemplateResult>)
      requires Idle()
      modifies this
      ensures files == if FileSaved(turn) then old(files)[turn.key := turn.workbook] else old(files)
      ensures templates == if RowCommitted(turn) then Replaced(old(templates), CleanRow(cycle, unit, turn, sha256))
                           else old(templates)
      ensures audits == if turn.fault.None? then old(audits) + [Generate(turn.id)] else old(audits)
      ensures result == if turn.fault.None? then Some(TemplateResult(unit, Generated, None, Some(turn.id))) else None
      ensures turn.fault.None? ==> Idle()
    {
      if turn.fault == Some(AtActuals) || turn.fault == Some(AtBuild) || turn.fault == Some(AtSave) {
        return None;
      }
      files := files[turn.key := turn.workbook];
      var template := UpsertGeneratedRow(cycle, unit, turn.key, turn.workbook, turn.id, turn.fault);
      if template.None? || turn.fault == Some(AtCommit) {
        return None;
      }
      Commit();
      if turn.fault == Some(AtAudit) {
        return None;
      }
      workingAudits := workingAudits + [Generate(template.value.id)];
      if turn.fault == Some(AtAuditCommit) {
        return None;
      }
      Commit();
      return Some(TemplateResult(unit, Generated, None, Some(template.value.id)));
    }

    method PersistErrorResult(cycle: nat, unit: nat, message: string, turn: Turn) returns (result: TemplateResult)
      requires Idle()
      modifies this`templates, this`audits, this`workingTemplates, this`workingAudits
      ensures Idle() && audits == old(audits)
      ensures result == TemplateResult(unit, Error, Some(message), if turn.errorFault.None? then Some(turn.errorId)
                                       else None)
      ensures templates == if turn.errorFault.Some? then old(templates)
                           else Replaced(old(templates),
                                         Template(turn.errorId, cycle, unit, None, ZERO_HASH, 0,
                                                  Some(Truncated(message))))
    {
      assert turn.errorFault.Some? ==> turn.errorFault.value.AtErrorDelete? || turn.errorFault.value.AtErrorFlush?
                                       || turn.errorFault.value.AtErrorCommit?;
      var template := UpsertErrorRow(cycle, unit, message, turn.errorId, turn.errorFault);
      if template.None? || turn.errorFault == Some(AtErrorCommit) {
        Rollback();
        return TemplateResult(unit, Error, Some(message), None);
      }
      Commit();
      return TemplateResult(unit, Error, Some(message), Some(template.value.id));
    }

    method GenerateSingleUnit(cycle: nat, unit: nat, turn: Turn) returns (result: TemplateResult)
      requires Idle()
      modifies this
      ensures Idle() && (Committed(), result) == OneTurn(old(Committed()), cycle, unit, turn, sha256)
    {
      var generated := TryGenerate(cycle, unit, turn);
      if generated.Some? {
        return generated.value;
      }
      Rollback();
      result := PersistErrorResult(cycle, unit, turn.message, turn);
    }

    /** One turn per unit, in order, whatever raises in between. */
    method GenerateForCycle(cycle: nat, units: seq<nat>, turns: seq<Turn>) returns (results: seq<TemplateResult>)
      requires Idle() && |units| == |turns|
      modifies this
      ensures Idle() && (Committed(), results) == Batch(old(Committed()), cycle, units, turns, |units|, sha256)
    {
      results := [];
      for i := 0 to |units|
        invariant Idle() && (Committed(), results) == Batch(old(Committed()), cycle, units, turns, i, sha256)
      {
        var result := GenerateSingleUnit(cycle, units[i], turns[i]);
        results := results + [result];
      }
    }

    /** The pair's row, of which there is at most one. */
    method FetchTemplate(cycle: nat, unit: nat) returns (found: Option<Template>)
      requires OneRowPerPair(templates)
      ensures found.None? ==> forall t | t in templates :: !IsFor(cycle, unit)(t)
      ensures found.Some? ==> found.value in templates && IsFor(cycle, unit)(found.value)
      ensures found.Some? ==> forall t | t in templates && IsFor(cycle, unit)(t) :: t == found.value
    {
      var rows := RowsFor(templates, cycle, unit);
      if rows == [] {
        return None;
      }
      OnlyFirst(templates, cycle, unit);
      return Some(rows[0]);
    }

    /** Serves the pair's stored file and counts the download. The count is committed before the audit row,
        so a download that fails at its audit is still counted. */
    method DownloadTemplate(cycle: nat, unit: nat, scope: OrgTree.ScopeSet, fault: Option<DownloadFault>)
      returns (result: Result<Bytes, DownloadError>)
      requires Idle() && OneRowPerPair(templates)
      modifies this`templates, this`audits, this`workingTemplates, this`workingAudits
      ensures Idle()
      ensures result == Err(OutsideScope) <==> !(scope.AllScopes? || unit in scope.units)
      ensures result == Err(NotGenerated) <==>
                InScope(scope, unit) && forall t | t in old(templates) && IsFor(cycle, unit)(t) :: t.error.Some?
      ensures result.Ok? <==> InScope(scope, unit) && Available(old(templates), cycle, unit, files) && fault.None?
      ensures result.Ok? ==> exists t | t in old(templates) ::
                IsFor(cycle, unit)(t) && Served(t, result.value, files)
                    && audits == old(audits) + [Download(t.id, t.downloads + 1)]
      ensures Counted(old(templates), templates, cycle, unit,
                      InScope(scope, unit) && Available(old(templates), cycle, unit, files) && fault != Some(AtRead)
                          && fault != Some(AtCount))
      ensures !result.Ok? ==> audits == old(audits)
    {
      assert fault.Some? ==> fault.value.AtRead? || fault.value.AtCount? || fault.value.AtDownloadAudit?;
      if !InScope(scope, unit) {
        return Err(OutsideScope);
      }
      var found := FetchTemplate(cycle, unit);
      if found.None? || found.value.error.Some? {
        return Err(NotGenerated);
      }
      var template := found.value;
      if fault == Some(AtRead) || template.storageKey.None? || template.storageKey.value !in files {
        return Err(Faulted);
      }
      var content := files[template.storageKey.value];
      if fault == Some(AtCount) {
        return Err(Faulted);
      }
      var i :| 0 <= i < |templates| && templates[i] == template;
      workingTemplates := workingTemplates[i := template.(downloads := template.downloads + 1)];
      Commit();
      if fault == Some(AtDownloadAudit) {
        return Err(Faulted);
      }
      workingAudits := workingAudits + [Download(template.id, template.downloads + 1)];
      Commit();
      return Ok(content);
    }
  }

  predicate InScope(scope: OrgTree.ScopeSet, unit: nat) { scope.AllScopes? || unit in scope.units }

  /** The pair has a generated row whose file is in storage. */
  predicate Available(templates: seq<Template>, cycle: nat, unit: nat, files: map<nat, Bytes>) {
    exists t | t in templates ::
      IsFor(cycle, unit)(t) && t.error.None? && t.storageKey.Some? && t.storageKey.value in files
  }

  predicate Served(t: Template, content: Bytes, files: map<nat, Bytes>) {
    t.error.None? && t.storageKey.Some? && t.storageKey.value in files && content == files[t.storageKey.value]
  }

  /** The pair's row counts one more download, and nothing else differs. */
  predicate Counted(before: seq<Template>, after: seq<Template>, cycle: nat, unit: nat, counted: bool) {
    && |after| == |before|
    && forall i | 0 <= i < |before| ::
         if counted && before[i].cycle == cycle && before[i].unit == unit
         then after[i] == before[i].(downloads := before[i].downloads + 1)
         else after[i] == before[i]
  }

  /** UNIQUE (cycle_id, org_unit_id) */
  predicate OneRowPerPair(templates: seq<Template>) {
    forall i, j | 0 <= i < j < |templates| ::
        !(templates[i].cycle == templates[j].cycle && templates[i].unit == templates[j].unit)
  }

  /** Every clean row's file is in storage and has the digest the row records. */
  ghost predicate Intact(s: State, sha256: Bytes -> Bytes) {
    forall t | t in s.templates && t.error.None? ::
      t.storageKey.Some? && t.storageKey.value in s.files && sha256(s.files[t.storageKey.value]) == t.hash
  }

  lemma OnlyRow(templates: seq<Template>, cycle: nat, unit: nat, t: Template)
    requires OneRowPerPair(templates) && t in templates && IsFor(cycle, unit)(t)
    ensures RowsFor(templates, cycle, unit) != [] && RowsFor(templates, cycle, unit)[0] == t
  {
    var found := RowsFor(templates, cycle, unit);
    assert t in found;
    assert found[0] in found;
  }

  lemma OnlyFirst(templates: seq<Template>, cycle: nat, unit: nat)
    requires OneRowPerPair(templates) && RowsFor(templates, cycle, unit) != []
    ensures var first := RowsFor(templates, cycle, unit)[0];
            && first in templates && IsFor(cycle, unit)(first)
            && forall i | 0 <= i < |templates| && templates[i] != first :: !IsFor(cycle, unit)(templates[i])
  {
    assert RowsFor(templates, cycle, unit)[0] in RowsFor(templates, cycle, unit);
    forall i | 0 <= i < |templates| && IsFor(cycle, unit)(templates[i])
      ensures templates[i] == RowsFor(templates, cycle, unit)[0]
    {
      OnlyRow(templates, cycle, unit, templates[i]);
    }
  }

  /** Counting downloads does not disturb the match between rows and files. */
  lemma CountedKeepsIntact(s: State, after: seq<Template>, cycle: nat, unit: nat, counted: bool, sha256: Bytes -> Bytes)
    requires Intact(s, sha256) && Counted(s.templates, after, cycle, unit, counted)
    ensures Intact(s.(templates := after), sha256)
  {
    forall t | t in after && t.error.None?
      ensures t.storageKey.Some? && t.storageKey.value in s.files && sha256(s.files[t.storageKey.value]) == t.hash
    {
      var i :| 0 <= i < |after| && after[i] == t;
      assert s.templates[i].storageKey == t.storageKey && s.templates[i].error == t.error;
    }
  }

  // ------------------------------------------------------------------ scans after a replacement

  /** The scan selects no row of the pair. */
  ghost predicate Avoids(p: Template -> bool, cycle: nat, unit: nat) { forall t :: p(t) ==> NotFor(cycle, unit)(t) }

  /** A scan for other pairs does not see the replacement. */
  lemma ReplacedElsewhere(p: Template -> bool, templates: seq<Template>, row: Template)
    requires Avoids(p, row.cycle, row.unit)
    ensures Filter(p, Replaced(templates, row)) == Filter(p, templates)
  {
    FilterAppend(p, Filter(NotFor(row.cycle, row.unit), templates), [row]);
    FilterWithin(p, NotFor(row.cycle, row.unit), templates);
  }

  lemma ReplacedHere(templates: seq<Template>, row: Template)
    ensures RowsFor(Replaced(templates, row), row.cycle, row.unit) == [row]
  {
    var p, kept := IsFor(row.cycle, row.unit), Filter(NotFor(row.cycle, row.unit), templates);
    FilterAppend(p, kept, [row]);
    FilterNone(p, kept);
  }

  function OtherPairs(): (Template, Template) -> bool
  {
    (a: Template, b: Template) => !(a.cycle == b.cycle && a.unit == b.unit)
  }

  lemma FilterKeepsUnique(p: Template -> bool, s: seq<Template>)
    requires OneRowPerPair(s)
    ensures OneRowPerPair(Filter(p, s))
  {
    FilterKeepsPairwise(OtherPairs(), p, s);
    assert Pairwise(OtherPairs(), Filter(p, s));
  }

  lemma ReplacedUnique(templates: seq<Template>, row: Template)
    requires OneRowPerPair(templates)
    ensures OneRowPerPair(Replaced(templates, row))
  {
    var kept := Filter(NotFor(row.cycle, row.unit), templates);
    FilterKeepsUnique(NotFor(row.cycle, row.unit), templates);
    assert forall i | 0 <= i < |kept| :: kept[i] in kept;
  }

  // ------------------------------------------------------------------ properties of a batch

  /** The unique constraint is never violated: at most one row per pair after any batch with any faults. */
  lemma {:induction false} BatchKeepsOneRowPerPair(s: State, cycle: nat, units: seq<nat>, turns: seq<Turn>, n: nat,
                                                   sha256: Bytes -> Bytes)
    requires n <= |units| == |turns| && OneRowPerPair(s.templates)
    ensures OneRowPerPair(Batch(s, cycle, units, turns, n, sha256).0.templates)
  {
    if n > 0 {
      BatchKeepsOneRowPerPair(s, cycle, units, turns, n - 1, sha256);
      var before := Batch(s, cycle, units, turns, n - 1, sha256).0;
      var clean := CleanRow(cycle, units[n - 1], turns[n - 1], sha256);
      var error := ErrorRow(cycle, units[n - 1], turns[n - 1]);
      ReplacedUnique(before.templates, clean);
      ReplacedUnique(before.templates, error);
      ReplacedUnique(Replaced(before.templates, clean), error);
    }
  }

  /** A scan for other pairs sees the same before and after the turn. */
  lemma TurnElsewhere(p: Template -> bool, s: State, cycle: nat, unit: nat, turn: Turn, sha256: Bytes -> Bytes)
    requires Avoids(p, cycle, unit)
    ensures Filter(p, OneTurn(s, cycle, unit, turn, sha256).0.templates) == Filter(p, s.templates)
  {
    var clean, error := CleanRow(cycle, unit, turn, sha256), ErrorRow(cycle, unit, turn);
    ReplacedElsewhere(p, s.templates, clean);
    ReplacedElsewhere(p, s.templates, error);
    ReplacedElsewhere(p, Replaced(s.templates, clean), error);
  }

  lemma LastTurnElsewhere(p: Template -> bool, s: State, cycle: nat, units: seq<nat>, turns: seq<Turn>, n: nat,
                          sha256: Bytes -> Bytes)
    requires 0 < n <= |units| == |turns| && Avoids(p, cycle, units[n - 1])
    ensures Filter(p, Batch(s, cycle, units, turns, n, sha256).0.templates)
         == Filter(p, Batch(s, cycle, units, turns, n - 1, sha256).0.templates)
  {
    TurnElsewhere(p, Batch(s, cycle, units, turns, n - 1, sha256).0, cycle, units[n - 1], turns[n - 1], sha256);
  }

  /** Turns m to n - 1, none of them for a pair the scan selects, do not change what it sees. */
  lemma {:induction false} TurnsElsewhere(p: Template -> bool, s: State, cycle: nat, units: seq<nat>, turns: seq<Turn>,
                                          m: nat, n: nat, sha256: Bytes -> Bytes)
    requires m <= n <= |units| == |turns|
    requires forall i | m <= i < n :: Avoids(p, cycle, units[i])
    ensures Filter(p, Batch(s, cycle, units, turns, n, sha256).0.templates)
         == Filter(p, Batch(s, cycle, units, turns, m, sha256).0.templates)
    decreases n
  {
    if m < n {
      TurnsElsewhere(p, s, cycle, units, turns, m, n - 1, sha256);
      LastTurnElsewhere(p, s, cycle, units, turns, n, sha256);
    }
  }

  /** While the batch is at other units, a unit's rows stay as they are. */
  lemma UnitsElsewhere(s: State, cycle: nat, units: seq<nat>, turns: seq<Turn>, m: nat, n: nat, unit: nat,
                       sha256: Bytes -> Bytes)
    requires m <= n <= |units| == |turns| && unit !in units[m..n]
    ensures RowsAfter(s, cycle, units, turns, n, unit, sha256) == RowsAfter(s, cycle, units, turns, m, unit, sha256)
  {
    assert forall j | m <= j < n :: units[j] == units[m..n][j - m] && units[j] != unit;
    TurnsElsewhere(IsFor(cycle, unit), s, cycle, units, turns, m, n, sha256);
  }

  /** Rows of other cycles, and of units the batch was not asked for, are exactly as before. */
  lemma BatchTouchesOnlyItsUnits(s: State, cycle: nat, units: seq<nat>, turns: seq<Turn>, sha256: Bytes -> Bytes)
    requires |units| == |turns|
    ensures Filter(OutsideBatch(cycle, units), Batch(s, cycle, units, turns, |units|, sha256).0.templates)
         == Filter(OutsideBatch(cycle, units), s.templates)
  {
    TurnsElsewhere(OutsideBatch(cycle, units), s, cycle, units, turns, 0, |units|, sha256);
  }

  /** The committed rows of the pair agree with the reported result. A generated result's id is the pair's
      one clean row; an error result's id is its one error row; an error without id leaves the earlier row,
      or the generated row when that was committed before its audit failed. */
  predicate Agrees(earlier: seq<Template>, rows: seq<Template>, cycle: nat, turn: Turn, r: TemplateResult,
                   sha256: Bytes -> Bytes) {
    match r.status
    case Generated =>
      && r.error.None? && r.id.Some? && |rows| == 1
      && rows[0] == Template(r.id.value, cycle, r.unit, Some(turn.key), sha256(turn.workbook), 0, None)
    case Error =>
      && r.error.Some?
      && match r.id {
           case Some(id) =>
             && |rows| == 1 && rows[0].error.Some? && Shortened(rows[0].error.value, r.error.value)
             && r.error.value == turn.message && rows[0].storageKey.None? && rows[0].downloads == 0
             && rows[0].id == id && rows[0].cycle == cycle && rows[0].unit == r.unit
           case None =>
             if turn.fault == Some(AtAudit) || turn.fault == Some(AtAuditCommit) then
               |rows| == 1 && rows[0].id == turn.id && rows[0].error.None?
             else rows == earlier
         }
  }

  lemma TurnAgrees(s: State, cycle: nat, unit: nat, turn: Turn, sha256: Bytes -> Bytes)
    ensures var (after, r) := OneTurn(s, cycle, unit, turn, sha256);
            r.unit == unit && Agrees(RowsFor(s.templates, cycle, unit), RowsFor(after.templates, cycle, unit), cycle,
                                     turn, r, sha256)
  {
    var clean, error := CleanRow(cycle, unit, turn, sha256), ErrorRow(cycle, unit, turn);
    ReplacedHere(s.templates, clean);
    ReplacedHere(s.templates, error);
    ReplacedHere(Replaced(s.templates, clean), error);
  }

  lemma LastResult(s: State, cycle: nat, units: seq<nat>, turns: seq<Turn>, n: nat, sha256: Bytes -> Bytes)
    requires 0 < n <= |units| == |turns|
    ensures Batch(s, cycle, units, turns, n, sha256).1
         == Batch(s, cycle, units, turns, n - 1, sha256).1
            + [OneTurn(Batch(s, cycle, units, turns, n - 1, sha256).0, cycle, units[n - 1], turns[n - 1], sha256).1]
  {
  }

  lemma {:induction false} ResultsInOrder(s: State, cycle: nat, units: seq<nat>, turns: seq<Turn>, i: nat, n: nat,
                                          sha256: Bytes -> Bytes)
    requires i < n <= |units| == |turns|
    ensures Batch(s, cycle, units, turns, n, sha256).1[i]
         == OneTurn(Batch(s, cycle, units, turns, i, sha256).0, cycle, units[i], turns[i], sha256).1
    decreases n
  {
    LastResult(s, cycle, units, turns, n, sha256);
    if i < n - 1 {
      ResultsInOrder(s, cycle, units, turns, i, n - 1, sha256);
    }
  }

  /** The rows of the pair of turn i's unit, after the first n turns. */
  function RowsAfter(s: State, cycle: nat, units: seq<nat>, turns: seq<Turn>, n: nat, unit: nat,
                     sha256: Bytes -> Bytes): seq<Template>
    requires n <= |units| == |turns|
  {
    RowsFor(Batch(s, cycle, units, turns, n, sha256).0.templates, cycle, unit)
  }

  lemma ResultAgreesAtItsTurn(s: State, cycle: nat, units: seq<nat>, turns: seq<Turn>, i: nat, sha256: Bytes -> Bytes)
    requires i < |units| == |turns|
    ensures var r := Batch(s, cycle, units, turns, |units|, sha256).1[i];
            && r.unit == units[i]
            && Agrees(RowsAfter(s, cycle, units, turns, i, units[i], sha256),
                      RowsAfter(s, cycle, units, turns, i + 1, units[i], sha256),
                      cycle, turns[i], r, sha256)
  {
    ResultsInOrder(s, cycle, units, turns, i, |units|, sha256);
    TurnAgrees(Batch(s, cycle, units, turns, i, sha256).0, cycle, units[i], turns[i], sha256);
  }

  /** One result per unit, in order; and each result agrees with the committed rows of its pair when the
      whole batch is over, provided the unit is not listed again later. The rows it is compared with are
      those from before the unit's turn, which are those from before the batch unless it was listed earlier. */
  lemma BatchResultsAgree(s: State, cycle: nat, units: seq<nat>, turns: seq<Turn>, i: nat, sha256: Bytes -> Bytes)
    requires i < |units| == |turns| && units[i] !in units[i + 1..]
    ensures var results := Batch(s, cycle, units, turns, |units|, sha256).1;
            && |results| == |units| && results[i].unit == units[i]
            && Agrees(RowsAfter(s, cycle, units, turns, i, units[i], sha256),
                      RowsAfter(s, cycle, units, turns, |units|, units[i], sha256), cycle, turns[i], results[i], sha256)
    ensures units[i] !in units[..i] ==>
              RowsAfter(s, cycle, units, turns, i, units[i], sha256) == RowsFor(s.templates, cycle, units[i])
  {
    var n := |units|;
    ResultAgreesAtItsTurn(s, cycle, units, turns, i, sha256);
    assert units[i + 1..] == units[i + 1..n];
    UnitsElsewhere(s, cycle, units, turns, i + 1, n, units[i], sha256);
    if units[i] !in units[..i] {
      assert units[..i] == units[0..i];
      UnitsElsewhere(s, cycle, units, turns, 0, i, units[i], sha256);
    }
  }

  /** The ids of the generated results, as audit rows. */
  function AuditsOf(results: seq<TemplateResult>): seq<Audit>
  {
    if results == [] then []
    else
      var r := results[|results| - 1];
      AuditsOf(results[..|results| - 1]) + (if r.status.Generated? && r.id.Some? then [Generate(r.id.value)] else [])
  }

  /** The audit log gains exactly one row per generated result, in order. */
  lemma {:induction false} AuditsMatchResults(s: State, cycle: nat, units: seq<nat>, turns: seq<Turn>, n: nat,
                                              sha256: Bytes -> Bytes)
    requires n <= |units| == |turns|
    ensures var (after, results) := Batch(s, cycle, units, turns, n, sha256);
            after.audits == s.audits + AuditsOf(results)
  {
    if n > 0 {
      AuditsMatchResults(s, cycle, units, turns, n - 1, sha256);
      var results := Batch(s, cycle, units, turns, n, sha256).1;
      assert results[..n - 1] == Batch(s, cycle, units, turns, n - 1, sha256).1;
    }
  }

  /** Files are saved outside the transaction, before the row: a fault in between leaves an orphan file, but
      never a clean row without its file, as long as saved keys are fresh. */
  lemma {:induction false} BatchKeepsIntact(s: State, cycle: nat, units: seq<nat>, turns: seq<Turn>, n: nat,
                                            sha256: Bytes -> Bytes)
    requires n <= |units| == |turns| && Intact(s, sha256)
    requires forall i | 0 <= i < n :: turns[i].key !in s.files
    requires forall i, j | 0 <= i < j < n :: turns[i].key != turns[j].key
    ensures Intact(Batch(s, cycle, units, turns, n, sha256).0, sha256)
    ensures forall k | k in Batch(s, cycle, units, turns, n, sha256).0.files ::
              k in s.files || exists i | 0 <= i < n :: turns[i].key == k
  {
    if n > 0 {
      BatchKeepsIntact(s, cycle, units, turns, n - 1, sha256);
      TurnKeepsIntact(Batch(s, cycle, units, turns, n - 1, sha256).0, cycle, units[n - 1], turns[n - 1], sha256);
    }
  }

  lemma TurnKeepsIntact(s: State, cycle: nat, unit: nat, turn: Turn, sha256: Bytes -> Bytes)
    requires Intact(s, sha256) && turn.key !in s.files
    ensures Intact(OneTurn(s, cycle, unit, turn, sha256).0, sha256)
  {
    var after := OneTurn(s, cycle, unit, turn, sha256).0;
    var clean, error := CleanRow(cycle, unit, turn, sha256), ErrorRow(cycle, unit, turn);
    forall t | t in after.templates && t.error.None?
      ensures t.storageKey.Some? && t.storageKey.value in after.files
              && sha256(after.files[t.storageKey.value]) == t.hash
    {
      assert t in s.templates || t == clean;
    }
  }
}
