/**
 Versioned uploads as a protocol between concurrent sessions.

 Each session reads max(version), inserts a header, adds lines, commits, and only then writes and commits
 its audit row. Sessions interleave arbitrarily and may fault at any point. The committed tables change
 only at commits; the UNIQUE constraint on (key, version) refuses a version that is already committed and
 makes an insert wait while another open transaction holds the same version.
*/
module Uploads {
  import opened Common

  /** Budget uploads are versioned per (cycle, org unit); personnel and shared cost per cycle. */
  datatype Key = PerUnit(cycle: nat, unit: nat) | PerCycle(cycle: nat)

  datatype Header = Header(id: nat, key: Key, version: nat, rowCount: nat)

  /** The lines of a budget upload are all of its own unit; those of an upload per cycle each name theirs. */
  datatype Line = Line(upload: nat, unit: nat, account: nat, amount: nat)

  datatype AuditRow = AuditRow(upload: nat, key: Key, version: nat, rowCount: nat)

  /** A validated row, with the account id its code resolves to, if it still does. */
  datatype Row = Row(unit: nat, account: Option<nat>, amount: nat)

  /** Committed rows, in commit order. */
  datatype Tables = Tables(headers: seq<Header>, lines: seq<Line>, audits: seq<AuditRow>)

  datatype Phase =
    | Allocated(key: Key, version: nat, rows: seq<Row>)
    | Inserting(header: Header, rows: seq<Row>, added: nat)
    | Persisted(header: Header)
    | Auditing(header: Header)
    | Finished(header: Header)
    | Failed

  datatype World = World(tables: Tables, sessions: map<nat, Phase>)

  datatype Step =
    | Allocate(s: nat, key: Key, rows: seq<Row>)
    | Insert(s: nat, id: nat)
    | AddLine(s: nat)
    | CommitUpload(s: nat)
    | WriteAudit(s: nat)
    | CommitAudit(s: nat)
    | Fault(s: nat)

  function MaxVersion(headers: seq<Header>, key: Key): nat
  {
    if headers == [] then 0
    else
      var m, h := MaxVersion(headers[..|headers| - 1], key), headers[|headers| - 1];
      if h.key == key && h.version > m then h.version else m
  }

  function LinesOf(id: nat, rows: seq<Row>): seq<Line>
    requires AllResolved(rows)
  {
    if rows == [] then []
    else
      var last := rows[|rows| - 1];
      LinesOf(id, rows[..|rows| - 1]) + [Line(id, last.unit, last.account.value, last.amount)]
  }

  /** CHECK (row_count <= 5000) on budget headers, tested by the flush that inserts the header. */
  predicate HeaderAllowed(key: Key, rows: seq<Row>) { key.PerUnit? ==> |rows| <= MAX_ROW_COUNT }

  const MAX_ROW_COUNT := 5000

  /** The constraints on lines: UNIQUE (upload_id, account_code_id) for budgets; UNIQUE (upload_id, org_unit_id,
      account_code_id) and CHECK (amount > 0) for uploads per cycle. */
  predicate LinesAllowed(key: Key, rows: seq<Row>) {
    && (forall i, j | 0 <= i < j < |rows| && rows[i].account == rows[j].account ::
        key.PerCycle? && rows[i].unit != rows[j].unit)
    && (key.PerCycle? ==> forall r | r in rows :: r.amount > 0)
  }

  predicate IdInUse(w: World, id: nat) {
    || (exists h | h in w.tables.headers :: h.id == id)
    || (exists s | s in w.sessions :: w.sessions[s].Inserting? && w.sessions[s].header.id == id)
  }

  /** Another open transaction holds the same (key, version) slot of the unique index. */
  predicate SlotLocked(w: World, key: Key, version: nat) {
    exists s | s in w.sessions :: w.sessions[s].Inserting?
      && w.sessions[s].header.key == key && w.sessions[s].header.version == version
  }

  predicate SlotTaken(headers: seq<Header>, key: Key, version: nat) {
    exists h | h in headers :: h.key == key && h.version == version
  }

  function To(w: World, s: nat, p: Phase): World { w.(sessions := w.sessions[s := p]) }

  /** next_version: 1 + the highest committed version of the key. */
  function DoAllocate(w: World, s: nat, key: Key, rows: seq<Row>): World
  {
    if s in w.sessions then w
    else To(w, s, Allocated(key, MaxVersion(w.tables.headers, key) + 1, rows))
  }

  /** add(header); flush() */
  function DoInsert(w: World, s: nat, id: nat): World
  {
    if s !in w.sessions || !w.sessions[s].Allocated? then w
    else
      var Allocated(key, version, rows) := w.sessions[s];
      if IdInUse(w, id) || SlotLocked(w, key, version) then w
      else if SlotTaken(w.tables.headers, key, version) || !HeaderAllowed(key, rows) then To(w, s, Failed)
      else To(w, s, Inserting(Header(id, key, version, |rows|), rows, 0))
  }

  /** One turn of the row loop: an unresolved code rolls the transaction back. */
  function DoAddLine(w: World, s: nat): World
  {
    if s !in w.sessions || !w.sessions[s].Inserting? then w
    else
      var Inserting(header, rows, added) := w.sessions[s];
      if added >= |rows| then w
      else if rows[added].account.None? then To(w, s, Failed)
      else To(w, s, Inserting(header, rows, added + 1))
  }

  predicate AllResolved(rows: seq<Row>) { forall r | r in rows :: r.account.Some? }

  /** commit() of header and lines: refused when the lines break a constraint. */
  function DoCommitUpload(w: World, s: nat): World
  {
    if s !in w.sessions || !w.sessions[s].Inserting? then w
    else
      var Inserting(header, rows, added) := w.sessions[s];
      if added < |rows| || !AllResolved(rows) then w
      else if !LinesAllowed(header.key, rows) then To(w, s, Failed)
      else World(WithUpload(w.tables, header, rows), w.sessions[s := Persisted(header)])
  }

  function WithUpload(t: Tables, header: Header, rows: seq<Row>): Tables
    requires AllResolved(rows)
  {
    t.(headers := t.headers + [header], lines := t.lines + LinesOf(header.id, rows))
  }

  function DoWriteAudit(w: World, s: nat): World
  {
    if s in w.sessions && w.sessions[s].Persisted? then To(w, s, Auditing(w.sessions[s].header)) else w
  }

  function DoCommitAudit(w: World, s: nat): World
  {
    if s in w.sessions && w.sessions[s].Auditing? then
      var h := w.sessions[s].header;
      World(WithAudit(w.tables, h), w.sessions[s := Finished(h)])
    else w
  }

  function WithAudit(t: Tables, h: Header): Tables
  {
    t.(audits := t.audits + [AuditRow(h.id, h.key, h.version, h.rowCount)])
  }

  /** A fault or crash loses whatever the session had not committed. */
  function DoFault(w: World, s: nat): World
  {
    if s in w.sessions then To(w, s, Failed) else w
  }

  /** One step of one session; a step that is not enabled leaves the world as it is. */
  function Apply(w: World, step: Step): World
  {
    match step
    case Allocate(s, key, rows) => DoAllocate(w, s, key, rows)
    case Insert(s, id) => DoInsert(w, s, id)
    case AddLine(s) => DoAddLine(w, s)
    case CommitUpload(s) => DoCommitUpload(w, s)
    case WriteAudit(s) => DoWriteAudit(w, s)
    case CommitAudit(s) => DoCommitAudit(w, s)
    case Fault(s) => DoFault(w, s)
  }

  function Run(w: World, steps: seq<Step>): World
  {
    if steps == [] then w else Apply(Run(w, steps[..|steps| - 1]), steps[|steps| - 1])
  }

  const EMPTY: World := World(Tables([], [], []), map[])

  // ------------------------------------------------------------------ the invariant

  function CountKey(headers: seq<Header>, key: Key): nat
  {
    if headers == [] then 0
    else CountKey(headers[..|headers| - 1], key) + (if headers[|headers| - 1].key == key then 1 else 0)
  }

  function CountLines(lines: seq<Line>, id: nat): nat
  {
    if lines == [] then 0
    else CountLines(lines[..|lines| - 1], id) + (if lines[|lines| - 1].upload == id then 1 else 0)
  }

  /** Each header's version is one more than the number of earlier headers of its key. */
  ghost predicate GapFree(headers: seq<Header>) {
    forall i | 0 <= i < |headers| :: headers[i].version == CountKey(headers[..i], headers[i].key) + 1
  }

  ghost predicate HeadersComplete(t: Tables) {
    && (forall i, j | 0 <= i < j < |t.headers| :: t.headers[i].id != t.headers[j].id)
    && (forall h | h in t.headers :: CountLines(t.lines, h.id) == h.rowCount)
    && (forall l | l in t.lines :: exists h | h in t.headers :: h.id == l.upload)
  }

  ghost predicate AuditsNameUploads(t: Tables) {
    forall a | a in t.audits :: Header(a.upload, a.key, a.version, a.rowCount) in t.headers
  }

  ghost predicate PhaseOk(t: Tables, p: Phase) {
    match p
    case Allocated(key, version, _) => 1 <= version <= CountKey(t.headers, key) + 1
    case Inserting(h, rows, added) =>
      && h.version == CountKey(t.headers, h.key) + 1
      && h.rowCount == |rows| && added <= |rows|
      && forall x | x in t.headers :: x.id != h.id
    case Persisted(h) => h in t.headers
    case Auditing(h) => h in t.headers
    case Finished(h) => h in t.headers
    case Failed => true
  }

  ghost predicate InsertsApart(sessions: map<nat, Phase>) {
    forall s, r | s in sessions && r in sessions && s != r && sessions[s].Inserting? && sessions[r].Inserting? ::
      sessions[s].header.key != sessions[r].header.key && sessions[s].header.id != sessions[r].header.id
  }

  ghost predicate TablesInv(t: Tables) {
    GapFree(t.headers) && HeadersComplete(t) && AuditsNameUploads(t)
  }

  ghost predicate Inv(w: World) {
    && TablesInv(w.tables)
    && (forall s | s in w.sessions :: PhaseOk(w.tables, w.sessions[s]))
    && InsertsApart(w.sessions)
  }

  lemma {:induction false} MaxIsCount(headers: seq<Header>, key: Key)
    requires GapFree(headers)
    ensures MaxVersion(headers, key) == CountKey(headers, key)
  {
    if headers != [] {
      var front := headers[..|headers| - 1];
      assert forall i | 0 <= i < |front| :: front[..i] == headers[..i];
      MaxIsCount(front, key);
    }
  }

  /** Every version up to the count is committed. */
  lemma {:induction false} SlotsFilled(headers: seq<Header>, key: Key, version: nat)
    requires GapFree(headers) && 1 <= version <= CountKey(headers, key)
    ensures SlotTaken(headers, key, version)
  {
    var front, last := headers[..|headers| - 1], headers[|headers| - 1];
    assert forall i | 0 <= i < |front| :: front[..i] == headers[..i];
    if version <= CountKey(front, key) {
      SlotsFilled(front, key, version);
      var h :| h in front && h.key == key && h.version == version;
      assert h in headers;
    } else {
      assert last in headers;
    }
  }

  lemma {:induction false} CountLinesAppend(a: seq<Line>, b: seq<Line>, id: nat)
    ensures CountLines(a + b, id) == CountLines(a, id) + CountLines(b, id)
  {
    if b == [] {
      assert a + b == a;
    } else {
      assert (a + b)[..|a + b| - 1] == a + b[..|b| - 1];
      CountLinesAppend(a, b[..|b| - 1], id);
    }
  }

  lemma {:induction false} LinesOfCount(id: nat, rows: seq<Row>, other: nat)
    requires AllResolved(rows)
    ensures CountLines(LinesOf(id, rows), other) == if other == id then |rows| else 0
    ensures forall l | l in LinesOf(id, rows) :: l.upload == id
  {
    if rows != [] {
      LinesOfCount(id, rows[..|rows| - 1], other);
      var lines := LinesOf(id, rows);
      assert lines[..|lines| - 1] == LinesOf(id, rows[..|rows| - 1]);
    }
  }

  lemma {:induction false} NoLinesYet(lines: seq<Line>, id: nat)
    requires forall l | l in lines :: l.upload != id
    ensures CountLines(lines, id) == 0
  {
    if lines != [] {
      NoLinesYet(lines[..|lines| - 1], id);
    }
  }

  lemma CommitKeepsGapFree(headers: seq<Header>, header: Header)
    requires GapFree(headers)
    requires header.version == CountKey(headers, header.key) + 1
    ensures GapFree(headers + [header])
  {
    var longer := headers + [header];
    forall i | 0 <= i < |longer|
      ensures longer[i].version == CountKey(longer[..i], longer[i].key) + 1
    {
      if i < |headers| {
        assert longer[..i] == headers[..i];
      } else {
        assert longer[..i] == headers;
      }
    }
  }

  lemma CommitKeepsComplete(t: Tables, header: Header, rows: seq<Row>)
    requires HeadersComplete(t) && AllResolved(rows)
    requires header.rowCount == |rows|
    requires forall x | x in t.headers :: x.id != header.id
    ensures HeadersComplete(WithUpload(t, header, rows))
  {
    var t' := WithUpload(t, header, rows);
    var added := LinesOf(header.id, rows);
    forall h | h in t'.headers
      ensures CountLines(t'.lines, h.id) == h.rowCount
    {
      CountLinesAppend(t.lines, added, h.id);
      LinesOfCount(header.id, rows, h.id);
      if h == header {
        NoLinesYet(t.lines, header.id);
      }
    }
    LinesOfCount(header.id, rows, 0);
    assert header in t'.headers;
    assert forall h | h in t.headers :: h in t'.headers;
  }

  lemma CommitKeepsTables(t: Tables, header: Header, rows: seq<Row>)
    requires TablesInv(t) && AllResolved(rows)
    requires header.version == CountKey(t.headers, header.key) + 1
    requires header.rowCount == |rows|
    requires forall x | x in t.headers :: x.id != header.id
    ensures TablesInv(WithUpload(t, header, rows))
  {
    CommitKeepsGapFree(t.headers, header);
    CommitKeepsComplete(t, header, rows);
    assert forall h | h in t.headers :: h in WithUpload(t, header, rows).headers;
  }

  lemma CountAfter(headers: seq<Header>, h: Header, key: Key)
    ensures CountKey(headers + [h], key) == CountKey(headers, key) + (if h.key == key then 1 else 0)
  {
    assert (headers + [h])[..|headers + [h]| - 1] == headers;
  }

  /** Moving one session to a sound phase keeps the invariant, as long as inserts stay apart. */
  lemma MoveKeepsInv(w: World, s: nat, p: Phase)
    requires Inv(w) && PhaseOk(w.tables, p)
    requires p.Inserting? ==> forall r | r in w.sessions && r != s && w.sessions[r].Inserting? ::
      w.sessions[r].header.key != p.header.key && w.sessions[r].header.id != p.header.id
    ensures Inv(To(w, s, p))
  {
  }

  lemma CommitUploadKeepsInv(w: World, s: nat)
    requires Inv(w)
    ensures Inv(DoCommitUpload(w, s))
  {
    if s in w.sessions && w.sessions[s].Inserting? {
      var Inserting(header, rows, added) := w.sessions[s];
      assert PhaseOk(w.tables, w.sessions[s]);
      if added == |rows| && AllResolved(rows) {
        if !LinesAllowed(header.key, rows) {
          MoveKeepsInv(w, s, Failed);
        } else {
          CommittedUploadKeepsInv(w, s);
        }
      }
    }
  }

  lemma FewerInsertsApart(sessions: map<nat, Phase>, s: nat, p: Phase)
    requires InsertsApart(sessions) && !p.Inserting?
    ensures InsertsApart(sessions[s := p])
  {
  }

  lemma CommittedUploadKeepsInv(w: World, s: nat)
    requires Inv(w) && s in w.sessions && w.sessions[s].Inserting? && AllResolved(w.sessions[s].rows)
    ensures Inv(World(WithUpload(w.tables, w.sessions[s].header, w.sessions[s].rows),
                      w.sessions[s := Persisted(w.sessions[s].header)]))
  {
    var header, rows := w.sessions[s].header, w.sessions[s].rows;
    assert PhaseOk(w.tables, w.sessions[s]);
    CommitKeepsTables(w.tables, header, rows);
    FewerInsertsApart(w.sessions, s, Persisted(header));
    PhasesAfterCommit(w, s);
  }

  lemma PhasesAfterCommit(w: World, s: nat)
    requires Inv(w) && s in w.sessions && w.sessions[s].Inserting? && AllResolved(w.sessions[s].rows)
    ensures var sessions := w.sessions[s := Persisted(w.sessions[s].header)];
            forall r | r in sessions ::
                PhaseOk(WithUpload(w.tables, w.sessions[s].header, w.sessions[s].rows), sessions[r])
  {
    var header := w.sessions[s].header;
    OthersStayOk(w, s);
    var t := WithUpload(w.tables, header, w.sessions[s].rows);
    assert PhaseOk(t, Persisted(header)) by {
      assert t.headers[|t.headers| - 1] == header;
    }
  }

  /** A commit advances the count of its key only: open inserts are of other keys, and an earlier
      allocation of the same key stays at or below the next free version. */
  lemma OthersStayOk(w: World, s: nat)
    requires Inv(w) && s in w.sessions && w.sessions[s].Inserting? && AllResolved(w.sessions[s].rows)
    ensures forall r | r in w.sessions && r != s ::
      PhaseOk(WithUpload(w.tables, w.sessions[s].header, w.sessions[s].rows), w.sessions[r])
  {
    var header := w.sessions[s].header;
    forall r | r in w.sessions && r != s
      ensures PhaseOk(WithUpload(w.tables, header, w.sessions[s].rows), w.sessions[r])
    {
      assert PhaseOk(w.tables, w.sessions[r]);
      match w.sessions[r]
      case Allocated(key, _, _) => CountAfter(w.tables.headers, header, key);
      case Inserting(h, _, _) => CountAfter(w.tables.headers, header, h.key);
      case _ =>
    }
  }

  lemma InsertKeepsInv(w: World, s: nat, id: nat)
    requires Inv(w)
    ensures Inv(DoInsert(w, s, id))
  {
    if s in w.sessions && w.sessions[s].Allocated? {
      var Allocated(key, version, rows) := w.sessions[s];
      assert PhaseOk(w.tables, w.sessions[s]);
      if !IdInUse(w, id) && !SlotLocked(w, key, version) {
        if SlotTaken(w.tables.headers, key, version) || !HeaderAllowed(key, rows) {
          MoveKeepsInv(w, s, Failed);
        } else {
          if version <= CountKey(w.tables.headers, key) {
            SlotsFilled(w.tables.headers, key, version);
          }
          FreeSlotIsNext(w, s, id);
          MoveKeepsInv(w, s, Inserting(Header(id, key, version, |rows|), rows, 0));
        }
      }
    }
  }

  /** An open insert of the same key would hold this very version, so an unlocked slot has no rival. */
  lemma FreeSlotIsNext(w: World, s: nat, id: nat)
    requires Inv(w) && s in w.sessions && w.sessions[s].Allocated?
    requires !IdInUse(w, id) && !SlotLocked(w, w.sessions[s].key, w.sessions[s].version)
    requires w.sessions[s].version == CountKey(w.tables.headers, w.sessions[s].key) + 1
    ensures forall r | r in w.sessions && w.sessions[r].Inserting? ::
      w.sessions[r].header.key != w.sessions[s].key && w.sessions[r].header.id != id
  {
    forall r | r in w.sessions && w.sessions[r].Inserting?
      ensures w.sessions[r].header.key != w.sessions[s].key && w.sessions[r].header.id != id
    {
      assert PhaseOk(w.tables, w.sessions[r]);
    }
  }

  lemma AddLineKeepsInv(w: World, s: nat)
    requires Inv(w)
    ensures Inv(DoAddLine(w, s))
  {
    if s in w.sessions && w.sessions[s].Inserting? {
      var Inserting(header, rows, added) := w.sessions[s];
      assert PhaseOk(w.tables, w.sessions[s]);
      if added < |rows| {
        MoveKeepsInv(w, s, if rows[added].account.None? then Failed else Inserting(header, rows, added + 1));
      }
    }
  }

  lemma AuditKeepsTables(t: Tables, h: Header)
    requires TablesInv(t) && h in t.headers
    ensures TablesInv(WithAudit(t, h))
  {
  }

  lemma CommitAuditKeepsInv(w: World, s: nat)
    requires Inv(w)
    ensures Inv(DoCommitAudit(w, s))
  {
    if s in w.sessions && w.sessions[s].Auditing? {
      var h := w.sessions[s].header;
      assert PhaseOk(w.tables, w.sessions[s]);
      MoveKeepsInv(w, s, Finished(h));
      AuditKeepsTables(w.tables, h);
      forall r | r in w.sessions
        ensures PhaseOk(WithAudit(w.tables, h), w.sessions[r])
      {
        assert PhaseOk(w.tables, w.sessions[r]);
      }
    }
  }

  /** Every step of every session keeps the invariant. */
  lemma ApplyKeepsInv(w: World, step: Step)
    requires Inv(w)
    ensures Inv(Apply(w, step))
  {
    match step
    case Allocate(s, key, rows) =>
      MaxIsCount(w.tables.headers, key);
      MoveKeepsInv(w, s, Allocated(key, MaxVersion(w.tables.headers, key) + 1, rows));
    case Insert(s, id) => InsertKeepsInv(w, s, id);
    case AddLine(s) => AddLineKeepsInv(w, s);
    case CommitUpload(s) => CommitUploadKeepsInv(w, s);
    case WriteAudit(s) =>
      if s in w.sessions && w.sessions[s].Persisted? {
        assert PhaseOk(w.tables, w.sessions[s]);
        MoveKeepsInv(w, s, Auditing(w.sessions[s].header));
      }
    case CommitAudit(s) => CommitAuditKeepsInv(w, s);
    case Fault(s) => MoveKeepsInv(w, s, Failed);
  }

  lemma {:induction false} ReachableInv(steps: seq<Step>)
    ensures Inv(Run(EMPTY, steps))
  {
    if steps != [] {
      ReachableInv(steps[..|steps| - 1]);
      ApplyKeepsInv(Run(EMPTY, steps[..|steps| - 1]), steps[|steps| - 1]);
    }
  }

  // ------------------------------------------------------------------ what holds in every run

  /** The committed versions of a key, in commit order. */
  function VersionsOf(headers: seq<Header>, key: Key): seq<nat>
  {
    if headers == [] then []
    else
      var rest, last := VersionsOf(headers[..|headers| - 1], key), headers[|headers| - 1];
      if last.key == key then rest + [last.version] else rest
  }

  lemma GapFreeFront(headers: seq<Header>)
    requires GapFree(headers) && headers != []
    ensures GapFree(headers[..|headers| - 1])
    ensures var last := headers[|headers| - 1]; last.version == CountKey(headers[..|headers| - 1], last.key) + 1
  {
    var front := headers[..|headers| - 1];
    assert forall i | 0 <= i < |front| :: front[..i] == headers[..i];
  }

  lemma {:induction false} GapFreeVersions(headers: seq<Header>, key: Key)
    requires GapFree(headers)
    ensures |VersionsOf(headers, key)| == CountKey(headers, key)
    ensures forall i | 0 <= i < |VersionsOf(headers, key)| :: VersionsOf(headers, key)[i] == i + 1
  {
    if headers != [] {
      GapFreeFront(headers);
      GapFreeVersions(headers[..|headers| - 1], key);
    }
  }

  /** Under every interleaving, with faults anywhere, the committed versions of each key are exactly
      1, 2, ..., n in commit order. */
  lemma CommittedVersionsAreOneToN(steps: seq<Step>, key: Key)
    ensures var versions := VersionsOf(Run(EMPTY, steps).tables.headers, key);
            forall i | 0 <= i < |versions| :: versions[i] == i + 1
  {
    ReachableInv(steps);
    GapFreeVersions(Run(EMPTY, steps).tables.headers, key);
  }

  /** At every point of every run each committed header has exactly row_count committed lines, and no
      committed line is without its header. */
  lemma CommittedHeadersAreComplete(steps: seq<Step>, h: Header)
    requires h in Run(EMPTY, steps).tables.headers
    ensures CountLines(Run(EMPTY, steps).tables.lines, h.id) == h.rowCount
    ensures forall l | l in Run(EMPTY, steps).tables.lines ::
              exists x | x in Run(EMPTY, steps).tables.headers :: x.id == l.upload
  {
    ReachableInv(steps);
  }

  /** Every committed audit row names a committed upload with that key, version and row count. */
  lemma AuditRowsNameCommittedUploads(steps: seq<Step>, a: AuditRow)
    requires a in Run(EMPTY, steps).tables.audits
    ensures Header(a.upload, a.key, a.version, a.rowCount) in Run(EMPTY, steps).tables.headers
  {
    ReachableInv(steps);
  }

  /** An insert is refused exactly when some other session has committed the key since the version was
      read; otherwise the allocated version is the next one. */
  lemma InsertRefusedIffOvertaken(steps: seq<Step>, s: nat)
    requires var w := Run(EMPTY, steps); s in w.sessions && w.sessions[s].Allocated?
    ensures var w := Run(EMPTY, steps);
            var Allocated(key, version, _) := w.sessions[s];
            && (SlotTaken(w.tables.headers, key, version) <==> version <= MaxVersion(w.tables.headers, key))
            && (!SlotTaken(w.tables.headers, key, version) <==> version == MaxVersion(w.tables.headers, key) + 1)
  {
    var w := Run(EMPTY, steps);
    ReachableInv(steps);
    assert PhaseOk(w.tables, w.sessions[s]);
    var Allocated(key, version, _) := w.sessions[s];
    MaxIsCount(w.tables.headers, key);
    if version <= CountKey(w.tables.headers, key) {
      SlotsFilled(w.tables.headers, key, version);
    }
    MaxIsBound(w.tables.headers, key);
  }

  lemma {:induction false} MaxIsBound(headers: seq<Header>, key: Key)
    ensures forall h | h in headers && h.key == key :: h.version <= MaxVersion(headers, key)
  {
    if headers != [] {
      MaxIsBound(headers[..|headers| - 1], key);
    }
  }

  /** Committed rows are append-only: whatever a run goes on to do, they stay where they are. */
  lemma {:induction false} CommittedRowsStay(w: World, steps: seq<Step>)
    ensures w.tables.headers <= Run(w, steps).tables.headers
    ensures w.tables.lines <= Run(w, steps).tables.lines
    ensures w.tables.audits <= Run(w, steps).tables.audits
  {
    if steps != [] {
      CommittedRowsStay(w, steps[..|steps| - 1]);
    }
  }

  /** The highest version of a key is the one committed last. */
  lemma LatestIsLastCommitted(steps: seq<Step>, i: nat)
    requires i < |Run(EMPTY, steps).tables.headers|
    ensures var headers := Run(EMPTY, steps).tables.headers;
            headers[i].version == MaxVersion(headers, headers[i].key)
            <==> forall j | i < j < |headers| :: headers[j].key != headers[i].key
  {
    ReachableInv(steps);
    var headers := Run(EMPTY, steps).tables.headers;
    var key := headers[i].key;
    MaxIsCount(headers, key);
    CountTail(headers, i, key);
  }

  lemma {:induction false} CountTail(headers: seq<Header>, i: nat, key: Key)
    requires i < |headers| && headers[i].key == key
    ensures CountKey(headers, key) >= CountKey(headers[..i], key) + 1
    ensures CountKey(headers, key) == CountKey(headers[..i], key) + 1
       <==> forall j | i < j < |headers| :: headers[j].key != key
  {
    var front := headers[..|headers| - 1];
    if i < |front| {
      assert front[..i] == headers[..i];
      CountTail(front, i, key);
      assert forall j | i < j < |front| :: front[j] == headers[j];
    } else {
      assert headers[..i] == front;
    }
  }

  /** What becomes of an insert: it waits while another open transaction holds the same key and version; it fails when
      that version is committed, or a budget has more than 5000 rows; and else the header is in the transaction. */
  lemma InsertOutcome(w: World, s: nat, id: nat)
    requires s in w.sessions && w.sessions[s].Allocated? && !IdInUse(w, id)
    ensures var (after, Allocated(key, version, rows)) := (Apply(w, Insert(s, id)), w.sessions[s]);
            && after.tables == w.tables && after.sessions.Keys == w.sessions.Keys
            && (forall r | r in w.sessions && r != s :: after.sessions[r] == w.sessions[r])
            && after.sessions[s] ==
                 if exists r | r in w.sessions :: w.sessions[r].Inserting? && w.sessions[r].header.key == key
                                                  && w.sessions[r].header.version == version
                 then w.sessions[s]
                 else if (exists h | h in w.tables.headers :: h.key == key && h.version == version)
                         || (key.PerUnit? && |rows| > 5000)
                 then Failed
                 else Inserting(Header(id, key, version, |rows|), rows, 0)
  {
  }

  /** What a fault loses: the session is failed, whatever it had not committed is gone, and in no continuation does it
      come back. */
  lemma {:induction false} FaultIsFinal(w: World, s: nat, steps: seq<Step>)
    requires s in w.sessions
    ensures Apply(w, Fault(s)).tables == w.tables
    ensures var after := Run(Apply(w, Fault(s)), steps); s in after.sessions && after.sessions[s] == Failed
  {
    if steps != [] {
      FaultIsFinal(w, s, steps[..|steps| - 1]);
    }
  }

  // ------------------------------------------------------------------ what the lines hold

  /** The line stores the row: its unit, the account its code resolves to, and its amount. */
  predicate HoldsRow(l: Line, id: nat, r: Row) {
    r.account.Some? && l.upload == id && l.unit == r.unit && l.account == r.account.value && l.amount == r.amount
  }

  predicate HoldRows(lines: seq<Line>, id: nat, rows: seq<Row>) {
    |lines| == |rows| && forall i | 0 <= i < |rows| :: HoldsRow(lines[i], id, rows[i])
  }

  lemma {:induction false} LinesHoldRows(id: nat, rows: seq<Row>)
    requires AllResolved(rows)
    ensures HoldRows(LinesOf(id, rows), id, rows)
  {
    if rows != [] {
      LinesHoldRows(id, rows[..|rows| - 1]);
      assert rows[|rows| - 1] in rows;
    }
  }

  /** What the database accepts as one upload: every account resolved; at most 5000 rows and no account twice in a
      unit's budget; no unit and account twice and no zero amount in an upload for the whole cycle. */
  predicate Admissible(key: Key, rows: seq<Row>) {
    && (forall i | 0 <= i < |rows| :: rows[i].account.Some?)
    && match key
       case PerUnit(_, _) => |rows| <= 5000 && forall i, j | 0 <= i < j < |rows| :: rows[i].account != rows[j].account
       case PerCycle(_) =>
         && (forall i | 0 <= i < |rows| :: rows[i].amount > 0)
         && forall i, j | 0 <= i < j < |rows| :: rows[i].account != rows[j].account || rows[i].unit != rows[j].unit
  }

  lemma AdmissibleIff(key: Key, rows: seq<Row>)
    ensures Admissible(key, rows) <==> AllResolved(rows) && HeaderAllowed(key, rows) && LinesAllowed(key, rows)
  {
    assert forall i | 0 <= i < |rows| :: rows[i] in rows;
  }

  function OfUpload(id: nat): Line -> bool { (l: Line) => l.upload == id }

  /** Some call of the run was made with this key and these rows. */
  ghost predicate Called(steps: seq<Step>, key: Key, rows: seq<Row>) { exists s :: Allocate(s, key, rows) in steps }

  /** The upload's lines are, in order, the rows of a call for its key, and the rows are admissible. */
  ghost predicate StoresCall(t: Tables, steps: seq<Step>, h: Header) {
    exists rows :: IsCallOf(t, steps, h, rows)
  }

  ghost predicate IsCallOf(t: Tables, steps: seq<Step>, h: Header, rows: seq<Row>) {
    Called(steps, h.key, rows) && Admissible(h.key, rows) && HoldRows(Filter(OfUpload(h.id), t.lines), h.id, rows)
  }

  ghost predicate PhaseFromCall(t: Tables, steps: seq<Step>, p: Phase) {
    match p
    case Allocated(key, _, rows) => Called(steps, key, rows)
    case Inserting(h, rows, _) => Called(steps, h.key, rows) && HeaderAllowed(h.key, rows)
    case Finished(h) => AuditRow(h.id, h.key, h.version, h.rowCount) in t.audits
    case _ => true
  }

  ghost predicate FromCalls(w: World, steps: seq<Step>) {
    && (forall h | h in w.tables.headers :: StoresCall(w.tables, steps, h))
    && forall s | s in w.sessions :: PhaseFromCall(w.tables, steps, w.sessions[s])
  }

  lemma CallsStay(t: Tables, front: seq<Step>, step: Step)
    ensures forall h | StoresCall(t, front, h) :: StoresCall(t, front + [step], h)
    ensures forall p | PhaseFromCall(t, front, p) :: PhaseFromCall(t, front + [step], p)
  {
    var steps := front + [step];
    forall key, rows | Called(front, key, rows)
      ensures Called(steps, key, rows)
    {
      var s :| Allocate(s, key, rows) in front;
      assert Allocate(s, key, rows) in steps;
    }
    forall h | StoresCall(t, front, h)
      ensures StoresCall(t, steps, h)
    {
      var rows :| IsCallOf(t, front, h, rows);
      assert IsCallOf(t, steps, h, rows);
    }
  }

  lemma CommitStoresCall(t: Tables, steps: seq<Step>, header: Header, rows: seq<Row>)
    requires HeadersComplete(t) && (forall h | h in t.headers :: h.id != header.id && StoresCall(t, steps, h))
    requires Called(steps, header.key, rows) && Admissible(header.key, rows) && AllResolved(rows)
    ensures forall h | h in WithUpload(t, header, rows).headers :: StoresCall(WithUpload(t, header, rows), steps, h)
  {
    var after, added := WithUpload(t, header, rows), LinesOf(header.id, rows);
    LinesHoldRows(header.id, rows);
    assert forall l | l in added :: l.upload == header.id;
    forall h | h in after.headers
      ensures StoresCall(after, steps, h)
    {
      FilterAppend(OfUpload(h.id), t.lines, added);
      if h == header {
        FilterNone(OfUpload(h.id), t.lines);
        FilterAll(OfUpload(h.id), added);
        assert [] + added == added;
        assert IsCallOf(after, steps, h, rows);
      } else {
        FilterNone(OfUpload(h.id), added);
        assert Filter(OfUpload(h.id), t.lines) + [] == Filter(OfUpload(h.id), t.lines);
        var before :| IsCallOf(t, steps, h, before);
        assert IsCallOf(after, steps, h, before);
      }
    }
  }

  lemma CommitKeepsFromCalls(w: World, steps: seq<Step>, s: nat)
    requires Inv(w) && FromCalls(w, steps)
    ensures FromCalls(DoCommitUpload(w, s), steps)
  {
    if s in w.sessions && w.sessions[s].Inserting? {
      var Inserting(header, rows, added) := w.sessions[s];
      assert PhaseOk(w.tables, w.sessions[s]) && PhaseFromCall(w.tables, steps, w.sessions[s]);
      if AllResolved(rows) && LinesAllowed(header.key, rows) {
        AdmissibleIff(header.key, rows);
        CommitStoresCall(w.tables, steps, header, rows);
      }
    }
  }

  /** Every other step leaves headers and lines alone, and passes on what its session was called with. */
  lemma OthersKeepFromCalls(w: World, steps: seq<Step>, step: Step)
    requires FromCalls(w, steps) && step in steps && !step.CommitUpload?
    ensures FromCalls(Apply(w, step), steps)
  {
    var after := Apply(w, step);
    forall h | h in after.tables.headers
      ensures StoresCall(after.tables, steps, h)
    {
      var rows :| IsCallOf(w.tables, steps, h, rows);
      assert IsCallOf(after.tables, steps, h, rows);
    }
    forall s | s in after.sessions
      ensures PhaseFromCall(after.tables, steps, after.sessions[s])
    {
      if s in w.sessions {
        assert PhaseFromCall(w.tables, steps, w.sessions[s]);
      }
    }
  }

  lemma {:induction false} ReachableFromCalls(steps: seq<Step>)
    ensures FromCalls(Run(EMPTY, steps), steps)
  {
    if steps != [] {
      var front, step := steps[..|steps| - 1], steps[|steps| - 1];
      assert steps == front + [step];
      ReachableFromCalls(front);
      ReachableInv(front);
      CallsStay(Run(EMPTY, front).tables, front, step);
      if step.CommitUpload? {
        CommitKeepsFromCalls(Run(EMPTY, front), steps, step.s);
      } else {
        OthersKeepFromCalls(Run(EMPTY, front), steps, step);
      }
    }
  }

  /** Every committed upload of every run holds, line by line and in order, the rows of a call made for its key,
      and those rows meet the constraints. */
  lemma CommittedUploadsHoldTheirRows(steps: seq<Step>, h: Header) returns (rows: seq<Row>)
    requires h in Run(EMPTY, steps).tables.headers
    ensures exists s :: Allocate(s, h.key, rows) in steps
    ensures Admissible(h.key, rows) && h.rowCount == |rows|
    ensures HoldRows(Filter(OfUpload(h.id), Run(EMPTY, steps).tables.lines), h.id, rows)
  {
    ReachableFromCalls(steps);
    ReachableInv(steps);
    var t := Run(EMPTY, steps).tables;
    rows :| IsCallOf(t, steps, h, rows);
    CountIsFilter(t.lines, h.id);
  }

  lemma {:induction false} CountIsFilter(lines: seq<Line>, id: nat)
    ensures CountLines(lines, id) == |Filter(OfUpload(id), lines)|
  {
    if lines != [] {
      var front, last := lines[..|lines| - 1], lines[|lines| - 1];
      assert lines == front + [last];
      CountIsFilter(front, id);
      FilterSnoc(OfUpload(id), front, last);
    }
  }

  /** A session that has finished has its audit row committed. */
  lemma FinishedAreAudited(steps: seq<Step>, s: nat)
    requires s in Run(EMPTY, steps).sessions && Run(EMPTY, steps).sessions[s].Finished?
    ensures var h := Run(EMPTY, steps).sessions[s].header;
            AuditRow(h.id, h.key, h.version, h.rowCount) in Run(EMPTY, steps).tables.audits
  {
    ReachableFromCalls(steps);
    assert PhaseFromCall(Run(EMPTY, steps).tables, steps, Run(EMPTY, steps).sessions[s]);
  }

  // ------------------------------------------------------------------ one session's call

  /** One keyword filter of next_version. */
  datatype Criterion = OnCycle(cycle: nat) | OnUnit(unit: nat)

  predicate Matches(h: Header, f: Criterion) {
    match f
    case OnCycle(c) => h.key.cycle == c
    case OnUnit(u) => h.key.PerUnit? && h.key.unit == u
  }

  predicate MatchesAll(h: Header, filters: seq<Criterion>) { forall f | f in filters :: Matches(h, f) }

  function MaxOf(headers: seq<Header>): nat
  {
    if headers == [] then 0
    else
      var m, v := MaxOf(headers[..|headers| - 1]), headers[|headers| - 1].version;
      if v > m then v else m
  }

  /** next_version narrows the statement filter by filter, then takes coalesce(max(version), 0) + 1: one
      above every matching row's version, and either 1 or one above some matching row's. */
  method NextVersion(headers: seq<Header>, filters: seq<Criterion>) returns (version: nat)
    ensures version >= 1
    ensures forall h | h in headers && MatchesAll(h, filters) :: h.version < version
    ensures version == 1 || exists h | h in headers && MatchesAll(h, filters) :: h.version == version - 1
  {
    var selected := headers;
    for i := 0 to |filters|
      invariant forall h :: h in selected <==> h in headers && MatchesAll(h, filters[..i])
    {
      var f := filters[i];
      selected := Filter((h: Header) => Matches(h, f), selected);
      assert filters[..i + 1] == filters[..i] + [f];
    }
    assert filters[..|filters|] == filters;
    MaxOfBound(selected);
    version := MaxOf(selected) + 1;
  }

  lemma {:induction false} MaxOfBound(headers: seq<Header>)
    ensures forall h | h in headers :: h.version <= MaxOf(headers)
    ensures MaxOf(headers) == 0 || exists h | h in headers :: h.version == MaxOf(headers)
  {
    if headers != [] {
      MaxOfBound(headers[..|headers| - 1]);
      assert headers[|headers| - 1] in headers;
    }
  }

  function KeyFilters(key: Key): seq<Criterion>
  {
    match key
    case PerUnit(c, u) => [OnCycle(c), OnUnit(u)]
    case PerCycle(c) => [OnCycle(c)]
  }

  /** Each kind of upload has its own table: all its keys have one shape. */
  predicate OneTable(headers: seq<Header>, key: Key) {
    forall h | h in headers :: h.key.PerUnit? == key.PerUnit?
  }

  lemma MatchesKey(h: Header, key: Key)
    requires h.key.PerUnit? == key.PerUnit?
    ensures MatchesAll(h, KeyFilters(key)) <==> h.key == key
  {
    var filters := KeyFilters(key);
    assert filters[0] in filters;
    assert key.PerUnit? ==> filters[1] in filters;
  }

  lemma NextIsMaxPlusOne(headers: seq<Header>, key: Key, version: nat)
    requires OneTable(headers, key) && version >= 1
    requires forall h | h in headers && MatchesAll(h, KeyFilters(key)) :: h.version < version
    requires version == 1 || exists h | h in headers && MatchesAll(h, KeyFilters(key)) :: h.version == version - 1
    ensures version == MaxVersion(headers, key) + 1
  {
    forall h | h in headers
      ensures MatchesAll(h, KeyFilters(key)) <==> h.key == key
    {
      MatchesKey(h, key);
    }
    MaxIsBound(headers, key);
    MaxIsAttained(headers, key);
  }

  lemma {:induction false} MaxIsAttained(headers: seq<Header>, key: Key)
    ensures MaxVersion(headers, key) == 0
         || exists h | h in headers :: h.key == key && h.version == MaxVersion(headers, key)
  {
    if headers != [] {
      MaxIsAttained(headers[..|headers| - 1], key);
      assert headers[|headers| - 1] in headers;
    }
  }

  /** The database operations of one upload that can raise. */
  datatype FaultPoint = AtNextVersion | AtFlush | AtCommit | AtAudit | AtAuditCommit

  datatype UploadError = UnknownAccount | DatabaseError

  predicate BeforeCommit(fault: Option<FaultPoint>) {
    fault.Some? && (fault.value.AtNextVersion? || fault.value.AtFlush? || fault.value.AtCommit?)
  }

  /** Whether the upload transaction of this call commits. */
  predicate Stores(key: Key, rows: seq<Row>, fault: Option<FaultPoint>) {
    AllResolved(rows) && HeaderAllowed(key, rows) && LinesAllowed(key, rows) && !BeforeCommit(fault)
  }

  function NextHeader(t: Tables, key: Key, rows: seq<Row>, id: nat): Header
  {
    Header(id, key, MaxVersion(t.headers, key) + 1, |rows|)
  }

  /** The tables gained the upload: a header with the next version of its key, and behind the lines there were,
      one line for every row, holding it. */
  ghost predicate GainsUpload(before: Tables, after: Tables, key: Key, rows: seq<Row>, id: nat) {
    && |after.headers| == |before.headers| + 1 && before.headers <= after.headers
    && (var h := after.headers[|before.headers|];
        && h.id == id && h.key == key && h.rowCount == |rows|
        && IsNextVersion(before.headers, key, h.version))
    && before.lines <= after.lines && HoldRows(after.lines[|before.lines|..], id, rows)
  }

  /** One more than every committed version of the key, and no more than that. */
  ghost predicate IsNextVersion(headers: seq<Header>, key: Key, version: nat) {
    && version >= 1
    && (forall h | h in headers && h.key == key :: h.version < version)
    && (version == 1 || exists h | h in headers :: h.key == key && h.version == version - 1)
  }

  /** The audit row of an upload. */
  predicate IsAuditOf(a: AuditRow, h: Header) {
    a.upload == h.id && a.key == h.key && a.version == h.version && a.rowCount == h.rowCount
  }

  lemma WithUploadGains(t: Tables, key: Key, rows: seq<Row>, id: nat)
    requires AllResolved(rows)
    ensures GainsUpload(t, WithUpload(t, NextHeader(t, key, rows, id), rows), key, rows, id)
  {
    LinesHoldRows(id, rows);
    MaxIsBound(t.headers, key);
    MaxIsAttained(t.headers, key);
    var after := WithUpload(t, NextHeader(t, key, rows, id), rows);
    assert after.lines[|t.lines|..] == LinesOf(id, rows);
  }

  class UploadService {
    /** The committed tables. */
    var tables: Tables
    /** What the open transaction has added. */
    var pendingHeader: Option<Header>
    var pendingLines: seq<Line>

    method Rollback()
      modifies this`pendingHeader, this`pendingLines
      ensures pendingHeader == None && pendingLines == []
    {
      pendingHeader, pendingLines := None, [];
    }

    method Commit()
      requires pendingHeader.Some?
      modifies this
      ensures tables == old(tables).(headers := old(tables.headers) + [old(pendingHeader).value],
                                     lines := old(tables.lines) + old(pendingLines))
      ensures pendingHeader == None && pendingLines == []
    {
      tables := tables.(headers := tables.headers + [pendingHeader.value], lines := tables.lines + pendingLines);
      Rollback();
    }

    /** Header and lines in one transaction: the tables gain exactly the header, with the next version of
        its key, and one line per row, or they are as before. */
    method PersistUploadAndLines(key: Key, rows: seq<Row>, id: nat, fault: Option<FaultPoint>)
      returns (result: Result<Header, UploadError>)
      requires OneTable(tables.headers, key)
      modifies this
      ensures result.Ok? <==> Stores(key, rows, fault)
      ensures result.Ok? <==> Admissible(key, rows) && !BeforeCommit(fault)
      ensures result.Ok? ==> GainsUpload(old(tables), tables, key, rows, id) && tables.audits == old(tables.audits)
      ensures result.Ok? ==> result.value == tables.headers[|old(tables.headers)|]
      ensures result.Err? ==> tables == old(tables)
      ensures result.Ok? ==> result.value == NextHeader(old(tables), key, rows, id)
      ensures tables == if Stores(key, rows, fault)
              then WithUpload(old(tables), NextHeader(old(tables), key, rows, id), rows)
                        else old(tables)
      ensures result == Err(UnknownAccount) <==>
                && fault != Some(AtNextVersion) && fault != Some(AtFlush) && (key.PerUnit? ==> |rows| <= 5000)
                && exists i | 0 <= i < |rows| :: rows[i].account.None?
      ensures pendingHeader == None && pendingLines == []
    {
      Rollback();
      AdmissibleIff(key, rows);
      if fault == Some(AtNextVersion) {
        return Err(DatabaseError);
      }
      var version := NextVersion(tables.headers, KeyFilters(key));
      NextIsMaxPlusOne(tables.headers, key, version);
      var upload := Header(id, key, version, |rows|);
      if fault == Some(AtFlush) || !HeaderAllowed(key, rows) {
        return Err(DatabaseError);
      }
      pendingHeader := Some(upload);

      for i := 0 to |rows|
        invariant tables == old(tables) && pendingHeader == Some(upload)
        invariant AllResolved(rows[..i]) && pendingLines == LinesOf(id, rows[..i])
      {
        if rows[i].account.None? {
          assert rows[i] in rows;
          Rollback();
          return Err(UnknownAccount);
        }
        assert rows[..i + 1] == rows[..i] + [rows[i]];
        assert rows[..i + 1][..i] == rows[..i];
        pendingLines := pendingLines + [Line(id, rows[i].unit, rows[i].account.value, rows[i].amount)];
      }
      assert rows[..|rows|] == rows;

      if fault == Some(AtCommit) || !LinesAllowed(key, rows) {
        Rollback();
        return Err(DatabaseError);
      }
      Commit();
      WithUploadGains(old(tables), key, rows, id);
      return Ok(upload);
    }

    /** Persist, then audit in a second transaction: the audit row exists only beside its upload, and an
        audit failure is reported although the upload stays. */
    method Upload(key: Key, rows: seq<Row>, id: nat, fault: Option<FaultPoint>)
      returns (result: Result<Header, UploadError>)
      requires OneTable(tables.headers, key)
      modifies this
      ensures result.Ok? <==> Stores(key, rows, fault) && fault.None?
      ensures Admissible(key, rows) && !BeforeCommit(fault) ==> GainsUpload(old(tables), tables, key, rows, id)
      ensures !(Admissible(key, rows) && !BeforeCommit(fault)) ==> tables == old(tables)
      ensures result.Ok? ==> result.value == tables.headers[|old(tables.headers)|]
      ensures if result.Ok? then |tables.audits| == |old(tables.audits)| + 1 && old(tables.audits) <= tables.audits
                                 && IsAuditOf(tables.audits[|old(tables.audits)|], result.value)
              else tables.audits == old(tables.audits)
      ensures result.Ok? ==> result.value == NextHeader(old(tables), key, rows, id)
      ensures var h := NextHeader(old(tables), key, rows, id);
              tables == if !Stores(key, rows, fault) then old(tables)
                        else if fault.Some? then WithUpload(old(tables), h, rows)
                        else WithAudit(WithUpload(old(tables), h, rows), h)
    {
      result := PersistUploadAndLines(key, rows, id, fault);
      if result.Err? {
        return;
      }
      if fault == Some(AtAudit) {
        return Err(DatabaseError);
      }
      if fault == Some(AtAuditCommit) {
        return Err(DatabaseError);
      }
      tables := WithAudit(tables, result.value);
    }
  }

  // ------------------------------------------------------------------ the call as a schedule

  /** The protocol steps of one call by session 0. */
  function CallSteps(key: Key, rows: seq<Row>, id: nat): seq<Step>
  {
    [Allocate(0, key, rows), Insert(0, id)] + AddLines(|rows|) + [CommitUpload(0), WriteAudit(0), CommitAudit(0)]
  }

  lemma RunTake(w: World, steps: seq<Step>, n: nat)
    requires n < |steps|
    ensures Run(w, steps[..n + 1]) == Apply(Run(w, steps[..n]), steps[n])
  {
    assert steps[..n + 1][..n] == steps[..n];
  }

  lemma {:induction false} RunConcat(w: World, a: seq<Step>, b: seq<Step>)
    ensures Run(w, a + b) == Run(Run(w, a), b)
  {
    if b == [] {
      assert a + b == a;
    } else {
      assert (a + b)[..|a + b| - 1] == a + b[..|b| - 1];
      RunConcat(w, a, b[..|b| - 1]);
    }
  }

  function AddLines(n: nat): seq<Step> { seq(n, _ => AddLine(0)) }

  lemma {:induction false} AddLinesRun(t: Tables, header: Header, rows: seq<Row>, n: nat)
    requires AllResolved(rows) && n <= |rows|
    ensures Run(World(t, map[0 := Inserting(header, rows, 0)]), AddLines(n))
            == World(t, map[0 := Inserting(header, rows, n)])
  {
    if n > 0 {
      AddLinesRun(t, header, rows, n - 1);
      assert AddLines(n)[..n - 1] == AddLines(n - 1) && AddLines(n)[n - 1] == AddLine(0);
      assert rows[n - 1] in rows;
    }
  }

  lemma CallInserts(t: Tables, key: Key, rows: seq<Row>, id: nat)
    requires HeaderAllowed(key, rows) && forall h | h in t.headers :: h.id != id
    ensures Run(World(t, map[]), [Allocate(0, key, rows), Insert(0, id)])
         == World(t, map[0 := Inserting(NextHeader(t, key, rows, id), rows, 0)])
  {
    var w, steps := World(t, map[]), [Allocate(0, key, rows), Insert(0, id)];
    assert steps[..0] == [];
    RunTake(w, steps, 0);
    RunTake(w, steps, 1);
    assert steps[..2] == steps;
    MaxIsBound(t.headers, key);
  }

  lemma CallBeforeCommit(t: Tables, key: Key, rows: seq<Row>, id: nat, n: nat)
    requires AllResolved(rows) && HeaderAllowed(key, rows) && n <= |rows| && forall h | h in t.headers :: h.id != id
    ensures Run(World(t, map[]), CallSteps(key, rows, id)[..n + 2])
         == World(t, map[0 := Inserting(NextHeader(t, key, rows, id), rows, n)])
  {
    var first := [Allocate(0, key, rows), Insert(0, id)];
    assert CallSteps(key, rows, id)[..n + 2] == first + AddLines(n);
    CallInserts(t, key, rows, id);
    RunConcat(World(t, map[]), first, AddLines(n));
    AddLinesRun(t, NextHeader(t, key, rows, id), rows, n);
  }

  /** What Upload leaves behind is what the protocol leaves behind when the call stops at that point: before
      its commit, between commit and audit commit, or at the end. The interleaving results cover it. */
  lemma CallIsASchedule(t: Tables, key: Key, rows: seq<Row>, id: nat)
    requires AllResolved(rows) && HeaderAllowed(key, rows) && LinesAllowed(key, rows)
             && forall h | h in t.headers :: h.id != id
    ensures forall n | 2 <= n <= |rows| + 2 :: Run(World(t, map[]), CallSteps(key, rows, id)[..n]).tables == t
    ensures var (w, steps, h) := (World(t, map[]), CallSteps(key, rows, id), NextHeader(t, key, rows, id));
            && Run(w, steps[..|rows| + 3]).tables == WithUpload(t, h, rows)
            && Run(w, steps[..|rows| + 4]).tables == WithUpload(t, h, rows)
            && Run(w, steps).tables == WithAudit(WithUpload(t, h, rows), h)
  {
    forall n | 2 <= n <= |rows| + 2
      ensures Run(World(t, map[]), CallSteps(key, rows, id)[..n]).tables == t
    {
      CallBeforeCommit(t, key, rows, id, n - 2);
    }
    CallFromCommit(t, key, rows, id);
  }

  lemma CallFromCommit(t: Tables, key: Key, rows: seq<Row>, id: nat)
    requires AllResolved(rows) && HeaderAllowed(key, rows) && LinesAllowed(key, rows)
             && forall h | h in t.headers :: h.id != id
    ensures var (w, steps, h) := (World(t, map[]), CallSteps(key, rows, id), NextHeader(t, key, rows, id));
            && Run(w, steps[..|rows| + 3]).tables == WithUpload(t, h, rows)
            && Run(w, steps[..|rows| + 4]).tables == WithUpload(t, h, rows)
            && Run(w, steps).tables == WithAudit(WithUpload(t, h, rows), h)
  {
    var w, steps, h, n := World(t, map[]), CallSteps(key, rows, id), NextHeader(t, key, rows, id), |rows| + 2;
    var t' := WithUpload(t, h, rows);
    CallBeforeCommit(t, key, rows, id, |rows|);
    RunTake(w, steps, n);
    assert steps[n] == CommitUpload(0);
    CommitStep(t, h, rows);
    AfterCommit(w, steps, n + 1, t', h);
  }

  lemma CommitStep(t: Tables, h: Header, rows: seq<Row>)
    requires AllResolved(rows) && LinesAllowed(h.key, rows)
    ensures Apply(World(t, map[0 := Inserting(h, rows, |rows|)]), CommitUpload(0))
         == World(WithUpload(t, h, rows), map[0 := Persisted(h)])
  {
    assert map[0 := Inserting(h, rows, |rows|)][0 := Persisted(h)] == map[0 := Persisted(h)];
  }

  /** The two steps after the commit. */
  lemma AfterCommit(w: World, steps: seq<Step>, n: nat, t: Tables, h: Header)
    requires n + 2 == |steps| && steps[n] == WriteAudit(0) && steps[n + 1] == CommitAudit(0)
    requires Run(w, steps[..n]) == World(t, map[0 := Persisted(h)])
    ensures Run(w, steps[..n + 1]).tables == t
    ensures Run(w, steps).tables == WithAudit(t, h)
  {
    RunTake(w, steps, n);
    assert Run(w, steps[..n + 1]) == World(t, map[0 := Auditing(h)]);
    RunTake(w, steps, n + 1);
    assert steps[..n + 2] == steps;
  }

  /** The steps of a call, in any order and number. */
  predicate OwnStep(step: Step, key: Key, rows: seq<Row>, id: nat) {
    || step == Allocate(0, key, rows) || step == Insert(0, id) || step == AddLine(0)
    || step == CommitUpload(0) || step == WriteAudit(0) || step == CommitAudit(0)
  }

  /** The session is somewhere before its commit, and nothing is stored. */
  predicate NothingStored(w: World, t: Tables, key: Key, rows: seq<Row>) {
    && w.tables == t && w.sessions.Keys <= {0}
    && (0 in w.sessions ==>
          match w.sessions[0]
          case Allocated(k, _, r) => k == key && r == rows
          case Inserting(h, r, _) => h.key == key && r == rows && HeaderAllowed(key, rows)
          case Failed => true
          case _ => false)
  }

  lemma {:induction false} RefusedStoresNothing(t: Tables, key: Key, rows: seq<Row>, id: nat, steps: seq<Step>)
    requires !Stores(key, rows, None)
    requires forall i | 0 <= i < |steps| :: OwnStep(steps[i], key, rows, id)
    ensures NothingStored(Run(World(t, map[]), steps), t, key, rows)
  {
    if steps != [] {
      RefusedStoresNothing(t, key, rows, id, steps[..|steps| - 1]);
    }
  }

  lemma CallStepsAreOwn(key: Key, rows: seq<Row>, id: nat)
    ensures forall i | 0 <= i < |CallSteps(key, rows, id)| :: OwnStep(CallSteps(key, rows, id)[i], key, rows, id)
  {
    assert forall i | 0 <= i < |rows| :: AddLines(|rows|)[i] == AddLine(0);
  }

  /** A call whose rows do not resolve or break a constraint is a run of the protocol too, one that stores
      nothing however far it gets. */
  lemma RefusedCallIsASchedule(t: Tables, key: Key, rows: seq<Row>, id: nat, n: nat)
    requires !Stores(key, rows, None) && n <= |CallSteps(key, rows, id)|
    ensures Run(World(t, map[]), CallSteps(key, rows, id)[..n]).tables == t
  {
    CallStepsAreOwn(key, rows, id);
    RefusedStoresNothing(t, key, rows, id, CallSteps(key, rows, id)[..n]);
  }
}
