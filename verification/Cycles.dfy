/**
 The budget-cycle life cycle: Draft, Open, Closed, and reopening.

 Every operation loads the row, decides on what it loaded, and commits the columns it sets. Requests run in
 their own sessions, so the row may have moved on between the load and the commit; the partial UNIQUE index
 on the fiscal year of draft and open rows is checked at the commit.
*/
module Cycles {
  import opened Common

  datatype CycleState = Draft | Open | Closed

  const ALLOWED: set<(CycleState, CycleState)> := {(Draft, Open), (Open, Closed), (Closed, Open)}

  predicate CanTransition(from: CycleState, to: CycleState) { (from, to) in ALLOWED }

  /** Instants are seconds. */
  datatype Cycle = Cycle(year: int, status: CycleState, openedAt: Option<int>, closedAt: Option<int>,
                         closedBy: Option<nat>,
                         reopenedAt: Option<int>, reopenReason: Option<string>)

  type Table = map<nat, Cycle>

  datatype Error =
    | NotFound | DuplicateYear                        // CYCLE_001
    | MissingManager(units: seq<FilingUnit>)          // CYCLE_002
    | IllegalTransition                               // CYCLE_003
    | NotOpen                                         // CYCLE_004
    | WindowElapsed                                   // CYCLE_005
    | RoleDenied                                      // RBAC_001
    | BadCurrency
    | DatabaseError

  datatype FilingUnit = FilingUnit(id: nat, code: string, hasManager: bool, excluded: bool)

  const SECONDS_PER_DAY := 86400

  /** timedelta.days: whole days, rounded towards the past. */
  function ElapsedDays(from: int, to: int): int { (to - from) / SECONDS_PER_DAY }

  // ------------------------------------------------------------------ what each operation decides and writes

  /** `checkedAt` is the clock read that decides the reopen window; `now` is the one written to the row. */
  datatype Op =
    | OpenOp(units: seq<FilingUnit>, now: int)
    | CloseOp(user: nat, now: int)
    | ReopenOp(reason: string, checkedAt: int, now: int)

  predicate Unmanaged(u: FilingUnit) { !u.hasManager && !u.excluded }

  function MissingManagers(units: seq<FilingUnit>): seq<FilingUnit>
  {
    Filter(u => Unmanaged(u), units)
  }

  /** The operation's verdict on the row it loaded; None lets it proceed. */
  function Refusal(c: Cycle, op: Op, window: int): Option<Error>
  {
    match op
    case OpenOp(units, _) =>
      if !CanTransition(c.status, Open) then Some(IllegalTransition)
      else if MissingManagers(units) != [] then Some(MissingManager(MissingManagers(units)))
      else None
    case CloseOp(_, _) =>
      if !CanTransition(c.status, Closed) then Some(IllegalTransition) else None
    case ReopenOp(_, checkedAt, _) =>
      if c.status != Closed && !CanTransition(c.status, Open) then Some(IllegalTransition)
      else if c.closedAt.None? || ElapsedDays(c.closedAt.value, checkedAt) > window then Some(WindowElapsed)
      else None
  }

  /** The row with the columns the operation sets. */
  function Sets(c: Cycle, op: Op): Cycle
  {
    match op
    case OpenOp(_, now) => c.(status := Open, openedAt := Some(now))
    case CloseOp(user, now) => c.(status := Closed, closedAt := Some(now), closedBy := Some(user))
    case ReopenOp(reason, _, now) => c.(status := Open, reopenReason := Some(reason), reopenedAt := Some(now))
  }

  /** An assignment of the value already loaded is no change, and is not sent. */
  function Merge<T(==)>(loaded: T, current: T, held: T): T { if held == loaded then current else held }

  /** The row after the commit of a session that loaded `loaded` and finds c: the UPDATE names the columns that
      changed in the session, and all others keep what the row has at commit time. */
  function Written(loaded: Cycle, c: Cycle, op: Op): Cycle
  {
    var held := Sets(loaded, op);
    Cycle(c.year, Merge(loaded.status, c.status, held.status), Merge(loaded.openedAt, c.openedAt, held.openedAt),
          Merge(loaded.closedAt, c.closedAt, held.closedAt), Merge(loaded.closedBy, c.closedBy, held.closedBy),
          Merge(loaded.reopenedAt, c.reopenedAt, held.reopenedAt),
          Merge(loaded.reopenReason, c.reopenReason, held.reopenReason))
  }

  function NewCycle(year: int): Cycle { Cycle(year, Draft, None, None, None, None, None) }

  /** UNIQUE (fiscal_year) WHERE status IN ('draft', 'open'), for storing c under id. */
  predicate YearFree(table: Table, id: nat, c: Cycle) {
    c.status == Closed
        || forall other | other in table && other != id :: table[other].year == c.year ==> table[other].status == Closed
  }

  // ------------------------------------------------------------------ the protocol

  datatype Session = Creating(year: int) | Loaded(id: nat, snapshot: Cycle)

  datatype World = World(table: Table, sessions: map<nat, Session>)

  datatype Step =
    | CheckYear(s: nat, year: int)
    | Insert(s: nat, id: nat)
    | Load(s: nat, id: nat)
    | Write(s: nat, op: Op)
    | Drop(s: nat)

  predicate ActiveYear(table: Table, year: int) {
    exists id | id in table :: table[id].year == year && table[id].status != Closed
  }

  predicate Commits(w: World, step: Step, window: int) {
    match step
    case Insert(s, id) =>
      && s in w.sessions && w.sessions[s].Creating? && id !in w.table
      && YearFree(w.table, id, NewCycle(w.sessions[s].year))
    case Write(s, op) =>
      && s in w.sessions && w.sessions[s].Loaded? && w.sessions[s].id in w.table
      && Refusal(w.sessions[s].snapshot, op, window).None?
      && YearFree(w.table, w.sessions[s].id, Written(w.sessions[s].snapshot, w.table[w.sessions[s].id], op))
    case _ => false
  }

  /** One step of one session. A write or insert that cannot commit ends its session without effect. */
  function Apply(w: World, step: Step, window: int): World
  {
    match step
    case CheckYear(s, year) =>
      if s in w.sessions || ActiveYear(w.table, year) then w else w.(sessions := w.sessions[s := Creating(year)])
    case Load(s, id) =>
      if s in w.sessions || id !in w.table then w else w.(sessions := w.sessions[s := Loaded(id, w.table[id])])
    case Insert(s, id) =>
      World(if Commits(w, step, window) then w.table[id := NewCycle(w.sessions[s].year)] else w.table, w.sessions - {s})
    case Write(s, op) =>
      World(if Commits(w, step, window)
            then w.table[w.sessions[s].id := Written(w.sessions[s].snapshot, w.table[w.sessions[s].id], op)]
            else w.table,
            w.sessions - {s})
    case Drop(s) => w.(sessions := w.sessions - {s})
  }

  function Run(w: World, steps: seq<Step>, window: int): World
  {
    if steps == [] then w else Apply(Run(w, steps[..|steps| - 1], window), steps[|steps| - 1], window)
  }

  const EMPTY: World := World(map[], map[])

  // ------------------------------------------------------------------ the invariant

  predicate RowOk(c: Cycle) {
    match c.status
    case Draft => c.openedAt.None? && c.closedAt.None?
    case Open => c.openedAt.Some?
    case Closed => c.openedAt.Some? && c.closedAt.Some?
  }

  predicate OneActivePerYear(table: Table) {
    forall a, b | a in table && b in table && a != b && table[a].year == table[b].year ::
      table[a].status == Closed || table[b].status == Closed
  }

  predicate TableOk(table: Table) {
    (forall id | id in table :: RowOk(table[id])) && OneActivePerYear(table)
  }

  /** What a session loaded was a good row, a row that had left Draft has not come back to it, and opening and
      closing times are not lost. */
  predicate SessionOk(table: Table, session: Session) {
    session.Loaded? ==>
      && session.id in table && RowOk(session.snapshot)
      && (session.snapshot.status != Draft ==> table[session.id].status != Draft)
      && (session.snapshot.openedAt.Some? ==> table[session.id].openedAt.Some?)
      && (session.snapshot.closedAt.Some? ==> table[session.id].closedAt.Some?)
  }

  predicate Inv(w: World) {
    TableOk(w.table) && forall s | s in w.sessions :: SessionOk(w.table, w.sessions[s])
  }

  lemma StoreKeepsTableOk(table: Table, id: nat, c: Cycle)
    requires TableOk(table) && RowOk(c) && YearFree(table, id, c)
    ensures TableOk(table[id := c])
  {
    var after := table[id := c];
    forall a, b | a in after && b in after && a != b && after[a].year == after[b].year
      ensures after[a].status == Closed || after[b].status == Closed
    {
      assert a != id && b != id ==> table[a].status == Closed || table[b].status == Closed;
    }
  }

  lemma ApplyKeepsInv(w: World, step: Step, window: int)
    requires Inv(w)
    ensures Inv(Apply(w, step, window))
  {
    if Commits(w, step, window) {
      if step.Insert? {
        StoreKeepsTableOk(w.table, step.id, NewCycle(w.sessions[step.s].year));
      } else {
        var id := w.sessions[step.s].id;
        assert SessionOk(w.table, w.sessions[step.s]);
        assert RowOk(w.table[id]);
        StoreKeepsTableOk(w.table, id, Written(w.sessions[step.s].snapshot, w.table[id], step.op));
      }
    }
  }

  lemma {:induction false} ReachableInv(steps: seq<Step>, window: int)
    ensures Inv(Run(EMPTY, steps, window))
  {
    if steps != [] {
      ReachableInv(steps[..|steps| - 1], window);
      ApplyKeepsInv(Run(EMPTY, steps[..|steps| - 1], window), steps[|steps| - 1], window);
    }
  }

  // ------------------------------------------------------------------ what holds in every run

  /** At most one cycle per fiscal year is not closed, whatever the interleaving. */
  lemma {:induction false} AtMostOneActiveCycle(steps: seq<Step>, window: int, a: nat, b: nat)
    requires var t := Run(EMPTY, steps, window).table;
             a in t && b in t && t[a].year == t[b].year && t[a].status != Closed && t[b].status != Closed
    ensures a == b
  {
    ReachableInv(steps, window);
  }

  /** A draft was never opened or closed; a closed cycle knows when it was opened and closed. */
  lemma TimestampsMatchStatus(steps: seq<Step>, window: int, id: nat)
    requires id in Run(EMPTY, steps, window).table
    ensures var c := Run(EMPTY, steps, window).table[id];
            && (c.status == Draft <==> c.openedAt.None?)
            && (c.status == Draft ==> c.closedAt.None?)
            && (c.status == Closed ==> c.closedAt.Some?)
  {
    ReachableInv(steps, window);
    assert RowOk(Run(EMPTY, steps, window).table[id]);
  }

  /** Although decisions are made on rows that may be stale, committed rows only ever move along the allowed
      edges, keep their year, and never lose an opening or closing time. */
  lemma CommittedRowsFollowTheEdges(steps: seq<Step>, step: Step, window: int, id: nat)
    requires id in Run(EMPTY, steps, window).table
    ensures var w := Run(EMPTY, steps, window);
            var w' := Apply(w, step, window);
            && id in w'.table
            && (w'.table[id].status == w.table[id].status || CanTransition(w.table[id].status, w'.table[id].status))
            && w'.table[id].year == w.table[id].year
            && (w.table[id].openedAt.Some? ==> w'.table[id].openedAt.Some?)
            && (w.table[id].closedAt.Some? ==> w'.table[id].closedAt.Some?)
  {
    ReachableInv(steps, window);
    var w := Run(EMPTY, steps, window);
    if step.Write? && Commits(w, step, window) {
      assert SessionOk(w.table, w.sessions[step.s]);
    }
  }

  /** Every reopen that commits had loaded a closed cycle whose closing lies within the window, counted in
      whole days: up to but not including window + 1 days back. The state test alone would let a draft
      through; the closing-time guard behind it never does. */
  lemma CommittedReopenWasClosedInWindow(steps: seq<Step>, step: Step, window: int)
    requires step.Write? && step.op.ReopenOp? && Commits(Run(EMPTY, steps, window), step, window)
    ensures var snapshot := Run(EMPTY, steps, window).sessions[step.s].snapshot;
            && snapshot.status == Closed && snapshot.closedAt.Some?
            && step.op.checkedAt - snapshot.closedAt.value < (window + 1) * 86400
  {
    ReachableInv(steps, window);
    var w := Run(EMPTY, steps, window);
    assert SessionOk(w.table, w.sessions[step.s]);
    DaysBound(w.sessions[step.s].snapshot.closedAt.value, step.op.checkedAt, window);
  }

  lemma {:induction false} DaysBound(from: int, to: int, window: int)
    ensures ElapsedDays(from, to) <= window <==> to - from < (window + 1) * 86400
  {
  }

  /** Exactly which good rows each operation accepts. `open` is documented as Draft only; it meets that for
      every row that is not closed, and accepts every closed one, whenever it was closed. */
  lemma AcceptedRows(c: Cycle, window: int, units: seq<FilingUnit>, user: nat, reason: string, checkedAt: int, now: int)
    requires RowOk(c) && MissingManagers(units) == []
    ensures Refusal(c, CloseOp(user, now), window).None? <==> c.status == Open
    ensures Refusal(c, OpenOp(units, now), window).None? <==> c.status == Draft || c.status == Closed
    ensures (Refusal(c, OpenOp(units, now), window).None? <==> c.status == Draft) <==> c.status != Closed
    ensures Refusal(c, ReopenOp(reason, checkedAt, now), window).None?
       <==> c.status == Closed && checkedAt - c.closedAt.value < (window + 1) * 86400
    ensures c.status == Draft ==> Refusal(c, ReopenOp(reason, checkedAt, now), window) == Some(WindowElapsed)
    ensures c.status == Open ==> Refusal(c, ReopenOp(reason, checkedAt, now), window) == Some(IllegalTransition)
  {
    if c.status == Closed {
      DaysBound(c.closedAt.value, checkedAt, window);
    }
  }

  /** A cycle comes back to Open after its reopen window, by way of `open`: reopening it is refused, opening
      it is not. */
  lemma OpenIgnoresTheWindow(window: int)
    ensures var (c, late) :=
            (Cycle(2026, Closed, Some(0), Some(0), Some(5), None, None), (window + 1) * SECONDS_PER_DAY);
            && RowOk(c)
            && Refusal(c, ReopenOp("late", late, late), window) == Some(WindowElapsed)
            && Refusal(c, OpenOp([], late), window).None?
  {
    DaysBound(0, (window + 1) * SECONDS_PER_DAY, window);
  }

  /** A write or an insert, committed or refused, ends its session: no decision is used twice. */
  lemma WritingEndsTheSession(w: World, s: nat, op: Op, id: nat, window: int)
    ensures Apply(w, Write(s, op), window).sessions == w.sessions - {s}
    ensures Apply(w, Insert(s, id), window).sessions == w.sessions - {s}
    ensures Apply(w, Drop(s), window) == World(w.table, w.sessions - {s})
  {
  }

  /** A write stores what it assigned exactly when each column it assigned the loaded value again still has that
      value. */
  lemma StoresItsColumnsIff(loaded: Cycle, c: Cycle, op: Op, window: int)
    requires Refusal(loaded, op, window).None?
    ensures Written(loaded, c, op) == Sets(c, op) <==>
      match op
      case OpenOp(_, now) => loaded.openedAt == Some(now) ==> c.openedAt == Some(now)
      case CloseOp(user, now) =>
        && (loaded.closedAt == Some(now) ==> c.closedAt == Some(now))
        && (loaded.closedBy == Some(user) ==> c.closedBy == Some(user))
      case ReopenOp(reason, _, now) =>
        && (loaded.reopenReason == Some(reason) ==> c.reopenReason == Some(reason))
        && (loaded.reopenedAt == Some(now) ==> c.reopenedAt == Some(now))
  {
  }

  /** Two users close a reopened cycle at the same time, the later of them the one who had closed it before:
      the row then holds the time of the one and the name of the other. */
  lemma StaleCloseKeepsTheOthersName(user: nat, other: nat, window: int)
    requires user != other
    ensures var reopened := Cycle(2026, Open, Some(0), Some(1), Some(user), Some(2), Some("late"));
            var w := World(map[1 := reopened], map[7 := Loaded(1, reopened), 8 := Loaded(1, reopened)]);
            var closed := Apply(Apply(w, Write(8, CloseOp(other, 3)), window), Write(7, CloseOp(user, 4)),
                                window).table;
            closed == map[1 := reopened.(status := Closed, closedAt := Some(4), closedBy := Some(other))]
  {
    var reopened := Cycle(2026, Open, Some(0), Some(1), Some(user), Some(2), Some("late"));
    var w := World(map[1 := reopened], map[7 := Loaded(1, reopened), 8 := Loaded(1, reopened)]);
    assert Apply(w, Write(8, CloseOp(other, 3)), window).table[1] == Sets(reopened, CloseOp(other, 3));
  }

  // ------------------------------------------------------------------ the service

  datatype Action = CycleCreate | CycleOpen | CycleClose | CycleReopen

  datatype Audit = Audit(action: Action, cycle: nat)

  /** The commit of the change, or the audit row behind it. */
  datatype FaultPoint = AtCommit | AtAudit

  const DEFAULT_REMINDER_DAYS: seq<int> := [7, 3, 1]

  /** In the table after an operation only this row differs, or none. */
  predicate OnlyRow(before: Table, after: Table, id: nat) {
    && id in after && after.Keys == before.Keys + {id}
    && forall other | other in before && other != id :: after[other] == before[other]
  }

  /** No other cycle of the year is in draft or open. */
  predicate NoRival(table: Table, id: nat, year: int) {
    forall other | other in table && other != id && table[other].year == year :: table[other].status == Closed
  }

  class CycleService {
    var table: Table
    var schedules: map<nat, seq<int>>
    var audits: seq<Audit>

    method Get(id: nat) returns (cycle: Result<Cycle, Error>)
      ensures cycle == if id in table then Ok(table[id]) else Err(NotFound)
    {
      if id in table {
        return Ok(table[id]);
      }
      return Err(NotFound);
    }

    /** Every importer's guard. */
    method AssertOpen(id: nat) returns (result: Result<(), Error>)
      ensures result.Ok? <==> id in table && table[id].status == Open
      ensures result == Err(NotFound) <==> id !in table
    {
      var cycle := Get(id);
      if cycle.Err? {
        return Err(cycle.error);
      }
      if cycle.value.status != Open {
        return Err(NotOpen);
      }
      return Ok(());
    }

    /** Stores the row unless the commit faults or the unique index refuses it. */
    method Commit(id: nat, cycle: Cycle, fault: Option<FaultPoint>) returns (ok: bool)
      modifies this`table
      ensures ok <==> fault != Some(AtCommit) && YearFree(old(table), id, cycle)
      ensures table == if ok then old(table)[id := cycle] else old(table)
    {
      if fault == Some(AtCommit) || !YearFree(table, id, cycle) {
        return false;
      }
      table := table[id := cycle];
      return true;
    }

    /** The audit row comes after the commit; when it fails the change stays. */
    method Record(action: Action, id: nat, fault: Option<FaultPoint>) returns (ok: bool)
      modifies this`audits
      ensures ok <==> fault != Some(AtAudit)
      ensures audits == if ok then old(audits) + [Audit(action, id)] else old(audits)
    {
      if fault == Some(AtAudit) {
        return false;
      }
      audits := audits + [Audit(action, id)];
      return true;
    }

    method Create(id: nat, year: int, currency: Option<string>, fault: Option<FaultPoint>)
      returns (result: Result<Cycle, Error>)
      requires id !in table
      modifies this`table, this`audits
      ensures result.Ok? <==> currency.Some? && fault.None? && !ActiveYear(old(table), year)
      ensures result == Err(DuplicateYear) <==> currency.Some? && ActiveYear(old(table), year)
      ensures table == if currency.Some? && fault != Some(AtCommit) && !ActiveYear(old(table), year)
                       then old(table)[id := NewCycle(year)] else old(table)
      ensures result.Ok? ==> OnlyRow(old(table), table, id)
                             && table[id] == Cycle(year, Draft, None, None, None, None, None)
      ensures currency.Some? ==> (result != Err(DuplicateYear) <==> NoRival(old(table), id, year))
      ensures audits == if result.Ok? then old(audits) + [Audit(CycleCreate, id)] else old(audits)
      ensures TableOk(old(table)) ==> TableOk(table)
    {
      if currency.None? {
        return Err(BadCurrency);
      }
      if ActiveYear(table, year) {
        return Err(DuplicateYear);
      }
      var cycle := NewCycle(year);
      if TableOk(table) {
        StoreKeepsTableOk(table, id, cycle);
      }
      var ok := Commit(id, cycle, fault);
      if ok {
        ok := Record(CycleCreate, id, fault);
      }
      assert fault.Some? ==> fault.value.AtCommit? || fault.value.AtAudit?;
      return if ok then Ok(cycle) else Err(DatabaseError);
    }

    /** Whether the operation's change is committed. */
    ghost predicate Takes(id: nat, op: Op, window: int, fault: Option<FaultPoint>)
      reads this
    {
      && id in table && Refusal(table[id], op, window).None? && fault != Some(AtCommit)
      && YearFree(table, id, Sets(table[id], op))
    }

    method OpenCycle(id: nat, units: seq<FilingUnit>, now: int, window: int, fault: Option<FaultPoint>)
      returns (result: Result<(Cycle, seq<FilingUnit>), Error>)
      modifies this
      ensures result.Ok? <==> old(Takes(id, OpenOp(units, now), window, fault)) && fault.None?
      ensures table == if old(Takes(id, OpenOp(units, now), window, fault))
                       then old(table)[id := Sets(old(table)[id], OpenOp(units, now))] else old(table)
      ensures result == Err(NotFound) <==> id !in old(table)
      ensures result == Err(IllegalTransition) <==> id in old(table) && old(table)[id].status == Open
      ensures result.Err? && result.error.MissingManager? <==>
                id in old(table) && old(table)[id].status != Open
                    && exists u | u in units :: !u.hasManager && !u.excluded
      ensures result.Ok? <==>
                && id in old(table) && old(table)[id].status in {Draft, Closed} && fault.None?
                && (forall u | u in units :: u.hasManager || u.excluded) && NoRival(old(table), id, old(table)[id].year)
      ensures result.Ok? ==> OnlyRow(old(table), table, id)
                             && table[id] == old(table)[id].(status := Open, openedAt := Some(now))
      ensures result.Ok? ==> result.value.0 == table[id] && id in schedules && schedules[id] != []
                             && (id !in old(schedules) ==> schedules[id] == [7, 3, 1])
      ensures audits == if result.Ok? then old(audits) + [Audit(CycleOpen, id)] else old(audits)
      ensures schedules == if old(Takes(id, OpenOp(units, now), window, fault))
              && !(id in old(schedules) && old(schedules)[id] != [])
                           then old(schedules)[id := DEFAULT_REMINDER_DAYS] else old(schedules)
      ensures result.Ok? ==> forall u :: u in result.value.1 <==> u in units && !u.excluded
      ensures result.Ok? ==> forall u | u in result.value.1 :: u.hasManager
      ensures result.Err? && result.error.MissingManager? ==>
                result.error.units != [] && forall u :: u in result.error.units <==> u in units && Unmanaged(u)
    {
      var loaded := Get(id);
      if loaded.Err? {
        return Err(loaded.error);
      }
      var cycle := loaded.value;
      if !CanTransition(cycle.status, Open) {
        return Err(IllegalTransition);
      }
      var missing := MissingManagers(units);
      if missing != [] {
        assert missing[0] in missing;
        return Err(MissingManager(missing));
      }
      assert forall u | u in units :: !Unmanaged(u) by {
        assert forall u | u in units && Unmanaged(u) :: u in missing;
      }
      cycle := cycle.(status := Open, openedAt := Some(now));
      var withSchedule := schedules;
      if !(id in schedules && schedules[id] != []) {
        withSchedule := schedules[id := DEFAULT_REMINDER_DAYS];
      }
      var ok := Commit(id, cycle, fault);
      if !ok {
        return Err(DatabaseError);
      }
      schedules := withSchedule;
      ok := Record(CycleOpen, id, fault);
      assert fault.Some? ==> fault.value.AtCommit? || fault.value.AtAudit?;
      if !ok {
        return Err(DatabaseError);
      }
      var actionable := Filter((u: FilingUnit) => !u.excluded, units);
      return Ok((cycle, actionable));
    }

    method Close(id: nat, user: nat, now: int, window: int, fault: Option<FaultPoint>)
      returns (result: Result<Cycle, Error>)
      modifies this`table, this`audits
      ensures result.Ok? <==> old(Takes(id, CloseOp(user, now), window, fault)) && fault.None?
      ensures table == if old(Takes(id, CloseOp(user, now), window, fault))
                       then old(table)[id := Sets(old(table)[id], CloseOp(user, now))] else old(table)
      ensures result == Err(NotFound) <==> id !in old(table)
      ensures result == Err(IllegalTransition) <==> id in old(table) && old(table)[id].status != Open
      ensures result.Ok? <==> id in old(table) && old(table)[id].status == Open && fault.None?
      ensures result.Ok? ==>
                OnlyRow(old(table), table, id) && result.value == table[id]
                && table[id] == old(table)[id].(status := Closed, closedAt := Some(now), closedBy := Some(user))
      ensures audits == if result.Ok? then old(audits) + [Audit(CycleClose, id)] else old(audits)
    {
      var loaded := Get(id);
      if loaded.Err? {
        return Err(loaded.error);
      }
      var cycle := loaded.value;
      if !CanTransition(cycle.status, Closed) {
        return Err(IllegalTransition);
      }
      cycle := cycle.(status := Closed, closedAt := Some(now), closedBy := Some(user));
      var ok := Commit(id, cycle, fault);
      if ok {
        ok := Record(CycleClose, id, fault);
      }
      assert fault.Some? ==> fault.value.AtCommit? || fault.value.AtAudit?;
      return if ok then Ok(cycle) else Err(DatabaseError);
    }

    method Reopen(id: nat, reason: string, isSystemAdmin: bool, checkedAt: int, now: int, window: int,
                  fault: Option<FaultPoint>)
      returns (result: Result<Cycle, Error>)
      modifies this`table, this`audits
      ensures var takes := isSystemAdmin && old(Takes(id, ReopenOp(reason, checkedAt, now), window, fault));
              && (result.Ok? <==> takes && fault.None?)
              && table == if takes then old(table)[id := Sets(old(table)[id], ReopenOp(reason, checkedAt, now))]
                 else old(table)
      ensures result.Ok? ==>
                OnlyRow(old(table), table, id) && result.value == table[id]
                && table[id] == old(table)[id].(status := Open, reopenReason := Some(reason), reopenedAt := Some(now))
      ensures isSystemAdmin && id in old(table) && RowOk(old(table)[id]) ==>
                (result.Ok? <==>
                  && old(table)[id].status == Closed && checkedAt - old(table)[id].closedAt.value < (window + 1) * 86400
                  && NoRival(old(table), id, old(table)[id].year) && fault.None?)
      ensures audits == if result.Ok? then old(audits) + [Audit(CycleReopen, id)] else old(audits)
      ensures result == Err(RoleDenied) <==> !isSystemAdmin
      ensures result == Err(NotFound) <==> isSystemAdmin && id !in old(table)
      ensures result == Err(IllegalTransition) <==>
                isSystemAdmin && id in old(table) && old(table)[id].status == Open
      ensures result == Err(WindowElapsed) <==>
                && isSystemAdmin && id in old(table) && old(table)[id].status != Open
                && (old(table)[id].closedAt.None? || checkedAt - old(table)[id].closedAt.value >= (window + 1) * 86400)
    {
      if !isSystemAdmin {
        return Err(RoleDenied);
      }
      var loaded := Get(id);
      if loaded.Err? {
        return Err(loaded.error);
      }
      var cycle := loaded.value;
      if cycle.status != Closed {
        if !CanTransition(cycle.status, Open) {
          return Err(IllegalTransition);
        }
      }
      if cycle.closedAt.None? {
        return Err(WindowElapsed);
      }
      DaysBound(cycle.closedAt.value, checkedAt, window);
      var elapsedDays := ElapsedDays(cycle.closedAt.value, checkedAt);
      if elapsedDays > window {
        return Err(WindowElapsed);
      }
      cycle := cycle.(status := Open, reopenReason := Some(reason), reopenedAt := Some(now));
      var ok := Commit(id, cycle, fault);
      if ok {
        ok := Record(CycleReopen, id, fault);
      }
      assert fault.Some? ==> fault.value.AtCommit? || fault.value.AtAudit?;
      return if ok then Ok(cycle) else Err(DatabaseError);
    }
  }

  /** What a service call leaves in the table is what loading and writing in one session leaves, so the
      results about interleaved runs cover the calls. */
  lemma CallIsASchedule(table: Table, id: nat, op: Op, window: int)
    requires id in table
    ensures var w := World(table, map[]);
            var taken := Refusal(table[id], op, window).None? && YearFree(table, id, Sets(table[id], op));
            Run(w, [Load(0, id), Write(0, op)], window).table
              == if taken then table[id := Sets(table[id], op)] else table
  {
    var w, steps := World(table, map[]), [Load(0, id), Write(0, op)];
    assert steps[..1] == [Load(0, id)] && [Load(0, id)][..0] == [];
    assert Run(w, [], window) == w;
    assert Run(w, steps[..1], window) == World(table, map[0 := Loaded(id, table[id])]);
  }

  /** So is creating: checking the year and inserting in one session. */
  lemma CreateIsASchedule(table: Table, id: nat, year: int, window: int)
    requires id !in table
    ensures Run(World(table, map[]), [CheckYear(0, year), Insert(0, id)], window).table
         == if ActiveYear(table, year) then table else table[id := NewCycle(year)]
  {
    var w, steps := World(table, map[]), [CheckYear(0, year), Insert(0, id)];
    assert steps[..1] == [CheckYear(0, year)] && [CheckYear(0, year)][..0] == [];
    assert Run(w, [], window) == w;
    if ActiveYear(table, year) {
      assert Run(w, steps[..1], window) == w;
    } else {
      assert Run(w, steps[..1], window) == World(table, map[0 := Creating(year)]);
      assert YearFree(table, id, NewCycle(year));
    }
  }
}
