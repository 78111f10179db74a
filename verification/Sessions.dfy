/** Login sessions and the rotation of refresh tokens. Only a keyed digest of a raw token is stored. */
module Sessions {
  import opened Common

  type Digest = seq<nat>

  /** Instants are seconds. */
  datatype Session = Session(user: nat, digest: Digest, ip: Option<string>, agent: Option<string>, lastActivity: int,
                             expires: int, revokedAt: Option<int>)

  type Rows = map<nat, Session>

  /** The digest function, about which nothing is assumed, and refresh_ttl_seconds. */
  datatype Env = Env(mac: string -> Digest, ttl: int)

  predicate RowWith(rows: Rows, id: nat, digest: Digest) { id in rows && rows[id].digest == digest }

  /** refresh_token_hash UNIQUE */
  predicate UniqueDigests(rows: Rows) {
    forall a, b | a in rows && b in rows && rows[a].digest == rows[b].digest :: a == b
  }

  predicate Live(rows: Rows, id: nat) { id in rows && rows[id].revokedAt.None? }

  /** What a login or a rotation mints: the raw token, the row id, and the clock it was read at. */
  datatype Minted = Minted(raw: string, id: nat, now: int)

  predicate Insertable(env: Env, rows: Rows, minted: Minted) {
    minted.id !in rows && forall id | id in rows :: rows[id].digest != env.mac(minted.raw)
  }

  function NewSession(env: Env, user: nat, ip: Option<string>, agent: Option<string>, minted: Minted): Session
  {
    Session(user, env.mac(minted.raw), ip, agent, minted.now, minted.now + env.ttl, None)
  }

  /** The stored session of these tokens: it holds the token's digest only, starts active now, ends ttl seconds on, and
      is not revoked. */
  predicate IsNew(row: Session, env: Env, user: nat, ip: Option<string>, agent: Option<string>, minted: Minted) {
    && row.user == user && row.digest == env.mac(minted.raw) && row.ip == ip && row.agent == agent
    && row.lastActivity == minted.now && row.expires == minted.now + env.ttl && row.revokedAt.None?
  }

  /** After a refresh the old session is revoked, and as it was otherwise; a new one of the same user and client
      stands beside it; and nothing else differs. */
  predicate HasRotated(env: Env, before: Rows, after: Rows, id: nat, revokedAt: int, minted: Minted) {
    && id in before && id != minted.id && after.Keys == before.Keys + {minted.id}
    && after[id] == Session(before[id].user, before[id].digest, before[id].ip, before[id].agent,
                            before[id].lastActivity, before[id].expires, Some(revokedAt))
    && IsNew(after[minted.id], env, before[id].user, before[id].ip, before[id].agent, minted)
    && forall other | other in before && other != id :: after[other] == before[other]
  }

  function Revoked(rows: Rows, id: nat, now: int): Rows
    requires id in rows
  {
    rows[id := rows[id].(revokedAt := Some(now))]
  }

  /** The clock reads of a refresh before it mints, and whether the session's user still exists and is active. */
  datatype Attempt = Attempt(checkedAt: int, revokedAt: int, userActive: bool)

  /** The session with this id can be refreshed now. */
  predicate Redeemable(rows: Rows, id: nat, attempt: Attempt) {
    Live(rows, id) && rows[id].expires > attempt.checkedAt && attempt.userActive
  }

  /** The old row revoked, and a new one for the same user and client beside it. */
  function Rotated(env: Env, rows: Rows, id: nat, attempt: Attempt, minted: Minted): Rows
    requires id in rows
  {
    var successor := NewSession(env, rows[id].user, rows[id].ip, rows[id].agent, minted);
    Revoked(rows, id, attempt.revokedAt)[minted.id := successor]
  }

  /** The token belongs to a session that can be refreshed now, and its successor can be inserted. */
  ghost predicate Rotates(env: Env, rows: Rows, token: string, attempt: Attempt, minted: Minted) {
    exists id :: RowWith(rows, id, env.mac(token)) && Redeemable(rows, id, attempt) && Insertable(env, rows, minted)
  }

  // ------------------------------------------------------------------ the store

  datatype Error = NotFound | AlreadyRevoked | Expired | UserInactive | DatabaseError

  datatype Tokens = Tokens(refresh: string, session: nat, user: nat, expires: int)

  class SessionStore {
    const env: Env
    /** The committed table, and the table as the open transaction sees it. */
    var committed: Rows
    var rows: Rows

    method Create(user: nat, ip: Option<string>, agent: Option<string>, minted: Minted)
      returns (result: Result<Tokens, Error>)
      modifies this`rows
      ensures result.Ok? <==> Insertable(env, old(rows), minted)
      ensures result.Err? ==> result.error == DatabaseError
      ensures rows == if result.Ok? then old(rows)[minted.id := NewSession(env, user, ip, agent, minted)] else old(rows)
      ensures result.Ok? ==> result.value == Tokens(minted.raw, minted.id, user, minted.now + env.ttl)
      ensures result.Ok?
         <==> minted.id !in old(rows) && forall id | id in old(rows) :: old(rows)[id].digest != env.mac(minted.raw)
      ensures result.Ok? ==>
                rows.Keys == old(rows).Keys + {minted.id} && forall id | id in old(rows) :: rows[id] == old(rows)[id]
      ensures result.Ok? ==> IsNew(rows[minted.id], env, user, ip, agent, minted)
    {
      if !Insertable(env, rows, minted) {
        return Err(DatabaseError);
      }
      var row := Session(user, env.mac(minted.raw), ip, agent, minted.now, minted.now + env.ttl, None);
      rows := rows[minted.id := row];
      return Ok(Tokens(minted.raw, minted.id, user, row.expires));
    }

    /** Rotates the one session the token belongs to. When it raises after revoking, the revocation is in
        the transaction the caller rolls back. */
    method Refresh(token: string, attempt: Attempt, minted: Minted) returns (result: Result<Tokens, Error>)
      requires UniqueDigests(rows)
      modifies this`rows
      ensures result.Ok? <==> Rotates(env, old(rows), token, attempt, minted)
      ensures result.Ok? ==> result.value.refresh == minted.raw && result.value.session == minted.id
                             && result.value.expires == minted.now + env.ttl
      ensures result.Ok? ==> exists id ::
                && id in old(rows) && old(rows)[id].digest == env.mac(token) && old(rows)[id].revokedAt.None?
                && attempt.checkedAt < old(rows)[id].expires && attempt.userActive
                && HasRotated(env, old(rows), rows, id, attempt.revokedAt, minted)
      ensures forall id | result.Ok? && RowWith(old(rows), id, env.mac(token)) ::
                rows == Rotated(env, old(rows), id, attempt, minted) && result.value.user == old(rows)[id].user
      ensures result.Err? && !result.error.DatabaseError? ==> rows == old(rows)
      ensures result == Err(NotFound) <==> forall id | id in old(rows) :: old(rows)[id].digest != env.mac(token)
      ensures forall id | RowWith(old(rows), id, env.mac(token)) ::
                && (result == Err(AlreadyRevoked) <==> old(rows)[id].revokedAt.Some?)
                && (result == Err(Expired)
                    <==> old(rows)[id].revokedAt.None? && old(rows)[id].expires <= attempt.checkedAt)
                && (result == Err(UserInactive) <==>
                      old(rows)[id].revokedAt.None? && old(rows)[id].expires > attempt.checkedAt && !attempt.userActive)
    {
      var digest := env.mac(token);
      if forall id | id in rows :: rows[id].digest != digest {
        return Err(NotFound);
      }
      var id :| id in rows && rows[id].digest == digest;
      assert RowWith(rows, id, digest);
      var row := rows[id];
      if row.revokedAt.Some? {
        return Err(AlreadyRevoked);
      }
      if row.expires <= attempt.checkedAt {
        return Err(Expired);
      }
      if !attempt.userActive {
        return Err(UserInactive);
      }
      SameDigests(env, rows, id, attempt.revokedAt, minted);
      rows := Revoked(rows, id, attempt.revokedAt);
      result := Create(row.user, row.ip, row.agent, minted);
      assert result.Ok? ==> HasRotated(env, old(rows), rows, id, attempt.revokedAt, minted);
    }

    /** The authentication service's refresh: commit on success, and the request's rollback otherwise. */
    method RefreshSession(token: string, attempt: Attempt, minted: Minted, commitFails: bool)
      returns (result: Result<Tokens, Error>)
      requires rows == committed && UniqueDigests(rows)
      modifies this
      ensures rows == committed
      ensures result.Ok? <==> !commitFails && Rotates(env, old(committed), token, attempt, minted)
      ensures result.Ok? ==> exists id ::
                && id in old(committed) && old(committed)[id].digest == env.mac(token)
                && old(committed)[id].revokedAt.None?
                && attempt.checkedAt < old(committed)[id].expires && attempt.userActive
                && HasRotated(env, old(committed), committed, id, attempt.revokedAt, minted)
      ensures forall id | result.Ok? && RowWith(old(committed), id, env.mac(token)) ::
                committed == Rotated(env, old(committed), id, attempt, minted)
                    && result.value.user == old(committed)[id].user
      ensures result.Err? ==> committed == old(committed)
    {
      result := Refresh(token, attempt, minted);
      if result.Ok? && commitFails {
        result := Err(DatabaseError);
      }
      if result.Err? {
        rows := committed;
        return;
      }
      committed := rows;
    }

    method Revoke(id: nat, now: int) returns (result: Result<(), Error>)
      modifies this`rows
      ensures result.Ok? <==> id in old(rows)
      ensures rows == if Live(old(rows), id) then Revoked(old(rows), id, now) else old(rows)
      ensures rows.Keys == old(rows).Keys
      ensures forall other | other in rows :: rows[other] ==
                (if other == id && old(rows)[id].revokedAt.None? then old(rows)[id].(revokedAt := Some(now))
                 else old(rows)[other])
    {
      if id !in rows {
        return Err(NotFound);
      }
      if rows[id].revokedAt.None? {
        rows := rows[id := rows[id].(revokedAt := Some(now))];
      }
      return Ok(());
    }

    method GetActive(id: nat, now: int) returns (session: Option<Session>)
      ensures session.Some? <==> id in rows && rows[id].revokedAt.None? && now < rows[id].expires
      ensures session.Some? ==> session.value == rows[id]
    {
      if id !in rows {
        return None;
      }
      if rows[id].revokedAt.Some? {
        return None;
      }
      if rows[id].expires <= now {
        return None;
      }
      return Some(rows[id]);
    }

    method Touch(id: nat, now: int)
      modifies this`rows
      ensures rows == if Live(old(rows), id) then old(rows)[id := old(rows)[id].(lastActivity := now)] else old(rows)
    {
      if id in rows && rows[id].revokedAt.None? {
        rows := rows[id := rows[id].(lastActivity := now)];
      }
    }
  }

  lemma SameDigests(env: Env, rows: Rows, id: nat, now: int, minted: Minted)
    requires id in rows
    ensures Insertable(env, Revoked(rows, id, now), minted) <==> Insertable(env, rows, minted)
  {
    var after := Revoked(rows, id, now);
    assert forall other | other in rows :: other in after && after[other].digest == rows[other].digest;
  }

  // ------------------------------------------------------------------ sequential runs

  /** The table with its history: which first login each session descends from, and the digests of the
      tokens that were redeemed, in order. */
  datatype World = World(rows: Rows, lineage: map<nat, nat>, redeemed: seq<Digest>)

  datatype Step =
    | Login(user: nat, ip: Option<string>, agent: Option<string>, minted: Minted)
    | Rotate(token: string, id: nat, attempt: Attempt, minted: Minted)
    | Logout(id: nat, now: int)
    | Activity(id: nat, now: int)

  /** A refresh that succeeds; id is the row the lookup finds, which is unique. */
  predicate Redeems(env: Env, w: World, step: Step) {
    && step.Rotate? && RowWith(w.rows, step.id, env.mac(step.token)) && Redeemable(w.rows, step.id, step.attempt)
    && Insertable(env, w.rows, step.minted) && step.id in w.lineage
  }

  function Apply(env: Env, w: World, step: Step): World
  {
    match step
    case Login(user, ip, agent, minted) =>
      if !Insertable(env, w.rows, minted) then w
      else w.(rows := w.rows[minted.id := NewSession(env, user, ip, agent, minted)],
              lineage := w.lineage[minted.id := minted.id])
    case Rotate(token, id, attempt, minted) =>
      if !Redeems(env, w, step) then w
      else World(Rotated(env, w.rows, id, attempt, minted), w.lineage[minted.id := w.lineage[id]],
                 w.redeemed + [env.mac(token)])
    case Logout(id, now) =>
      if Live(w.rows, id) then w.(rows := Revoked(w.rows, id, now)) else w
    case Activity(id, now) =>
      if Live(w.rows, id) then w.(rows := w.rows[id := w.rows[id].(lastActivity := now)]) else w
  }

  function Run(env: Env, w: World, steps: seq<Step>): World
  {
    if steps == [] then w else Apply(env, Run(env, w, steps[..|steps| - 1]), steps[|steps| - 1])
  }

  const EMPTY: World := World(map[], map[], [])

  predicate OneLivePerLineage(w: World) {
    && w.lineage.Keys == w.rows.Keys
    && w.lineage.Values <= w.lineage.Keys
    && forall a, b | a in w.rows && b in w.rows && a != b && w.lineage[a] == w.lineage[b] ::
         !Live(w.rows, a) || !Live(w.rows, b)
  }

  /** A redeemed token's session is on file and revoked. */
  predicate Spent(rows: Rows, digest: Digest) {
    exists id | id in rows :: rows[id].digest == digest && rows[id].revokedAt.Some?
  }

  predicate RedeemedAreSpent(w: World) {
    && (forall i | 0 <= i < |w.redeemed| :: Spent(w.rows, w.redeemed[i]))
    && forall i, j | 0 <= i < j < |w.redeemed| :: w.redeemed[i] != w.redeemed[j]
  }

  predicate Inv(w: World) { UniqueDigests(w.rows) && OneLivePerLineage(w) && RedeemedAreSpent(w) }

  /** Rows are never deleted, their digest and user never change, and a revocation is never undone or moved. */
  predicate Preserved(before: Rows, after: Rows) {
    forall id | id in before ::
      && id in after && after[id].digest == before[id].digest && after[id].user == before[id].user
      && (before[id].revokedAt.Some? ==> after[id].revokedAt == before[id].revokedAt)
  }

  lemma ApplyPreserves(env: Env, w: World, step: Step)
    ensures Preserved(w.rows, Apply(env, w, step).rows)
  {
  }

  lemma SpentStays(before: Rows, after: Rows, digest: Digest)
    requires Preserved(before, after) && Spent(before, digest)
    ensures Spent(after, digest)
  {
    var id :| id in before && before[id].digest == digest && before[id].revokedAt.Some?;
    assert after[id].digest == digest;
  }

  lemma InsertKeepsUnique(env: Env, rows: Rows, session: Session, minted: Minted)
    requires UniqueDigests(rows) && Insertable(env, rows, minted) && session.digest == env.mac(minted.raw)
    ensures UniqueDigests(rows[minted.id := session])
  {
  }

  lemma RevokeKeepsUnique(rows: Rows, id: nat, now: int)
    requires UniqueDigests(rows) && id in rows
    ensures UniqueDigests(Revoked(rows, id, now))
  {
  }

  lemma ApplyKeepsUnique(env: Env, w: World, step: Step)
    requires UniqueDigests(w.rows)
    ensures UniqueDigests(Apply(env, w, step).rows)
  {
    match step
    case Login(user, ip, agent, minted) =>
      if Insertable(env, w.rows, minted) {
        InsertKeepsUnique(env, w.rows, NewSession(env, user, ip, agent, minted), minted);
      }
    case Rotate(token, id, attempt, minted) =>
      if Redeems(env, w, step) {
        RevokeKeepsUnique(w.rows, id, attempt.revokedAt);
        SameDigests(env, w.rows, id, attempt.revokedAt, minted);
        InsertKeepsUnique(env, Revoked(w.rows, id, attempt.revokedAt),
                          NewSession(env, w.rows[id].user, w.rows[id].ip, w.rows[id].agent, minted), minted);
      }
    case Logout(id, now) =>
      if Live(w.rows, id) {
        RevokeKeepsUnique(w.rows, id, now);
      }
    case Activity(id, now) =>
  }

  /** Revoking or touching rows leaves no more live sessions than before. */
  lemma NarrowingKeepsLineages(w: World, rows: Rows)
    requires OneLivePerLineage(w) && rows.Keys == w.rows.Keys
    requires forall id | id in rows :: Live(rows, id) ==> Live(w.rows, id)
    ensures OneLivePerLineage(w.(rows := rows))
  {
    forall a, b | a in rows && b in rows && a != b && w.lineage[a] == w.lineage[b]
      ensures !Live(rows, a) || !Live(rows, b)
    {
      assert !Live(w.rows, a) || !Live(w.rows, b);
    }
  }

  /** A row inserted into a lineage without live sessions may be live. */
  lemma InsertingKeepsLineages(w: World, id: nat, root: nat, session: Session)
    requires OneLivePerLineage(w) && id !in w.rows && (root == id || root in w.lineage)
    requires forall other | other in w.rows && w.lineage[other] == root :: !Live(w.rows, other)
    ensures OneLivePerLineage(w.(rows := w.rows[id := session], lineage := w.lineage[id := root]))
  {
    var after := w.(rows := w.rows[id := session], lineage := w.lineage[id := root]);
    forall a, b | a in after.rows && b in after.rows && a != b && after.lineage[a] == after.lineage[b]
      ensures !Live(after.rows, a) || !Live(after.rows, b)
    {
      if a != id && b != id {
        assert !Live(w.rows, a) || !Live(w.rows, b);
      }
    }
  }

  /** A rotation hands the one live session of its lineage on. */
  lemma RotatedKeepsLineages(env: Env, w: World, id: nat, attempt: Attempt, minted: Minted)
    requires OneLivePerLineage(w) && id in w.rows && id in w.lineage && Insertable(env, w.rows, minted)
    requires forall other | other in w.rows && other != id && w.lineage[other] == w.lineage[id] :: !Live(w.rows, other)
    ensures OneLivePerLineage(w.(rows := Rotated(env, w.rows, id, attempt, minted),
                                 lineage := w.lineage[minted.id := w.lineage[id]]))
  {
    var rows, replaced := Revoked(w.rows, id, attempt.revokedAt), w.rows[id];
    NarrowingKeepsLineages(w, rows);
    assert w.lineage[id] in w.lineage.Values;
    forall other | other in rows && w.lineage[other] == w.lineage[id]
      ensures !Live(rows, other)
    {
      assert other == id || !Live(w.rows, other);
    }
    InsertingKeepsLineages(w.(rows := rows), minted.id, w.lineage[id],
                           NewSession(env, replaced.user, replaced.ip, replaced.agent, minted));
  }

  lemma ApplyKeepsLineages(env: Env, w: World, step: Step)
    requires OneLivePerLineage(w)
    ensures OneLivePerLineage(Apply(env, w, step))
  {
    match step
    case Login(user, ip, agent, minted) =>
      if Insertable(env, w.rows, minted) {
        InsertingKeepsLineages(w, minted.id, minted.id, NewSession(env, user, ip, agent, minted));
      }
    case Rotate(token, id, attempt, minted) =>
      if Redeems(env, w, step) {
        RotatedKeepsLineages(env, w, id, attempt, minted);
      }
    case Logout(id, now) =>
      if Live(w.rows, id) {
        NarrowingKeepsLineages(w, Revoked(w.rows, id, now));
      }
    case Activity(id, now) =>
      if Live(w.rows, id) {
        NarrowingKeepsLineages(w, w.rows[id := w.rows[id].(lastActivity := now)]);
      }
  }

  lemma ApplyKeepsSpent(env: Env, w: World, step: Step)
    requires UniqueDigests(w.rows) && RedeemedAreSpent(w)
    ensures RedeemedAreSpent(Apply(env, w, step))
  {
    var after := Apply(env, w, step);
    ApplyPreserves(env, w, step);
    forall i | 0 <= i < |w.redeemed|
      ensures Spent(after.rows, w.redeemed[i])
    {
      SpentStays(w.rows, after.rows, w.redeemed[i]);
    }
    if Redeems(env, w, step) {
      var digest := env.mac(step.token);
      RedeemedNow(env, w, step);
      assert after.redeemed == w.redeemed + [digest];
      assert forall i | 0 <= i < |w.redeemed| :: Spent(w.rows, w.redeemed[i]) && w.redeemed[i] != digest;
    }
  }

  lemma RedeemedNow(env: Env, w: World, step: Step)
    requires UniqueDigests(w.rows) && Redeems(env, w, step)
    ensures !Spent(w.rows, env.mac(step.token)) && Spent(Apply(env, w, step).rows, env.mac(step.token))
  {
    var after := Apply(env, w, step);
    assert step.id in after.rows && after.rows[step.id].digest == env.mac(step.token)
           && after.rows[step.id].revokedAt.Some?;
  }

  lemma {:induction false} ReachableInv(env: Env, steps: seq<Step>)
    ensures Inv(Run(env, EMPTY, steps))
  {
    if steps != [] {
      var before := Run(env, EMPTY, steps[..|steps| - 1]);
      ReachableInv(env, steps[..|steps| - 1]);
      ApplyKeepsUnique(env, before, steps[|steps| - 1]);
      ApplyKeepsLineages(env, before, steps[|steps| - 1]);
      ApplyKeepsSpent(env, before, steps[|steps| - 1]);
    }
  }

  // ------------------------------------------------------------------ what holds in every sequential run

  /** Each token is redeemed at most once. */
  lemma TokensAreRedeemedOnce(env: Env, steps: seq<Step>, i: nat, j: nat)
    requires i < |Run(env, EMPTY, steps).redeemed| && j < |Run(env, EMPTY, steps).redeemed|
    requires Run(env, EMPTY, steps).redeemed[i] == Run(env, EMPTY, steps).redeemed[j]
    ensures i == j
  {
    ReachableInv(env, steps);
  }

  /** Sessions are never deleted and revocation is never undone, whatever follows. */
  lemma {:induction false} RevocationIsFinal(env: Env, w: World, steps: seq<Step>)
    ensures Preserved(w.rows, Run(env, w, steps).rows)
  {
    if steps != [] {
      RevocationIsFinal(env, w, steps[..|steps| - 1]);
      ApplyPreserves(env, Run(env, w, steps[..|steps| - 1]), steps[|steps| - 1]);
    }
  }

  /** Each rotation lineage has at most one session that is not revoked. */
  lemma LineageHasOneLiveSession(env: Env, steps: seq<Step>, a: nat, b: nat)
    requires var w := Run(env, EMPTY, steps);
             Live(w.rows, a) && Live(w.rows, b) && a in w.lineage && b in w.lineage && w.lineage[a] == w.lineage[b]
    ensures a == b
  {
    ReachableInv(env, steps);
  }

  function LiveOf(rows: Rows, user: nat): set<nat>
  {
    set id | id in rows && rows[id].user == user && rows[id].revokedAt.None?
  }

  /** A successful refresh swaps one live session of its user for another: every user's number of live
      sessions is what it was. */
  lemma RefreshKeepsLiveCount(env: Env, w: World, step: Step, user: nat)
    requires Redeems(env, w, step)
    ensures |LiveOf(Apply(env, w, step).rows, user)| == |LiveOf(w.rows, user)|
  {
    var after := Apply(env, w, step).rows;
    if w.rows[step.id].user == user {
      LiveSwapped(env, w, step);
      assert step.id in LiveOf(w.rows, user) && step.minted.id !in LiveOf(w.rows, user);
    } else {
      OthersLiveSame(env, w, step, user);
    }
  }

  lemma LiveSwapped(env: Env, w: World, step: Step)
    requires Redeems(env, w, step)
    ensures var user := w.rows[step.id].user;
            LiveOf(Apply(env, w, step).rows, user) == LiveOf(w.rows, user) - {step.id} + {step.minted.id}
  {
  }

  lemma OthersLiveSame(env: Env, w: World, step: Step, user: nat)
    requires Redeems(env, w, step) && w.rows[step.id].user != user
    ensures LiveOf(Apply(env, w, step).rows, user) == LiveOf(w.rows, user)
  {
  }

  /** A token whose session is revoked, by rotation or by logout, is refused ever after. */
  lemma SpentTokenIsRefused(env: Env, steps: seq<Step>, more: seq<Step>, step: Step)
    requires step.Rotate? && Spent(Run(env, EMPTY, steps).rows, env.mac(step.token))
    ensures !Redeems(env, Run(env, Run(env, EMPTY, steps), more), step)
  {
    var w := Run(env, EMPTY, steps);
    RevocationIsFinal(env, w, more);
    SpentStays(w.rows, Run(env, w, more).rows, env.mac(step.token));
    RunConcat(env, EMPTY, steps, more);
    ReachableInv(env, steps + more);
  }

  lemma {:induction false} RunConcat(env: Env, w: World, a: seq<Step>, b: seq<Step>)
    ensures Run(env, w, a + b) == Run(env, Run(env, w, a), b)
  {
    if b == [] {
      assert a + b == a;
    } else {
      assert (a + b)[..|a + b| - 1] == a + b[..|b| - 1];
      RunConcat(env, w, a, b[..|b| - 1]);
    }
  }

  // ------------------------------------------------------------------ overlapping refreshes

  /** A refresh that has loaded its row and found it redeemable, and how many redemptions there had been. */
  datatype Loaded = Loaded(id: nat, token: string, attempt: Attempt, at: nat)

  /** Refreshes in flight beside the sequential world: each loads, and later revokes and inserts in one
      commit, which does not look at the row again. */
  datatype Overlap = Overlap(w: World, inFlight: map<nat, Loaded>)

  datatype OStep =
    | Whole(step: Step)
    | Load(s: nat, token: string, id: nat, attempt: Attempt)
    | Commit(s: nat, minted: Minted)
    | Drop(s: nat)

  predicate Commits(env: Env, o: Overlap, step: OStep) {
    && step.Commit? && step.s in o.inFlight
    && o.inFlight[step.s].id in o.w.rows && o.inFlight[step.s].id in o.w.lineage
    && Insertable(env, o.w.rows, step.minted)
  }

  function OApply(env: Env, o: Overlap, step: OStep): Overlap
  {
    match step
    case Whole(single) => o.(w := Apply(env, o.w, single))
    case Load(s, token, id, attempt) =>
      if s in o.inFlight || !RowWith(o.w.rows, id, env.mac(token)) || !Redeemable(o.w.rows, id, attempt) then o
      else o.(inFlight := o.inFlight[s := Loaded(id, token, attempt, |o.w.redeemed|)])
    case Commit(s, minted) =>
      if !Commits(env, o, step) then o.(inFlight := o.inFlight - {s})
      else Overlap(Committed(env, o.w, o.inFlight[s], minted), o.inFlight - {s})
    case Drop(s) => o.(inFlight := o.inFlight - {s})
  }

  function Committed(env: Env, w: World, l: Loaded, minted: Minted): World
    requires l.id in w.rows && l.id in w.lineage
  {
    World(Rotated(env, w.rows, l.id, l.attempt, minted), w.lineage[minted.id := w.lineage[l.id]],
          w.redeemed + [env.mac(l.token)])
  }

  function ORun(env: Env, o: Overlap, steps: seq<OStep>): Overlap
  {
    if steps == [] then o else OApply(env, ORun(env, o, steps[..|steps| - 1]), steps[|steps| - 1])
  }

  const NOTHING: Overlap := Overlap(EMPTY, map[])

  /** The table and its history after a run from the start. */
  function After(env: Env, steps: seq<OStep>): World { ORun(env, NOTHING, steps).w }

  predicate AllSpent(w: World) { forall i | 0 <= i < |w.redeemed| :: Spent(w.rows, w.redeemed[i]) }

  /** What was loaded was redeemable, and had not been redeemed by then. */
  predicate LoadedOk(env: Env, w: World, l: Loaded) {
    && RowWith(w.rows, l.id, env.mac(l.token)) && l.at <= |w.redeemed|
    && w.rows[l.id].expires > l.attempt.checkedAt && l.attempt.userActive
    && forall i | 0 <= i < l.at :: w.redeemed[i] != env.mac(l.token)
  }

  predicate OInv(env: Env, o: Overlap) {
    && UniqueDigests(o.w.rows) && AllSpent(o.w) && o.w.lineage.Keys == o.w.rows.Keys
    && forall s | s in o.inFlight :: LoadedOk(env, o.w, o.inFlight[s])
  }

  /** No row is deleted, no digest or expiry changes, and a revoked row stays revoked, if not since the same
      time. */
  predicate Kept(before: Rows, after: Rows) {
    forall id | id in before ::
      && id in after && after[id].digest == before[id].digest && after[id].expires == before[id].expires
      && (before[id].revokedAt.Some? ==> after[id].revokedAt.Some?)
  }

  lemma SpentIsKept(before: Rows, after: Rows, digest: Digest)
    requires Kept(before, after) && Spent(before, digest)
    ensures Spent(after, digest)
  {
    var id :| id in before && before[id].digest == digest && before[id].revokedAt.Some?;
    assert after[id].digest == digest;
  }

  lemma CommittedKeeps(env: Env, w: World, l: Loaded, minted: Minted)
    requires l.id in w.rows && l.id in w.lineage && Insertable(env, w.rows, minted)
    ensures Kept(w.rows, Committed(env, w, l, minted).rows)
  {
  }

  lemma OApplyKeeps(env: Env, o: Overlap, step: OStep)
    requires OInv(env, o)
    ensures Kept(o.w.rows, OApply(env, o, step).w.rows)
  {
    if step.Whole? {
      ApplyPreserves(env, o.w, step.step);
    } else if Commits(env, o, step) {
      CommittedKeeps(env, o.w, o.inFlight[step.s], step.minted);
    }
  }

  lemma OApplyKeepsUnique(env: Env, o: Overlap, step: OStep)
    requires OInv(env, o)
    ensures UniqueDigests(OApply(env, o, step).w.rows)
  {
    if step.Whole? {
      ApplyKeepsUnique(env, o.w, step.step);
    } else if Commits(env, o, step) {
      var l, rows := o.inFlight[step.s], o.w.rows;
      RevokeKeepsUnique(rows, l.id, l.attempt.revokedAt);
      SameDigests(env, rows, l.id, l.attempt.revokedAt, step.minted);
      InsertKeepsUnique(env, Revoked(rows, l.id, l.attempt.revokedAt),
                        NewSession(env, rows[l.id].user, rows[l.id].ip, rows[l.id].agent, step.minted), step.minted);
    }
  }

  /** Redemptions are only appended; the new one, if any, is of a session now revoked. */
  lemma OApplyRedeems(env: Env, o: Overlap, step: OStep)
    requires OInv(env, o)
    ensures var (before, after) := (o.w.redeemed, OApply(env, o, step).w.redeemed);
            && (after == before || (|after| == |before| + 1 && after[..|before|] == before
                                    && Spent(OApply(env, o, step).w.rows, after[|before|])))
  {
    if step.Whole? && Redeems(env, o.w, step.step) {
      RedeemedNow(env, o.w, step.step);
    } else if Commits(env, o, step) {
      var l, after := o.inFlight[step.s], OApply(env, o, step).w;
      assert LoadedOk(env, o.w, l);
      assert l.id in after.rows && after.rows[l.id].digest == env.mac(l.token) && after.rows[l.id].revokedAt.Some?;
    }
  }

  lemma OApplyKeepsSpent(env: Env, o: Overlap, step: OStep)
    requires OInv(env, o)
    ensures AllSpent(OApply(env, o, step).w)
  {
    var after := OApply(env, o, step).w;
    OApplyKeeps(env, o, step);
    OApplyRedeems(env, o, step);
    forall i | 0 <= i < |after.redeemed|
      ensures Spent(after.rows, after.redeemed[i])
    {
      if i < |o.w.redeemed| {
        assert after.redeemed[i] == o.w.redeemed[i];
        SpentIsKept(o.w.rows, after.rows, o.w.redeemed[i]);
      }
    }
  }

  lemma OApplyKeepsLoaded(env: Env, o: Overlap, step: OStep, s: nat)
    requires OInv(env, o) && s in OApply(env, o, step).inFlight
    ensures LoadedOk(env, OApply(env, o, step).w, OApply(env, o, step).inFlight[s])
  {
    var after := OApply(env, o, step);
    OApplyKeeps(env, o, step);
    OApplyRedeems(env, o, step);
    if s in o.inFlight {
      assert LoadedOk(env, o.w, o.inFlight[s]);
      assert forall i | 0 <= i < |o.w.redeemed| :: after.w.redeemed[i] == o.w.redeemed[i];
    } else {
      LiveIsNotRedeemed(o.w, step.id);
    }
  }

  /** A session is live exactly when its token is not spent. */
  lemma SpentIffNotLive(rows: Rows, id: nat)
    requires UniqueDigests(rows) && id in rows
    ensures Spent(rows, rows[id].digest) <==> !Live(rows, id)
  {
  }

  /** The token of a live session has never been redeemed. */
  lemma LiveIsNotRedeemed(w: World, id: nat)
    requires UniqueDigests(w.rows) && AllSpent(w) && Live(w.rows, id)
    ensures forall i | 0 <= i < |w.redeemed| :: w.redeemed[i] != w.rows[id].digest
  {
    forall i | 0 <= i < |w.redeemed|
      ensures w.redeemed[i] != w.rows[id].digest
    {
      assert Spent(w.rows, w.redeemed[i]);
    }
  }

  lemma OApplyKeepsInv(env: Env, o: Overlap, step: OStep)
    requires OInv(env, o)
    ensures OInv(env, OApply(env, o, step))
  {
    OApplyKeepsUnique(env, o, step);
    OApplyKeepsSpent(env, o, step);
    forall s | s in OApply(env, o, step).inFlight
      ensures LoadedOk(env, OApply(env, o, step).w, OApply(env, o, step).inFlight[s])
    {
      OApplyKeepsLoaded(env, o, step, s);
    }
  }

  lemma {:induction false} OReachableInv(env: Env, steps: seq<OStep>)
    ensures OInv(env, ORun(env, NOTHING, steps))
  {
    if steps != [] {
      OReachableInv(env, steps[..|steps| - 1]);
      OApplyKeepsInv(env, ORun(env, NOTHING, steps[..|steps| - 1]), steps[|steps| - 1]);
    }
  }

  // ------------------------------------------------------------------ when overlapping is harmless

  /** The whole request a commit stands for. */
  function AsRequest(l: Loaded, minted: Minted): Step { Rotate(l.token, l.id, l.attempt, minted) }

  /** A commit is what the whole request would do now exactly when its row is still live, which the code could
      test in its UPDATE and does not. When it is not live the token is spent, by a refresh or by a logout, and
      no whole request of any kind leads from one table to the other. */
  lemma CommitIsARequestIffLive(env: Env, o: Overlap, step: OStep)
    requires OInv(env, o) && Commits(env, o, step)
    ensures var l := o.inFlight[step.s];
            && (Live(o.w.rows, l.id) <==> Redeems(env, o.w, AsRequest(l, step.minted)))
            && (Live(o.w.rows, l.id) <==> !Spent(o.w.rows, env.mac(l.token)))
            && (Live(o.w.rows, l.id) <==> OApply(env, o, step).w == Apply(env, o.w, AsRequest(l, step.minted)))
            && (Live(o.w.rows, l.id) <==> exists request :: Apply(env, o.w, request) == OApply(env, o, step).w)
  {
    var l, after := o.inFlight[step.s], OApply(env, o, step).w;
    assert LoadedOk(env, o.w, l);
    SpentIffNotLive(o.w.rows, l.id);
    assert after.redeemed == o.w.redeemed + [env.mac(l.token)];
    assert |after.redeemed| != |o.w.redeemed|;
    if Live(o.w.rows, l.id) {
      assert Apply(env, o.w, AsRequest(l, step.minted)) == after;
    }
    if request :| Apply(env, o.w, request) == after {
      RedeemedBySame(env, o.w, request, l);
    }
  }

  /** Only a refresh of its session redeems a token. */
  lemma RedeemedBySame(env: Env, w: World, request: Step, l: Loaded)
    requires UniqueDigests(w.rows) && RowWith(w.rows, l.id, env.mac(l.token))
    requires Apply(env, w, request).redeemed == w.redeemed + [env.mac(l.token)]
    ensures Live(w.rows, l.id)
  {
    assert |Apply(env, w, request).redeemed| != |w.redeemed|;
    assert Redeems(env, w, request);
    assert (w.redeemed + [env.mac(request.token)])[|w.redeemed|] == (w.redeemed + [env.mac(l.token)])[|w.redeemed|];
    assert request.id == l.id;
  }

  /** And a refresh that nothing interrupts is the whole request. */
  lemma RequestIsLoadAndCommit(env: Env, o: Overlap, s: nat, request: Step)
    requires Redeems(env, o.w, request) && s !in o.inFlight
    ensures var loaded := OApply(env, o, Load(s, request.token, request.id, request.attempt));
            OApply(env, loaded, Commit(s, request.minted)).w == Apply(env, o.w, request)
  {
  }

  /** A commit, or giving up, ends its refresh and no other: none commits twice on one load. */
  lemma CommitEndsTheRefresh(env: Env, o: Overlap, s: nat, minted: Minted)
    ensures OApply(env, o, Commit(s, minted)).inFlight.Keys == o.inFlight.Keys - {s}
    ensures OApply(env, o, Drop(s)).inFlight.Keys == o.inFlight.Keys - {s} && OApply(env, o, Drop(s)).w == o.w
    ensures forall r | r in o.inFlight && r != s :: OApply(env, o, Commit(s, minted)).inFlight[r] == o.inFlight[r]
  {
  }

  predicate CommitsRevoked(env: Env, o: Overlap, step: OStep) {
    Commits(env, o, step) && !Live(o.w.rows, o.inFlight[step.s].id)
  }

  /** Every commit of the run finds its row still live. */
  predicate CommitsFindLive(env: Env, steps: seq<OStep>)
  {
    steps == []
    || (CommitsFindLive(env, steps[..|steps| - 1])
        && !CommitsRevoked(env, ORun(env, NOTHING, steps[..|steps| - 1]), steps[|steps| - 1]))
  }

  function RequestOf(env: Env, o: Overlap, step: OStep): seq<Step>
  {
    if step.Whole? then [step.step]
    else if Commits(env, o, step) then [AsRequest(o.inFlight[step.s], step.minted)]
    else []
  }

  /** The run with each refresh moved to its commit. */
  function Requests(env: Env, steps: seq<OStep>): seq<Step>
  {
    if steps == [] then []
    else
      Requests(env, steps[..|steps| - 1])
      + RequestOf(env, ORun(env, NOTHING, steps[..|steps| - 1]), steps[|steps| - 1])
  }

  /** The overlapped run is where the whole requests alone would be. */
  function SerializedAt(env: Env): seq<OStep> -> bool
  {
    (steps: seq<OStep>) => After(env, steps) == Run(env, EMPTY, Requests(env, steps))
  }

  /** An overlapped run is, at every point, a run of whole requests, so that everything proved of those holds of
      it, exactly when every commit finds its row still live. */
  lemma {:induction false} SerializesIffCommitsFindLive(env: Env, steps: seq<OStep>)
    ensures AtEveryPoint(SerializedAt(env), steps) <==> CommitsFindLive(env, steps)
  {
    AtEveryPointSplits(SerializedAt(env), steps);
    if steps != [] {
      SerializesIffCommitsFindLive(env, steps[..|steps| - 1]);
      AtEveryPointSplits(SerializedAt(env), steps[..|steps| - 1]);
      if CommitsFindLive(env, steps[..|steps| - 1]) {
        LastSerializes(env, steps);
      }
    }
  }

  lemma LastSerializes(env: Env, steps: seq<OStep>)
    requires steps != []
    requires After(env, steps[..|steps| - 1]) == Run(env, EMPTY, Requests(env, steps[..|steps| - 1]))
    ensures After(env, steps) == Run(env, EMPTY, Requests(env, steps))
       <==> !CommitsRevoked(env, ORun(env, NOTHING, steps[..|steps| - 1]), steps[|steps| - 1])
  {
    var front, step := steps[..|steps| - 1], steps[|steps| - 1];
    var o := ORun(env, NOTHING, front);
    OReachableInv(env, front);
    RunConcat(env, EMPTY, Requests(env, front), RequestOf(env, o, step));
    if step.Whole? {
      RunOne(env, o.w, step.step);
    } else if Commits(env, o, step) {
      RunOne(env, o.w, AsRequest(o.inFlight[step.s], step.minted));
      CommitIsARequestIffLive(env, o, step);
    }
  }

  lemma RunOne(env: Env, w: World, step: Step)
    ensures Run(env, w, [step]) == Apply(env, w, step)
  {
    assert [step][..0] == [];
  }

  /** So such a run keeps the results about whole requests. */
  lemma LiveCommitsKeepInv(env: Env, steps: seq<OStep>)
    requires CommitsFindLive(env, steps)
    ensures Inv(After(env, steps))
  {
    SerializesIffCommitsFindLive(env, steps);
    AtEveryPointSplits(SerializedAt(env), steps);
    ReachableInv(env, Requests(env, steps));
  }

  // ------------------------------------------------------------------ spent tokens

  /** The last step, if it redeems a token, redeems one that was not spent. */
  function RedeemedUnspentAt(env: Env): seq<OStep> -> bool
  {
    (steps: seq<OStep>) => steps != [] ==> RedeemsUnspent(After(env, steps[..|steps| - 1]), After(env, steps))
  }

  predicate RedeemsUnspent(before: World, after: World) {
    |after.redeemed| > |before.redeemed| ==> !Spent(before.rows, after.redeemed[|before.redeemed|])
  }

  /** Tokens that were refreshed or logged out are never redeemed, in exactly the runs whose commits find their
      row live. */
  lemma {:induction false} RedeemsUnspentIffCommitsFindLive(env: Env, steps: seq<OStep>)
    ensures AtEveryPoint(RedeemedUnspentAt(env), steps) <==> CommitsFindLive(env, steps)
  {
    AtEveryPointSplits(RedeemedUnspentAt(env), steps);
    if steps != [] {
      var front := steps[..|steps| - 1];
      RedeemsUnspentIffCommitsFindLive(env, front);
      OReachableInv(env, front);
      LastRedeemsUnspent(env, ORun(env, NOTHING, front), steps[|steps| - 1]);
    }
  }

  lemma LastRedeemsUnspent(env: Env, o: Overlap, step: OStep)
    requires OInv(env, o)
    ensures RedeemsUnspent(o.w, OApply(env, o, step).w) <==> !CommitsRevoked(env, o, step)
  {
    if Commits(env, o, step) {
      CommitIsARequestIffLive(env, o, step);
    } else if step.Whole? && Redeems(env, o.w, step.step) {
      RedeemedNow(env, o.w, step.step);
    }
  }

  /** Once a token is spent no request finds it redeemable; only a refresh that had loaded it before, and is
      still in flight, can commit. */
  lemma {:induction false} SpentTokenIsOnlyInFlight(env: Env, steps: seq<OStep>, more: seq<OStep>, token: string)
    requires Spent(After(env, steps).rows, env.mac(token))
    ensures var (o, o') := (ORun(env, NOTHING, steps), ORun(env, ORun(env, NOTHING, steps), more));
            && OInv(env, o') && Spent(o'.w.rows, env.mac(token))
            && (forall step: Step | step.Rotate? && step.token == token :: !Redeems(env, o'.w, step))
            && forall s | s in o'.inFlight && o'.inFlight[s].token == token ::
                 s in o.inFlight && o.inFlight[s] == o'.inFlight[s]
  {
    var o := ORun(env, NOTHING, steps);
    if more == [] {
      OReachableInv(env, steps);
    } else {
      var front, step := more[..|more| - 1], more[|more| - 1];
      SpentTokenIsOnlyInFlight(env, steps, front, token);
      var before := ORun(env, o, front);
      OApplyKeepsInv(env, before, step);
      OApplyKeeps(env, before, step);
      SpentIsKept(before.w.rows, OApply(env, before, step).w.rows, env.mac(token));
      SpentIsNotLoaded(env, before, step, token);
    }
  }

  lemma SpentIsNotLoaded(env: Env, o: Overlap, step: OStep, token: string)
    requires OInv(env, o) && Spent(o.w.rows, env.mac(token))
    ensures forall s | s in OApply(env, o, step).inFlight && OApply(env, o, step).inFlight[s].token == token ::
              s in o.inFlight && o.inFlight[s] == OApply(env, o, step).inFlight[s]
  {
  }

  // ------------------------------------------------------------------ revocation times

  /** A step of an overlapped run keeps every revocation as it was, time included, exactly when it does not
      commit a refresh of a row that was revoked at another time. */
  lemma RevocationsKeptIff(env: Env, o: Overlap, step: OStep)
    requires OInv(env, o)
    ensures Preserved(o.w.rows, OApply(env, o, step).w.rows) <==>
            !CommitsRevoked(env, o, step)
            || o.w.rows[o.inFlight[step.s].id].revokedAt == Some(o.inFlight[step.s].attempt.revokedAt)
  {
    if step.Whole? {
      ApplyPreserves(env, o.w, step.step);
    } else if Commits(env, o, step) {
      CommittedRevokes(env, o.w, o.inFlight[step.s], step.minted);
    }
  }

  lemma CommittedRevokes(env: Env, w: World, l: Loaded, minted: Minted)
    requires l.id in w.rows && l.id in w.lineage && Insertable(env, w.rows, minted)
    ensures Preserved(w.rows, Committed(env, w, l, minted).rows) <==>
            Live(w.rows, l.id) || w.rows[l.id].revokedAt == Some(l.attempt.revokedAt)
  {
    var after := Committed(env, w, l, minted).rows;
    assert after[l.id].revokedAt == Some(l.attempt.revokedAt);
  }

  // ------------------------------------------------------------------ live sessions of a lineage

  /** The commit inserts a live session beside another one of its lineage. */
  predicate CommitsBesideLive(env: Env, o: Overlap, step: OStep) {
    && Commits(env, o, step)
    && exists other | other in o.w.rows ::
         && other != o.inFlight[step.s].id && Live(o.w.rows, other)
         && other in o.w.lineage && o.w.lineage[other] == o.w.lineage[o.inFlight[step.s].id]
  }

  /** Exactly when a step leaves a lineage with two live sessions. */
  lemma OneLiveAfterIff(env: Env, o: Overlap, step: OStep)
    requires OInv(env, o) && OneLivePerLineage(o.w)
    ensures OneLivePerLineage(OApply(env, o, step).w) <==> !CommitsBesideLive(env, o, step)
  {
    if step.Whole? {
      ApplyKeepsLineages(env, o.w, step.step);
    } else if CommitsBesideLive(env, o, step) {
      BesideLiveBreaks(env, o, step);
    } else if Commits(env, o, step) {
      AloneKeepsLineages(env, o, step);
    }
  }

  lemma BesideLiveBreaks(env: Env, o: Overlap, step: OStep)
    requires OInv(env, o) && CommitsBesideLive(env, o, step)
    ensures !OneLivePerLineage(OApply(env, o, step).w)
  {
    var l, after := o.inFlight[step.s], OApply(env, o, step).w;
    var other :| && other in o.w.rows && other != l.id && Live(o.w.rows, other)
                 && other in o.w.lineage && o.w.lineage[other] == o.w.lineage[l.id];
    assert Live(after.rows, other) && Live(after.rows, step.minted.id) && other != step.minted.id;
  }

  lemma AloneKeepsLineages(env: Env, o: Overlap, step: OStep)
    requires OInv(env, o) && OneLivePerLineage(o.w) && Commits(env, o, step) && !CommitsBesideLive(env, o, step)
    ensures OneLivePerLineage(OApply(env, o, step).w)
  {
    var l := o.inFlight[step.s];
    assert forall other | other in o.w.rows && other != l.id && o.w.lineage[other] == o.w.lineage[l.id] ::
        !Live(o.w.rows, other);
    RotatedKeepsLineages(env, o.w, l.id, l.attempt, step.minted);
  }

  /** No commit of the run inserts a live session beside another one of its lineage. */
  predicate CommitsAlone(env: Env, steps: seq<OStep>)
  {
    steps == []
    || (CommitsAlone(env, steps[..|steps| - 1])
        && !CommitsBesideLive(env, ORun(env, NOTHING, steps[..|steps| - 1]), steps[|steps| - 1]))
  }

  function OneLiveAt(env: Env): seq<OStep> -> bool { (steps: seq<OStep>) => OneLivePerLineage(After(env, steps)) }

  /** In exactly these runs each lineage has at most one live session at every point. */
  lemma {:induction false} OneLiveIffCommitsAlone(env: Env, steps: seq<OStep>)
    ensures AtEveryPoint(OneLiveAt(env), steps) <==> CommitsAlone(env, steps)
  {
    AtEveryPointSplits(OneLiveAt(env), steps);
    if steps != [] {
      var front, step := steps[..|steps| - 1], steps[|steps| - 1];
      OneLiveIffCommitsAlone(env, front);
      AtEveryPointSplits(OneLiveAt(env), front);
      if CommitsAlone(env, front) {
        OReachableInv(env, front);
        OneLiveAfterIff(env, ORun(env, NOTHING, front), step);
      }
    }
  }

  // ------------------------------------------------------------------ tokens redeemed twice

  /** Since this refresh loaded its session, another one has redeemed it. */
  predicate Overtaken(env: Env, o: Overlap, s: nat)
    requires s in o.inFlight
  {
    exists i | 0 <= i < |o.w.redeemed| :: o.inFlight[s].at <= i && o.w.redeemed[i] == env.mac(o.inFlight[s].token)
  }

  /** A commit redeems a token again exactly when its refresh was overtaken by another; its row is then revoked.
      A row revoked by a logout instead is redeemed for the first time. */
  lemma RedeemsAgainIffOvertaken(env: Env, steps: seq<OStep>, s: nat)
    requires s in ORun(env, NOTHING, steps).inFlight
    ensures var o := ORun(env, NOTHING, steps);
            && (env.mac(o.inFlight[s].token) in o.w.redeemed <==> Overtaken(env, o, s))
            && (Overtaken(env, o, s) ==> !Live(o.w.rows, o.inFlight[s].id))
  {
    OReachableInv(env, steps);
    var o := ORun(env, NOTHING, steps);
    assert LoadedOk(env, o.w, o.inFlight[s]);
    if Live(o.w.rows, o.inFlight[s].id) {
      LiveIsNotRedeemed(o.w, o.inFlight[s].id);
    }
  }

  predicate NoRepeats(redeemed: seq<Digest>) { forall i, j | 0 <= i < j < |redeemed| :: redeemed[i] != redeemed[j] }

  predicate OvertakenCommit(env: Env, o: Overlap, step: OStep) { Commits(env, o, step) && Overtaken(env, o, step.s) }

  /** No refresh of the run commits after being overtaken. */
  predicate NoneOvertaken(env: Env, steps: seq<OStep>)
  {
    steps == []
    || (NoneOvertaken(env, steps[..|steps| - 1])
        && !OvertakenCommit(env, ORun(env, NOTHING, steps[..|steps| - 1]), steps[|steps| - 1]))
  }

  /** Exactly the runs in which each token is redeemed at most once. */
  lemma {:induction false} RedeemedOnceIffNoneOvertaken(env: Env, steps: seq<OStep>)
    ensures NoRepeats(After(env, steps).redeemed) <==> NoneOvertaken(env, steps)
  {
    if steps != [] {
      var front, step := steps[..|steps| - 1], steps[|steps| - 1];
      RedeemedOnceIffNoneOvertaken(env, front);
      OReachableInv(env, front);
      RepeatsAfter(env, front, step);
    }
  }

  lemma RepeatsAfter(env: Env, front: seq<OStep>, step: OStep)
    requires OInv(env, ORun(env, NOTHING, front))
    ensures var o := ORun(env, NOTHING, front);
            NoRepeats(OApply(env, o, step).w.redeemed) <==> NoRepeats(o.w.redeemed) && !OvertakenCommit(env, o, step)
  {
    var o := ORun(env, NOTHING, front);
    if Commits(env, o, step) {
      RedeemsAgainIffOvertaken(env, front, step.s);
      RepeatsWith(o.w.redeemed, env.mac(o.inFlight[step.s].token));
    } else if step.Whole? && Redeems(env, o.w, step.step) {
      LiveIsNotRedeemed(o.w, step.step.id);
      RepeatsWith(o.w.redeemed, env.mac(step.step.token));
    }
  }

  lemma RepeatsWith(redeemed: seq<Digest>, digest: Digest)
    ensures NoRepeats(redeemed + [digest]) <==> NoRepeats(redeemed) && digest !in redeemed
  {
    var longer := redeemed + [digest];
    assert forall i | 0 <= i < |redeemed| :: longer[i] == redeemed[i];
    assert longer[|redeemed|] == digest;
    if digest in redeemed {
      var i :| 0 <= i < |redeemed| && redeemed[i] == digest;
      assert longer[i] == longer[|redeemed|];
    }
  }

  // ------------------------------------------------------------------ the overlaps that show it

  /** A login, and a refresh of its session that has loaded and not yet committed. */
  function LoggedInAndLoaded(env: Env, user: nat, first: Minted, attempt: Attempt): Overlap
  {
    OApply(env, Overlap(Apply(env, EMPTY, Login(user, None, None, first)), map[]),
           Load(1, first.raw, first.id, attempt))
  }

  /** Two refreshes of one token that both load before either commits both succeed: the token is redeemed
      twice, and its lineage has two live sessions. */
  lemma OverlappingRefreshesBothSucceed(
    env: Env, user: nat, first: Minted, second: Minted, third: Minted, attempt: Attempt)
    requires first.id != second.id && first.id != third.id && second.id != third.id
    requires env.mac(first.raw) != env.mac(second.raw) && env.mac(first.raw) != env.mac(third.raw)
    requires env.mac(second.raw) != env.mac(third.raw)
    requires attempt.userActive && attempt.checkedAt < first.now + env.ttl
    ensures var loaded :=
            OApply(env, LoggedInAndLoaded(env, user, first, attempt), Load(2, first.raw, first.id, attempt));
            var o := OApply(env, OApply(env, loaded, Commit(1, second)), Commit(2, third));
            && o.w.redeemed == [env.mac(first.raw), env.mac(first.raw)]
            && Live(o.w.rows, second.id) && Live(o.w.rows, third.id)
            && second.id in o.w.lineage && third.id in o.w.lineage && o.w.lineage[second.id] == o.w.lineage[third.id]
  {
  }

  /** A refresh that loads before a logout and commits after it undoes the logout: it redeems the token of the
      revoked session, moves the time of its revocation, and leaves a live session. */
  lemma LogoutIsOvertakenByRefresh(env: Env, user: nat, first: Minted, second: Minted, attempt: Attempt, logoutAt: int)
    requires first.id != second.id && env.mac(first.raw) != env.mac(second.raw) && logoutAt != attempt.revokedAt
    requires attempt.userActive && attempt.checkedAt < first.now + env.ttl
    ensures var out := OApply(env, LoggedInAndLoaded(env, user, first, attempt), Whole(Logout(first.id, logoutAt)));
            var o := OApply(env, out, Commit(1, second));
            && first.id in out.w.rows && out.w.rows[first.id].revokedAt == Some(logoutAt)
            && Spent(out.w.rows, env.mac(first.raw)) && out.w.redeemed == []
            && o.w.redeemed == [env.mac(first.raw)] && Live(o.w.rows, second.id)
            && first.id in o.w.rows && o.w.rows[first.id].revokedAt == Some(attempt.revokedAt)
  {
    var out := OApply(env, LoggedInAndLoaded(env, user, first, attempt), Whole(Logout(first.id, logoutAt)));
    assert out.w.rows[first.id].digest == env.mac(first.raw);
    assert Insertable(env, out.w.rows, second);
  }
}
