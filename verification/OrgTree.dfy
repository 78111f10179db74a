/** Walks over the org-unit tree: the descendant closure, and the two upward searches. */
module OrgTree {
  import opened Common

  /** The org_units table: each unit's parent, if any. Nothing stops a parent chain from being cyclic, or
      from naming a unit that is not in the table. */
  type Parents = map<nat, Option<nat>>

  function ParentOf(parents: Parents, unit: Option<nat>): Option<nat>
  {
    if unit.Some? && unit.value in parents then parents[unit.value] else None
  }

  /** The k-th ancestor of a unit; the unit itself for k == 0. */
  function Ancestor(parents: Parents, unit: nat, k: nat): Option<nat>
  {
    if k == 0 then Some(unit) else ParentOf(parents, Ancestor(parents, unit, k - 1))
  }

  ghost predicate Reaches(parents: Parents, unit: nat, root: nat) {
    exists k: nat :: Ancestor(parents, unit, k) == Some(root)
  }

  lemma {:induction false} AncestorFromParent(parents: Parents, unit: nat, k: nat)
    requires unit in parents && parents[unit].Some?
    ensures Ancestor(parents, unit, k + 1) == Ancestor(parents, parents[unit].value, k)
  {
    if k > 0 {
      AncestorFromParent(parents, unit, k - 1);
    } else {
      assert Ancestor(parents, unit, 0) == Some(unit);
    }
  }

  lemma {:induction false} ChainEnds(parents: Parents, unit: nat, k: nat, n: nat)
    requires Ancestor(parents, unit, k).None? && k <= n
    ensures Ancestor(parents, unit, n).None?
  {
    if k < n {
      ChainEnds(parents, unit, k, n - 1);
    }
  }

  // ------------------------------------------------------------------ _descendants

  function ChildrenOf(parents: Parents, frontier: set<nat>): set<nat>
  {
    set u | u in parents && parents[u].Some? && parents[u].value in frontier
  }

  /** Breadth-first closure: exactly the units whose parent chain reaches the root, and the root. */
  method Descendants(parents: Parents, root: nat) returns (visited: set<nat>)
    ensures forall u :: u in visited <==> Reaches(parents, u, root)
  {
    visited := {root};
    var frontier := {root};
    assert Ancestor(parents, root, 0) == Some(root);
    while frontier != {}
      invariant root in visited && frontier <= visited <= parents.Keys + {root}
      invariant forall u | u in visited :: Reaches(parents, u, root)
      invariant forall u | u in ChildrenOf(parents, visited - frontier) :: u in visited
      decreases (parents.Keys + {root}) - visited, |frontier|
    {
      var next := ChildrenOf(parents, frontier) - visited;
      forall u | u in next
        ensures Reaches(parents, u, root)
      {
        ChildReaches(parents, u, root);
      }
      visited := visited + next;
      frontier := next;
    }
    forall u | Reaches(parents, u, root)
      ensures u in visited
    {
      var k: nat :| Ancestor(parents, u, k) == Some(root);
      ClosedContains(parents, visited, root, u, k);
    }
  }

  lemma ChildReaches(parents: Parents, unit: nat, root: nat)
    requires unit in parents && parents[unit].Some? && Reaches(parents, parents[unit].value, root)
    ensures Reaches(parents, unit, root)
  {
    var k: nat :| Ancestor(parents, parents[unit].value, k) == Some(root);
    AncestorFromParent(parents, unit, k);
  }

  lemma {:induction false} ClosedContains(parents: Parents, closed: set<nat>, root: nat, unit: nat, k: nat)
    requires root in closed && forall u | u in ChildrenOf(parents, closed) :: u in closed
    requires Ancestor(parents, unit, k) == Some(root)
    ensures unit in closed
    decreases k
  {
    if k > 0 {
      if unit !in parents || parents[unit].None? {
        assert Ancestor(parents, unit, 1) == ParentOf(parents, Ancestor(parents, unit, 0));
        ChainEnds(parents, unit, 1, k);
      } else {
        AncestorFromParent(parents, unit, k - 1);
        ClosedContains(parents, closed, root, parents[unit].value, k - 1);
      }
    }
  }

  // ------------------------------------------------------------------ scoped_org_units

  datatype Role =
    | SystemAdmin
    | FinanceAdmin
    | HRAdmin
    | ITSecurityAuditor
    | CompanyReviewer
    | FilingUnitManager
    | UplineReviewer

  const GLOBAL_ROLES: set<Role> := {SystemAdmin, FinanceAdmin, HRAdmin, ITSecurityAuditor}

  datatype ScopeSet = AllScopes | Units(units: set<nat>)

  /** Whether a user of these roles may see the unit: the most permissive role decides in the order global,
      company, filing unit, upline, so a filing-unit manager who is also an upline reviewer sees one unit. */
  ghost predicate MaySee(roles: set<Role>, home: Option<nat>, parents: Parents, companies: set<nat>, unit: nat) {
    if SystemAdmin in roles || FinanceAdmin in roles || HRAdmin in roles || ITSecurityAuditor in roles then true
    else if CompanyReviewer in roles then unit in companies
    else if FilingUnitManager in roles then home == Some(unit)
    else UplineReviewer in roles && home.Some? && Reaches(parents, unit, home.value)
  }

  method ScopedOrgUnits(roles: set<Role>, home: Option<nat>, parents: Parents, companies: set<nat>)
    returns (scope: ScopeSet)
    ensures scope.AllScopes? <==>
              SystemAdmin in roles || FinanceAdmin in roles || HRAdmin in roles || ITSecurityAuditor in roles
    ensures forall unit :: (scope.AllScopes? || unit in scope.units) <==> MaySee(roles, home, parents, companies, unit)
  {
    if roles * GLOBAL_ROLES != {} {
      var r :| r in roles * GLOBAL_ROLES;
      return AllScopes;
    }
    assert forall r | r in roles :: r !in GLOBAL_ROLES by {
      assert forall r | r in roles && r in GLOBAL_ROLES :: r in roles * GLOBAL_ROLES;
    }
    if CompanyReviewer in roles {
      return Units(companies);
    }
    if FilingUnitManager in roles {
      return Units(if home.Some? then {home.value} else {});
    }
    if UplineReviewer in roles {
      if home.None? {
        return Units({});
      }
      var d := Descendants(parents, home.value);
      return Units(d);
    }
    return Units({});
  }

  // ------------------------------------------------------------------ resolve_manager

  /** The chain's k-th member is a unit with an active user, and no earlier member is. */
  ghost predicate NearestManaged(parents: Parents, users: map<nat, seq<nat>>, unit: nat, k: nat) {
    && Managed(users, Ancestor(parents, unit, k))
    && forall j: nat | j < k :: !Managed(users, Ancestor(parents, unit, j))
  }

  /** users maps a unit id to its active users, in the order the query returns them. */
  predicate Managed(users: map<nat, seq<nat>>, unit: Option<nat>) {
    unit.Some? && unit.value in users && users[unit.value] != []
  }

  /** Finds a user of the nearest self-or-ancestor that has one, on cyclic chains too; None exactly when no
      member of the whole (possibly endless) chain has one. */
  method ResolveManager(parents: Parents, users: map<nat, seq<nat>>, unit: nat) returns (manager: Option<nat>)
    ensures manager.Some? ==> exists k: nat ::
      NearestManaged(parents, users, unit, k) && manager.value == users[Ancestor(parents, unit, k).value][0]
    ensures manager.None? <==> forall k: nat :: !Managed(users, Ancestor(parents, unit, k))
  {
    var visited: set<nat> := {};
    var current := Some(unit);
    ghost var k: nat := 0;
    while current.Some? && current.value !in visited
      invariant current == Ancestor(parents, unit, k)
      invariant visited <= parents.Keys
      invariant forall j: nat | j < k :: Ancestor(parents, unit, j).Some? && Ancestor(parents, unit, j).value in visited
      invariant forall v | v in visited :: exists j: nat | j < k :: Ancestor(parents, unit, j) == Some(v)
      invariant forall j: nat | j < k :: !Managed(users, Ancestor(parents, unit, j))
      decreases parents.Keys - visited
    {
      if Managed(users, current) {
        assert NearestManaged(parents, users, unit, k);
        return Some(users[current.value][0]);
      }
      if current.value !in parents {
        assert Ancestor(parents, unit, k + 1).None?;
        NothingBeyond(parents, users, unit, k);
        return None;
      }
      visited := visited + {current.value};
      current := parents[current.value];
      k := k + 1;
    }
    if current.None? {
      if k > 0 {
        NothingBeyond(parents, users, unit, k - 1);
      }
    } else {
      ghost var j: nat :| j < k && Ancestor(parents, unit, j) == current;
      CycleRepeats(parents, users, unit, j, k);
    }
    return None;
  }

  lemma NothingBeyond(parents: Parents, users: map<nat, seq<nat>>, unit: nat, k: nat)
    requires Ancestor(parents, unit, k + 1).None?
    requires forall j: nat | j <= k :: !Managed(users, Ancestor(parents, unit, j))
    ensures forall n: nat :: !Managed(users, Ancestor(parents, unit, n))
  {
    forall n: nat
      ensures !Managed(users, Ancestor(parents, unit, n))
    {
      if n > k {
        ChainEnds(parents, unit, k + 1, n);
      }
    }
  }

  /** Once the chain revisits a unit, everything after has been seen. */
  lemma CycleRepeats(parents: Parents, users: map<nat, seq<nat>>, unit: nat, j: nat, k: nat)
    requires j < k && Ancestor(parents, unit, j) == Ancestor(parents, unit, k)
    requires forall i: nat | i < k :: !Managed(users, Ancestor(parents, unit, i))
    ensures forall n: nat :: !Managed(users, Ancestor(parents, unit, n))
  {
    forall n: nat
      ensures !Managed(users, Ancestor(parents, unit, n))
    {
      var m := Fold(parents, unit, j, k, n);
    }
  }

  lemma {:induction false} Fold(parents: Parents, unit: nat, j: nat, k: nat, n: nat) returns (m: nat)
    requires j < k && Ancestor(parents, unit, j) == Ancestor(parents, unit, k)
    ensures m < k && Ancestor(parents, unit, m) == Ancestor(parents, unit, n)
  {
    if n < k {
      m := n;
    } else {
      var p := Fold(parents, unit, j, k, n - 1);
      assert Ancestor(parents, unit, p + 1) == Ancestor(parents, unit, n);
      m := if p + 1 == k then j else p + 1;
    }
  }

  // ------------------------------------------------------------------ _walk_uplines

  /** The k-th member of the chain is a unit on file that has reviewers. */
  predicate Reviewed(parents: Parents, reviewers: map<nat, seq<nat>>, unit: Option<nat>) {
    unit.Some? && unit.value in parents && unit.value in reviewers && reviewers[unit.value] != []
  }

  /** The walk stops at a proper ancestor that is missing, not on file, or has reviewers. */
  predicate StopsAt(parents: Parents, reviewers: map<nat, seq<nat>>, unit: nat, k: nat) {
    && k >= 1
    && var a := Ancestor(parents, unit, k);
       a.None? || a.value !in parents || Reviewed(parents, reviewers, a)
  }

  ghost predicate FirstStop(parents: Parents, reviewers: map<nat, seq<nat>>, unit: nat, k: nat) {
    StopsAt(parents, reviewers, unit, k) && forall j: nat | j < k :: !StopsAt(parents, reviewers, unit, j)
  }

  /** The reviewers a walk that stops at this ancestor returns. */
  function Found(parents: Parents, reviewers: map<nat, seq<nat>>, ancestor: Option<nat>): seq<nat> {
    if Reviewed(parents, reviewers, ancestor) then reviewers[ancestor.value] else []
  }

  /** The reviewers of the nearest proper ancestor on file that has any, or none when the chain ends first.
      The walk keeps no visited set: it terminates because the chain stops somewhere. */
  method WalkUplines(parents: Parents, reviewers: map<nat, seq<nat>>, unit: nat) returns (cc: seq<nat>)
    requires exists k: nat :: StopsAt(parents, reviewers, unit, k)
    ensures exists k: nat ::
      FirstStop(parents, reviewers, unit, k) && cc == Found(parents, reviewers, Ancestor(parents, unit, k))
    ensures exists turns: nat :: WalkFor(parents, reviewers, unit, turns) == Some(cc)
  {
    ghost var stop: nat :| StopsAt(parents, reviewers, unit, stop);
    var current := if unit in parents then Some(unit) else None;
    ghost var k: nat := 0;
    while current.Some? && parents[current.value].Some?
      invariant current.Some? ==> current.value in parents && current == Ancestor(parents, unit, k)
      invariant current.None? ==> unit !in parents && k == 0
      invariant forall j: nat | j <= k :: !StopsAt(parents, reviewers, unit, j)
      decreases stop - k
    {
      assert k < stop;
      var parent := parents[current.value];
      assert parent == Ancestor(parents, unit, k + 1);
      if parent.value !in parents {
        WalkForFinds(parents, reviewers, unit, k + 1);
        return [];
      }
      if parent.value in reviewers && reviewers[parent.value] != [] {
        WalkForFinds(parents, reviewers, unit, k + 1);
        return reviewers[parent.value];
      }
      current := parent;
      k := k + 1;
    }
    assert Ancestor(parents, unit, k + 1).None?;
    WalkForFinds(parents, reviewers, unit, k + 1);
    return [];
  }

  /** The same walk cut off after some turns: None while it is still going. */
  function WalkFor(parents: Parents, reviewers: map<nat, seq<nat>>, current: nat, turns: nat): Option<seq<nat>>
    decreases turns
  {
    var parent := ParentOf(parents, Some(current));
    if parent.None? || parent.value !in parents then Some([])
    else if Reviewed(parents, reviewers, parent) then Some(reviewers[parent.value])
    else if turns == 0 then None
    else WalkFor(parents, reviewers, parent.value, turns - 1)
  }

  /** The cut-off walk finds what WalkUplines finds, as soon as it is given turns enough. */
  lemma {:induction false} WalkForFinds(parents: Parents, reviewers: map<nat, seq<nat>>, unit: nat, k: nat)
    requires FirstStop(parents, reviewers, unit, k)
    ensures WalkFor(parents, reviewers, unit, k - 1) == Some(Found(parents, reviewers, Ancestor(parents, unit, k)))
    decreases k
  {
    var parent := ParentOf(parents, Some(unit));
    assert Ancestor(parents, unit, 1) == ParentOf(parents, Ancestor(parents, unit, 0)) == parent;
    if k > 1 {
      assert !StopsAt(parents, reviewers, unit, 1);
      forall j: nat
        ensures Ancestor(parents, unit, j + 1) == Ancestor(parents, parent.value, j)
      {
        AncestorFromParent(parents, unit, j);
      }
      forall j: nat | j < k - 1
        ensures !StopsAt(parents, reviewers, parent.value, j)
      {
        assert !StopsAt(parents, reviewers, unit, j + 1);
      }
      assert FirstStop(parents, reviewers, parent.value, k - 1);
      WalkForFinds(parents, reviewers, parent.value, k - 1);
    }
  }

  /** Cut off after n turns the walk is finished if and only if the chain stops within n + 1 ancestors. */
  lemma {:induction false} WalkFinishesIffStops(parents: Parents, reviewers: map<nat, seq<nat>>, unit: nat, turns: nat)
    ensures WalkFor(parents, reviewers, unit, turns).Some?
       <==> exists k: nat | k <= turns + 1 :: StopsAt(parents, reviewers, unit, k)
    decreases turns
  {
    var parent := ParentOf(parents, Some(unit));
    assert Ancestor(parents, unit, 1) == ParentOf(parents, Ancestor(parents, unit, 0)) == parent;
    if StopsAt(parents, reviewers, unit, 1) {
    } else if turns == 0 {
      assert forall k: nat | k <= 1 :: !StopsAt(parents, reviewers, unit, k);
    } else {
      WalkFinishesIffStops(parents, reviewers, parent.value, turns - 1);
      forall k: nat
        ensures Ancestor(parents, unit, k + 1) == Ancestor(parents, parent.value, k)
      {
        AncestorFromParent(parents, unit, k);
      }
      if k: nat :| k <= turns && StopsAt(parents, reviewers, parent.value, k) {
        assert StopsAt(parents, reviewers, unit, k + 1);
      }
      if k: nat :| k <= turns + 1 && StopsAt(parents, reviewers, unit, k) {
        assert k > 1;
        assert StopsAt(parents, reviewers, parent.value, k - 1);
      }
    }
  }

  /** Two units that are each other's parent and have no reviewers: the walk is still going after any number
      of turns. */
  lemma {:induction false} CyclicWalkNeverEnds(turns: nat)
    ensures var parents: Parents := map[1 := Some(2), 2 := Some(1)];
            WalkFor(parents, map[], 1, turns) == None && WalkFor(parents, map[], 2, turns) == None
  {
    if turns > 0 {
      CyclicWalkNeverEnds(turns - 1);
    }
  }

  /** The walk ends at all exactly when the chain stops within one more ancestor than there are units, which
      can be seen from the table before walking. */
  lemma WalkEndsIffStopsSoon(parents: Parents, reviewers: map<nat, seq<nat>>, unit: nat)
    ensures (exists turns: nat :: WalkFor(parents, reviewers, unit, turns).Some?)
       <==> StopsSoon(parents, reviewers, unit)
  {
    if turns: nat :| WalkFor(parents, reviewers, unit, turns).Some? {
      WalkFinishesIffStops(parents, reviewers, unit, turns);
      var k: nat :| k <= turns + 1 && StopsAt(parents, reviewers, unit, k);
      StopsSoonOrNever(parents, reviewers, unit, k);
    }
    if StopsSoon(parents, reviewers, unit) {
      WalkFinishesIffStops(parents, reviewers, unit, |parents|);
    }
  }

  predicate StopsSoon(parents: Parents, reviewers: map<nat, seq<nat>>, unit: nat) {
    exists k: nat | k <= |parents| + 1 :: StopsAt(parents, reviewers, unit, k)
  }

  lemma {:induction false} FirstOf(parents: Parents, reviewers: map<nat, seq<nat>>, unit: nat, k: nat)
    returns (first: nat)
    requires StopsAt(parents, reviewers, unit, k)
    ensures first <= k && FirstStop(parents, reviewers, unit, first)
  {
    if j: nat :| j < k && StopsAt(parents, reviewers, unit, j) {
      first := FirstOf(parents, reviewers, unit, j);
    } else {
      first := k;
    }
  }

  /** Before its first stop a chain passes through units on file, each at most once. */
  lemma StopsSoonOrNever(parents: Parents, reviewers: map<nat, seq<nat>>, unit: nat, k: nat)
    requires StopsAt(parents, reviewers, unit, k)
    ensures StopsSoon(parents, reviewers, unit)
  {
    var first := FirstOf(parents, reviewers, unit, k);
    if first > 1 {
      assert !StopsAt(parents, reviewers, unit, 1);
      var parent := Ancestor(parents, unit, 1).value;
      PassedAreDistinct(parents, reviewers, unit, parent, first);
      DistinctMembers(parents, parent, first - 1);
      Smaller(Members(parents, parent, first - 1), parents.Keys);
    }
  }

  lemma PassedAreDistinct(parents: Parents, reviewers: map<nat, seq<nat>>, unit: nat, parent: nat, first: nat)
    requires FirstStop(parents, reviewers, unit, first) && Ancestor(parents, unit, 1) == Some(parent)
    ensures DistinctChain(parents, parent, first - 1)
    ensures forall i: nat | i < first - 1 :: Ancestor(parents, parent, i).value in parents
  {
    forall i: nat
      ensures Ancestor(parents, unit, i + 1) == Ancestor(parents, parent, i)
    {
      AncestorSum(parents, unit, 1, i);
    }
    forall i: nat | i < first - 1
      ensures Ancestor(parents, parent, i).Some? && Ancestor(parents, parent, i).value in parents
    {
      assert !StopsAt(parents, reviewers, unit, i + 1);
    }
    assert forall m: nat | m < first - 1 ::
             Ancestor(parents, parent, m) == Ancestor(parents, unit, m + 1)
                 && !StopsAt(parents, reviewers, unit, m + 1);
    forall i: nat, j: nat | i < j < first - 1
      ensures Ancestor(parents, parent, i) != Ancestor(parents, parent, j)
    {
      if Ancestor(parents, parent, i) == Ancestor(parents, parent, j) {
        var m := Fold(parents, parent, i, j, first - 1);
      }
    }
  }

  ghost predicate Acyclic(parents: Parents) {
    forall u: nat, k: nat | k >= 1 :: Ancestor(parents, u, k) != Some(u)
  }

  lemma {:induction false} AncestorSum(parents: Parents, unit: nat, j: nat, k: nat)
    requires Ancestor(parents, unit, j).Some?
    ensures Ancestor(parents, unit, j + k) == Ancestor(parents, Ancestor(parents, unit, j).value, k)
  {
    if k > 0 {
      AncestorSum(parents, unit, j, k - 1);
    }
  }

  /** The first n members of a chain. */
  ghost function Members(parents: Parents, unit: nat, n: nat): set<nat>
  {
    set i: nat | i < n && Ancestor(parents, unit, i).Some? :: Ancestor(parents, unit, i).value
  }

  /** The chain has n members and they are all different. */
  ghost predicate DistinctChain(parents: Parents, unit: nat, n: nat) {
    && (forall i: nat | i < n :: Ancestor(parents, unit, i).Some?)
    && forall i: nat, j: nat | i < j < n :: Ancestor(parents, unit, i) != Ancestor(parents, unit, j)
  }

  lemma {:induction false} Smaller(a: set<nat>, b: set<nat>)
    requires a <= b
    ensures |a| <= |b|
  {
    assert b == a + (b - a);
  }

  lemma {:induction false} DistinctMembers(parents: Parents, unit: nat, n: nat)
    requires DistinctChain(parents, unit, n)
    ensures |Members(parents, unit, n)| == n
  {
    if n == 0 {
      assert Members(parents, unit, 0) == {};
    } else {
      DistinctMembers(parents, unit, n - 1);
      MembersStep(parents, unit, n);
    }
  }

  lemma MembersStep(parents: Parents, unit: nat, n: nat)
    requires n > 0 && DistinctChain(parents, unit, n)
    ensures Ancestor(parents, unit, n - 1).value !in Members(parents, unit, n - 1)
    ensures Members(parents, unit, n) == Members(parents, unit, n - 1) + {Ancestor(parents, unit, n - 1).value}
  {
    assert forall i: nat | i < n - 1 :: Ancestor(parents, unit, i) != Ancestor(parents, unit, n - 1);
  }

  /** On an acyclic table every walk ends. */
  lemma AcyclicChainsStop(parents: Parents, reviewers: map<nat, seq<nat>>, unit: nat)
    requires Acyclic(parents)
    ensures StopsSoon(parents, reviewers, unit)
  {
    var all := parents.Keys + {unit};
    assert |all| <= |parents| + 1;
    var n := |parents| + 2;
    if !StopsSoon(parents, reviewers, unit) {
      PassedAreOnFile(parents, reviewers, unit);
      AcyclicIsDistinct(parents, unit, n);
      DistinctMembers(parents, unit, n);
      Smaller(Members(parents, unit, n), all);
    }
  }

  lemma PassedAreOnFile(parents: Parents, reviewers: map<nat, seq<nat>>, unit: nat)
    requires !StopsSoon(parents, reviewers, unit)
    ensures forall i: nat | i < |parents| + 2 ::
              Ancestor(parents, unit, i).Some? && Ancestor(parents, unit, i).value in parents.Keys + {unit}
  {
    assert Ancestor(parents, unit, 0) == Some(unit);
    forall i: nat | i < |parents| + 2
      ensures Ancestor(parents, unit, i).Some? && Ancestor(parents, unit, i).value in parents.Keys + {unit}
    {
      assert !StopsAt(parents, reviewers, unit, i);
    }
  }

  lemma AcyclicIsDistinct(parents: Parents, unit: nat, n: nat)
    requires Acyclic(parents) && forall i: nat | i < n :: Ancestor(parents, unit, i).Some?
    ensures DistinctChain(parents, unit, n)
  {
    forall i: nat, j: nat | i < j < n
      ensures Ancestor(parents, unit, i) != Ancestor(parents, unit, j)
    {
      AncestorSum(parents, unit, i, j - i);
    }
  }

  // ------------------------------------------------------------------ _resolve_recipients

  /** An active user, with the address its ciphertext decodes to, if it does. */
  datatype User = User(id: nat, unit: Option<nat>, roles: set<Role>, email: Option<string>)

  /** Who may be copied on a reminder. */
  const UPLINE_ROLES: set<Role> := {UplineReviewer, FinanceAdmin}

  predicate IsReviewer(u: User) { u.unit.Some? && (UplineReviewer in u.roles || FinanceAdmin in u.roles) }

  lemma RolesMeet(roles: set<Role>)
    ensures roles * UPLINE_ROLES != {} <==> UplineReviewer in roles || FinanceAdmin in roles
    ensures roles * GLOBAL_ROLES != {} <==>
              SystemAdmin in roles || FinanceAdmin in roles || HRAdmin in roles || ITSecurityAuditor in roles
  {
    if r :| r in roles * UPLINE_ROLES {
    }
    assert UplineReviewer in roles ==> UplineReviewer in roles * UPLINE_ROLES;
    assert FinanceAdmin in roles ==> FinanceAdmin in roles * UPLINE_ROLES && FinanceAdmin in roles * GLOBAL_ROLES;
    if r :| r in roles * GLOBAL_ROLES {
    }
    assert SystemAdmin in roles ==> SystemAdmin in roles * GLOBAL_ROLES;
    assert HRAdmin in roles ==> HRAdmin in roles * GLOBAL_ROLES;
    assert ITSecurityAuditor in roles ==> ITSecurityAuditor in roles * GLOBAL_ROLES;
  }

  /** The reviewers of each unit, in query order. */
  function ReviewersByUnit(users: seq<User>): map<nat, seq<nat>>
  {
    if users == [] then map[]
    else
      var rest, u := ReviewersByUnit(users[..|users| - 1]), users[|users| - 1];
      if !IsReviewer(u) then rest
      else rest[u.unit.value := (if u.unit.value in rest then rest[u.unit.value] else []) + [u.id]]
  }

  /** `reviewers_by_unit.setdefault(...).append(user)` */
  method IndexReviewers(users: seq<User>) returns (reviewers: map<nat, seq<nat>>)
    ensures reviewers == ReviewersByUnit(users)
    ensures forall unit: nat, id: nat :: unit in reviewers && id in reviewers[unit] <==> SomeReviewer(users, unit, id)
  {
    reviewers := map[];
    for i := 0 to |users|
      invariant reviewers == ReviewersByUnit(users[..i])
    {
      assert users[..i + 1][..i] == users[..i];
      var u := users[i];
      if u.unit.None? {
        continue;
      }
      RolesMeet(u.roles);
      if u.roles * UPLINE_ROLES == {} {
        continue;
      }
      var before := if u.unit.value in reviewers then reviewers[u.unit.value] else [];
      reviewers := reviewers[u.unit.value := before + [u.id]];
    }
    assert users[..|users|] == users;
    ReviewersAreIndexed(users);
  }

  predicate SomeReviewer(users: seq<User>, unit: nat, id: nat) {
    exists u | u in users :: IsReviewer(u) && u.unit == Some(unit) && u.id == id
  }

  lemma {:induction false} ReviewersAreIndexed(users: seq<User>)
    ensures forall unit: nat, id: nat ::
              unit in ReviewersByUnit(users) && id in ReviewersByUnit(users)[unit] <==> SomeReviewer(users, unit, id)
  {
    if users != [] {
      var front, last := users[..|users| - 1], users[|users| - 1];
      assert users == front + [last];
      ReviewersAreIndexed(front);
      forall unit: nat, id: nat
        ensures SomeReviewer(users, unit, id)
           <==> SomeReviewer(front, unit, id) || (IsReviewer(last) && last.unit == Some(unit) && last.id == id)
      {
      }
    }
  }

  function ReviewerOf(unit: nat): User -> bool { (u: User) => IsReviewer(u) && u.unit == Some(unit) }

  /** A unit's reviewers are listed in the order of the query. */
  lemma {:induction false} ReviewersInOrder(users: seq<User>, unit: nat)
    ensures var (listed, reviewers) := (ReviewersByUnit(users), Filter(ReviewerOf(unit), users));
            if unit in listed
            then |listed[unit]| == |reviewers| && forall i | 0 <= i < |reviewers| :: listed[unit][i] == reviewers[i].id
            else reviewers == []
  {
    if users != [] {
      var front, last := users[..|users| - 1], users[|users| - 1];
      assert users == front + [last];
      ReviewersInOrder(front, unit);
      FilterSnoc(ReviewerOf(unit), front, last);
    }
  }

  datatype Recipient = Recipient(user: nat, email: string, cc: seq<nat>)

  /** A user of one of the target units with an address. */
  function IsTarget(unitIds: set<nat>): User -> bool
  {
    (m: User) => m.unit.Some? && m.unit.value in unitIds && m.email.Some?
  }

  /** The reminder goes to the manager's own address, with the nearest reviewers above the unit in copy. */
  ghost predicate AddressedTo(parents: Parents, reviewers: map<nat, seq<nat>>, m: User, r: Recipient) {
    && m.unit.Some? && m.email.Some? && r.user == m.id && r.email == m.email.value
    && exists k: nat ::
      FirstStop(parents, reviewers, m.unit.value, k)
          && r.cc == Found(parents, reviewers, Ancestor(parents, m.unit.value, k))
  }

  ghost predicate AllAddressed(parents: Parents, reviewers: map<nat, seq<nat>>, targets: seq<User>,
                               recipients: seq<Recipient>) {
    && |recipients| == |targets|
    && forall i | 0 <= i < |targets| :: AddressedTo(parents, reviewers, targets[i], recipients[i])
  }

  lemma OneMoreAddressed(parents: Parents, reviewers: map<nat, seq<nat>>, targets: seq<User>,
                         recipients: seq<Recipient>,
                         m: User, r: Recipient)
    requires AllAddressed(parents, reviewers, targets, recipients) && AddressedTo(parents, reviewers, m, r)
    ensures AllAddressed(parents, reviewers, targets + [m], recipients + [r])
  {
  }

  /** One recipient per user of the target units that has an address, in order; users without are skipped,
      and a user without reviewers above is still a recipient. The walks it makes must end. */
  method ResolveRecipients(unitIds: set<nat>, users: seq<User>, parents: Parents) returns (recipients: seq<Recipient>)
    requires forall m | m in users && IsTarget(unitIds)(m) :: StopsSoon(parents, ReviewersByUnit(users), m.unit.value)
    ensures AllAddressed(parents, ReviewersByUnit(users), Filter(IsTarget(unitIds), users), recipients)
  {
    var reviewers := IndexReviewers(users);
    recipients := [];
    for i := 0 to |users|
      invariant AllAddressed(parents, reviewers, Filter(IsTarget(unitIds), users[..i]), recipients)
    {
      assert users[..i + 1] == users[..i] + [users[i]];
      FilterSnoc(IsTarget(unitIds), users[..i], users[i]);
      var m := users[i];
      if m.unit.None? || m.unit.value !in unitIds {
        continue;
      }
      if m.email.None? {
        continue;
      }
      assert StopsSoon(parents, reviewers, m.unit.value);
      var cc := WalkUplines(parents, reviewers, m.unit.value);
      var recipient := Recipient(m.id, m.email.value, cc);
      OneMoreAddressed(parents, reviewers, Filter(IsTarget(unitIds), users[..i]), recipients, m, recipient);
      recipients := recipients + [recipient];
    }
    assert users[..|users|] == users;
  }

  // ------------------------------------------------------------------ duality

  /** u is copied on the reminders about the unit: it is a reviewer of the unit the walk stops at. */
  ghost predicate IsCopied(parents: Parents, users: seq<User>, unit: nat, u: User) {
    && u in users && IsReviewer(u) && u.unit.value in parents
    && exists k: nat :: FirstStop(parents, ReviewersByUnit(users), unit, k) && Ancestor(parents, unit, k) == u.unit
  }

  /** The ids in copy are exactly those of such users. */
  lemma CopiedAreReviewers(parents: Parents, users: seq<User>, m: User, r: Recipient, id: nat)
    requires AddressedTo(parents, ReviewersByUnit(users), m, r)
    ensures id in r.cc <==> exists u | u in users :: u.id == id && IsCopied(parents, users, m.unit.value, u)
  {
    var reviewers, unit := ReviewersByUnit(users), m.unit.value;
    ReviewersAreIndexed(users);
    var k: nat :| FirstStop(parents, reviewers, unit, k)
        && r.cc == Found(parents, reviewers, Ancestor(parents, unit, k));
    var stop := Ancestor(parents, unit, k);
    if id in r.cc {
      assert SomeReviewer(users, stop.value, id);
    }
    if u :| u in users && u.id == id && IsCopied(parents, users, unit, u) {
      var j: nat :| FirstStop(parents, reviewers, unit, j) && Ancestor(parents, unit, j) == u.unit;
      assert j == k;
      assert SomeReviewer(users, u.unit.value, id);
    }
  }

  /** When a copied reviewer has the unit in scope. Climbing to the reviewer and closing its unit downwards
      are inverse, so an upline reviewer always has; but another role may narrow its scope, and it then sees
      the unit exactly as that role does. */
  predicate SeesCopied(u: User, companies: set<nat>, unit: nat) {
    || SystemAdmin in u.roles || FinanceAdmin in u.roles || HRAdmin in u.roles || ITSecurityAuditor in u.roles
    || (if CompanyReviewer in u.roles then unit in companies else FilingUnitManager !in u.roles || u.unit == Some(unit))
  }

  lemma CopiedReviewersMaySeeIff(parents: Parents, users: seq<User>, unit: nat, u: User, companies: set<nat>)
    requires IsCopied(parents, users, unit, u)
    ensures MaySee(u.roles, u.unit, parents, companies, unit) <==> SeesCopied(u, companies, unit)
  {
    var k: nat :| FirstStop(parents, ReviewersByUnit(users), unit, k) && Ancestor(parents, unit, k) == u.unit;
    assert Reaches(parents, unit, u.unit.value);
  }

  /** A reviewer of the unit above who also manages a filing unit, or also reviews a company elsewhere, is
      copied on reminders about a unit it may not see. */
  lemma CopiedWithoutScope(companies: set<nat>, other: Role)
    requires other == FilingUnitManager || (other == CompanyReviewer && 1 !in companies)
    ensures var parents: Parents := map[1 := Some(2), 2 := None];
            var u := User(7, Some(2), {UplineReviewer, other}, None);
            && IsCopied(parents, [u], 1, u)
            && !MaySee(u.roles, u.unit, parents, companies, 1)
  {
    var parents: Parents := map[1 := Some(2), 2 := None];
    var u := User(7, Some(2), {UplineReviewer, other}, None);
    assert [u][..|[u]| - 1] == [] && ReviewersByUnit([]) == map[] && IsReviewer(u);
    assert [] + [u.id] == [7];
    assert ReviewersByUnit([u]) == map[][2 := [] + [u.id]];
    assert Ancestor(parents, 1, 1) == ParentOf(parents, Ancestor(parents, 1, 0)) == Some(2);
    assert FirstStop(parents, ReviewersByUnit([u]), 1, 1);
  }

  /** Scopes nest: whatever a descendant's reviewer may see, the reviewer above it may see too. */
  lemma ScopesNest(parents: Parents, upper: nat, lower: nat, unit: nat)
    requires Reaches(parents, lower, upper) && Reaches(parents, unit, lower)
    ensures Reaches(parents, unit, upper)
  {
    var j: nat :| Ancestor(parents, unit, j) == Some(lower);
    var k: nat :| Ancestor(parents, lower, k) == Some(upper);
    AncestorSum(parents, unit, j, k);
  }
}
