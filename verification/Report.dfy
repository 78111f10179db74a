/** The consolidated report: an outer join of four amount maps, restricted to the caller's scope. */
module Report {
  import opened Common
  import opened Totals
  import DeltaPct
  import LatestTotals
  import Rounding

  /** (org unit id, account code id). Ids are UUIDs as 128-bit numbers: their canonical text is
      fixed-width lower-case hexadecimal, so text order is numeric order. */
  type Key = (nat, nat)

  datatype OrgUnit = OrgUnit(id: nat, name: string, level: string)

  datatype Account = Account(id: nat, code: string, name: string)

  datatype Scope = Scope(allScopes: bool, units: set<nat>)

  datatype Sources = Sources(budget: map<Key, int>, personnel: map<Key, int>, shared: map<Key, int>,
                             actuals: map<Key, int>)

  datatype Row = Row(
    unit: nat, unitName: string, accountCode: string, accountName: string,
    actual: Option<int>, operational: Option<int>, personnel: Option<int>, shared: Option<int>,
    delta: Option<int>, deltaPct: string, uploaded: bool)

  const AGGREGATE_LEVELS: set<string> := {"1000", "0800", "0500", "0000"}

  function Get(m: map<Key, int>, k: Key): Option<int> { if k in m then Some(m[k]) else None }

  predicate InScope(unit: nat, scope: Scope) { scope.allScopes || unit in scope.units }

  function AllKeys(src: Sources): set<Key>
  {
    src.budget.Keys + src.personnel.Keys + src.shared.Keys + src.actuals.Keys
  }

  /** SELECT org_units WHERE the scope permits; the empty scope selects nothing. */
  function FetchOrgUnits(units: seq<OrgUnit>, scope: Scope): seq<OrgUnit>
  {
    Filter(UnitIn(scope), units)
  }

  function UnitIn(scope: Scope): OrgUnit -> bool { (u: OrgUnit) => InScope(u.id, scope) }

  function UnitsById(units: seq<OrgUnit>): map<nat, OrgUnit>
    requires DistinctUnits(units)
  {
    map u | u in units :: u.id := u
  }

  predicate DistinctUnits(units: seq<OrgUnit>) {
    forall i, j | 0 <= i < j < |units| :: units[i].id != units[j].id
  }

  function BuildRow(unit: OrgUnit, account: Account, src: Sources): Row
  {
    var key := (unit.id, account.id);
    var operational, actual := Get(src.budget, key), Get(src.actuals, key);
    var aggregate := unit.level in AGGREGATE_LEVELS;
    var delta := if operational.Some? && actual.Some? then Some(operational.value - actual.value) else None;
    Row(unit.id, unit.name, account.code, account.name, actual, operational,
        if aggregate then Get(src.personnel, key) else None,
        if aggregate then Get(src.shared, key) else None,
        delta, DeltaPct.FormatDeltaPct(delta, actual), operational.Some?)
  }

  function Placeholder(unit: OrgUnit): Row
  {
    Row(unit.id, unit.name, "", "", None, None, None, None, None, "N/A", false)
  }

  // ------------------------------------------------------------------ sorted(keys)

  predicate Before(a: Key, b: Key) { a.0 < b.0 || (a.0 == b.0 && a.1 < b.1) }

  predicate StrictlySorted(s: seq<Key>) { forall i, j | 0 <= i < j < |s| :: Before(s[i], s[j]) }

  function InsertKey(k: Key, s: seq<Key>): (r: seq<Key>)
    requires StrictlySorted(s) && k !in s
    ensures StrictlySorted(r)
    ensures forall x :: x in r <==> x == k || x in s
  {
    if s == [] || Before(k, s[0]) then [k] + s
    else
      assert forall x | x in s[1..] :: Before(s[0], x);
      var tail := InsertKey(k, s[1..]);
      assert forall j | 0 <= j < |tail| :: tail[j] in tail && Before(s[0], tail[j]);
      [s[0]] + tail
  }

  ghost predicate IsSortOf(s: seq<Key>, keys: set<Key>) {
    StrictlySorted(s) && forall k :: k in s <==> k in keys
  }

  method SortKeys(keys: set<Key>) returns (s: seq<Key>)
    ensures IsSortOf(s, keys)
    ensures forall k :: k in s <==> k in keys
    ensures forall i, j | 0 <= i < j < |s| :: s[i].0 < s[j].0 || (s[i].0 == s[j].0 && s[i].1 < s[j].1)
  {
    s := [];
    var rest := keys;
    while rest != {}
      invariant rest <= keys
      invariant IsSortOf(s, keys - rest)
    {
      var k :| k in rest;
      s := InsertKey(k, s);
      rest := rest - {k};
    }
  }

  /** There is only one way to sort a set of keys. */
  lemma {:induction false} SortIsUnique(s: seq<Key>, t: seq<Key>)
    requires StrictlySorted(s) && StrictlySorted(t)
    requires forall k :: k in s <==> k in t
    ensures s == t
    decreases |s|
  {
    assert s != [] ==> s[0] in t;
    assert t != [] ==> t[0] in s;
    if s != [] {
      assert s[0] == t[0];
      assert s == [s[0]] + s[1..] && t == [t[0]] + t[1..];
      assert forall x | x in s[1..] :: Before(s[0], x) && x in t && x != t[0];
      assert forall x | x in t[1..] :: Before(t[0], x) && x in s && x != s[0];
      SortIsUnique(s[1..], t[1..]);
    }
  }

  // ------------------------------------------------------------------ the report

  predicate Known(k: Key, units: map<nat, OrgUnit>, accounts: map<nat, Account>) {
    k.0 in units && k.1 in accounts
  }

  /** The rows of the first pass over `keys`: unknown and out-of-scope keys are skipped. */
  function KeyRows(keys: seq<Key>, src: Sources, units: map<nat, OrgUnit>, accounts: map<nat, Account>,
                   scope: Scope): seq<Row>
  {
    if keys == [] then []
    else
      var k := keys[|keys| - 1];
      var rows := KeyRows(keys[..|keys| - 1], src, units, accounts, scope);
      if Known(k, units, accounts) && InScope(units[k.0].id, scope) then
        rows + [BuildRow(units[k.0], accounts[k.1], src)]
      else rows
  }

  /** The rows of the second pass: a placeholder for each in-scope unit without any budget key. */
  function PlaceholderRows(units: seq<OrgUnit>, src: Sources, scope: Scope): seq<Row>
  {
    if units == [] then []
    else
      var u := units[|units| - 1];
      var rows := PlaceholderRows(units[..|units| - 1], src, scope);
      if HasBudget(u.id, src) || !InScope(u.id, scope) then rows else rows + [Placeholder(u)]
  }

  predicate HasBudget(unit: nat, src: Sources) { exists k | k in src.budget.Keys :: k.0 == unit }

  /** The distinct account ids of the four maps, and the account rows they resolve to. */
  function CollectAccountIds(src: Sources): set<nat>
  {
    set k | k in AllKeys(src) :: k.1
  }

  function FetchAccounts(accounts: map<nat, Account>, ids: set<nat>): map<nat, Account>
  {
    map a | a in ids && a in accounts :: accounts[a]
  }

  function ReportOver(keys: seq<Key>, src: Sources, units: seq<OrgUnit>, accounts: map<nat, Account>,
                      scope: Scope): seq<Row>
    requires DistinctUnits(units)
  {
    FilterKeepsDistinct(units, scope);
    var fetched := FetchOrgUnits(units, scope);
    KeyRows(keys, src, UnitsById(fetched), FetchAccounts(accounts, CollectAccountIds(src)), scope)
    + PlaceholderRows(fetched, src, scope)
  }

  /** rows is the report over the unit table `units`, scanned in that physical order. */
  ghost predicate IsReport(rows: seq<Row>, src: Sources, units: seq<OrgUnit>, accounts: map<nat, Account>, scope: Scope)
    requires DistinctUnits(units)
  {
    exists keys :: IsSortOf(keys, AllKeys(src)) && rows == ReportOver(keys, src, units, accounts, scope)
  }

  function OtherUnits(): (OrgUnit, OrgUnit) -> bool { (a: OrgUnit, b: OrgUnit) => a.id != b.id }

  lemma FilterKeepsDistinct(units: seq<OrgUnit>, scope: Scope)
    requires DistinctUnits(units)
    ensures DistinctUnits(FetchOrgUnits(units, scope))
  {
    FilterKeepsPairwise(OtherUnits(), UnitIn(scope), units);
    assert Pairwise(OtherUnits(), FetchOrgUnits(units, scope));
  }

  class ReportService {
    var units: seq<OrgUnit>
    var accounts: map<nat, Account>

    method Build(src: Sources, scope: Scope) returns (rows: seq<Row>)
      requires DistinctUnits(units)
      ensures IsReport(rows, src, units, accounts, scope)
      ensures (forall id | id in accounts :: accounts[id].id == id) ==>
                exists included :: Reads(rows, included, src, units, accounts, scope)
    {
      var orgUnits := FetchOrgUnits(units, scope);
      FilterKeepsDistinct(units, scope);
      var accountsById := FetchAccounts(accounts, CollectAccountIds(src));
      var keys := SortKeys(AllKeys(src));
      rows := KeyPass(keys, src, UnitsById(orgUnits), accountsById, scope);
      rows := PlaceholderPass(rows, orgUnits, src, scope);
      assert rows == ReportOver(keys, src, units, accounts, scope);
      if forall id | id in accounts :: accounts[id].id == id {
        ghost var included := ReportReads(rows, src, units, accounts, scope);
      }
    }
  }

  method KeyPass(keys: seq<Key>, src: Sources, units: map<nat, OrgUnit>, accounts: map<nat, Account>, scope: Scope)
    returns (rows: seq<Row>)
    ensures rows == KeyRows(keys, src, units, accounts, scope)
  {
    rows := [];
    for i := 0 to |keys|
      invariant rows == KeyRows(keys[..i], src, units, accounts, scope)
    {
      assert keys[..i + 1][..i] == keys[..i];
      var k := keys[i];
      if !Known(k, units, accounts) {
        continue;
      }
      if !InScope(units[k.0].id, scope) {
        continue;
      }
      rows := rows + [BuildRow(units[k.0], accounts[k.1], src)];
    }
    assert keys[..|keys|] == keys;
  }

  method PlaceholderPass(keyRows: seq<Row>, orgUnits: seq<OrgUnit>, src: Sources, scope: Scope) returns (rows: seq<Row>)
    ensures rows == keyRows + PlaceholderRows(orgUnits, src, scope)
  {
    rows := keyRows;
    var uploadedUnits := set k | k in src.budget.Keys :: k.0;
    for i := 0 to |orgUnits|
      invariant rows == keyRows + PlaceholderRows(orgUnits[..i], src, scope)
    {
      assert orgUnits[..i + 1][..i] == orgUnits[..i];
      var unit := orgUnits[i];
      if unit.id in uploadedUnits {
        continue;
      }
      if !InScope(unit.id, scope) {
        continue;
      }
      rows := rows + [Placeholder(unit)];
    }
    assert orgUnits[..|orgUnits|] == orgUnits;
  }

  // ------------------------------------------------------------------ scope restriction

  function RowIn(scope: Scope): Row -> bool { (r: Row) => InScope(r.unit, scope) }

  const EVERYTHING: Scope := Scope(true, {})

  /** `some` holds the in-scope units of `all`. */
  ghost predicate Restricts(some: map<nat, OrgUnit>, all: map<nat, OrgUnit>, scope: Scope) {
    && (forall id | id in all :: all[id].id == id)
    && (forall id :: id in some <==> id in all && InScope(id, scope))
    && (forall id | id in some :: some[id] == all[id])
  }

  lemma FetchRestricts(units: seq<OrgUnit>, scope: Scope)
    requires DistinctUnits(units) && DistinctUnits(FetchOrgUnits(units, scope))
    ensures Restricts(UnitsById(FetchOrgUnits(units, scope)), UnitsById(units), scope)
  {
  }

  /** First pass: restricting the report is the same as reporting the restriction, row for row. */
  lemma {:induction false} KeyRowsRestrict(keys: seq<Key>, src: Sources, some: map<nat, OrgUnit>,
                                           all: map<nat, OrgUnit>,
                                           accounts: map<nat, Account>, scope: Scope)
    requires Restricts(some, all, scope)
    ensures KeyRows(keys, src, some, accounts, scope)
            == Filter(RowIn(scope), KeyRows(keys, src, all, accounts, EVERYTHING))
  {
    if keys != [] {
      var front, k := keys[..|keys| - 1], keys[|keys| - 1];
      KeyRowsRestrict(front, src, some, all, accounts, scope);
      if Known(k, all, accounts) {
        FilterSnoc(RowIn(scope), KeyRows(front, src, all, accounts, EVERYTHING),
                   BuildRow(all[k.0], accounts[k.1], src));
      }
    }
  }

  lemma PlaceholdersSnoc(units: seq<OrgUnit>, u: OrgUnit, src: Sources, scope: Scope)
    ensures PlaceholderRows(units + [u], src, scope)
         == PlaceholderRows(units, src, scope)
             + (if HasBudget(u.id, src) || !InScope(u.id, scope) then [] else [Placeholder(u)])
  {
    assert (units + [u])[..|units + [u]| - 1] == units;
  }

  lemma {:induction false} PlaceholdersRestrict(units: seq<OrgUnit>, src: Sources, scope: Scope)
    ensures PlaceholderRows(FetchOrgUnits(units, scope), src, scope)
         == Filter(RowIn(scope), PlaceholderRows(units, src, EVERYTHING))
  {
    if units != [] {
      var front, u := units[..|units| - 1], units[|units| - 1];
      assert units == front + [u];
      PlaceholdersRestrict(front, src, scope);
      FilterSnoc(UnitIn(scope), front, u);
      PlaceholdersSnoc(Filter(UnitIn(scope), front), u, src, scope);
      PlaceholdersSnoc(front, u, src, EVERYTHING);
      FilterSnoc(RowIn(scope), PlaceholderRows(front, src, EVERYTHING), Placeholder(u));
    }
  }

  function PlaceholderOf(src: Sources, scope: Scope): OrgUnit -> seq<Row>
  {
    (u: OrgUnit) => if HasBudget(u.id, src) || !InScope(u.id, scope) then [] else [Placeholder(u)]
  }

  lemma {:induction false} PlaceholdersAreFlat(units: seq<OrgUnit>, src: Sources, scope: Scope)
    ensures PlaceholderRows(units, src, scope) == FlatMap(PlaceholderOf(src, scope), units)
  {
    if units != [] {
      PlaceholdersAreFlat(units[..|units| - 1], src, scope);
    }
  }

  lemma PlaceholdersPermute(a: seq<OrgUnit>, b: seq<OrgUnit>, src: Sources, scope: Scope)
    requires multiset(a) == multiset(b)
    ensures multiset(PlaceholderRows(a, src, scope)) == multiset(PlaceholderRows(b, src, scope))
  {
    PlaceholdersAreFlat(a, src, scope);
    PlaceholdersAreFlat(b, src, scope);
    FlatMapPermutes(PlaceholderOf(src, scope), a, b);
  }

  lemma FetchEverything(units: seq<OrgUnit>)
    ensures FetchOrgUnits(units, EVERYTHING) == units
  {
    FilterAll(UnitIn(EVERYTHING), units);
  }

  /** The first pass does not depend on the physical order of the unit table. */
  lemma KeyPassRestricts(
    keys: seq<Key>, src: Sources, units: seq<OrgUnit>, allUnits: seq<OrgUnit>, accounts: map<nat, Account>,
    scope: Scope)
    requires DistinctUnits(units) && DistinctUnits(allUnits) && multiset(units) == multiset(allUnits)
    requires DistinctUnits(FetchOrgUnits(units, scope)) && DistinctUnits(FetchOrgUnits(allUnits, scope))
    ensures KeyRows(keys, src, UnitsById(FetchOrgUnits(units, scope)), accounts, scope)
         == Filter(RowIn(scope), KeyRows(keys, src, UnitsById(allUnits), accounts, EVERYTHING))
  {
    FetchRestricts(allUnits, scope);
    KeyRowsRestrict(keys, src, UnitsById(FetchOrgUnits(allUnits, scope)), UnitsById(allUnits), accounts, scope);
    SameMembers(units, allUnits);
    assert UnitsById(FetchOrgUnits(units, scope)) == UnitsById(FetchOrgUnits(allUnits, scope));
  }

  /** Nor does the second, up to the order of its rows. */
  lemma PlaceholderPassRestricts(src: Sources, units: seq<OrgUnit>, allUnits: seq<OrgUnit>, scope: Scope)
    requires multiset(units) == multiset(allUnits)
    ensures multiset(PlaceholderRows(FetchOrgUnits(units, scope), src, scope))
         == multiset(Filter(RowIn(scope), PlaceholderRows(allUnits, src, EVERYTHING)))
  {
    PlaceholdersRestrict(allUnits, src, scope);
    FilterPermutes(UnitIn(scope), units, allUnits);
    PlaceholdersPermute(FetchOrgUnits(units, scope), FetchOrgUnits(allUnits, scope), src, scope);
  }

  /** Building the report for a scope gives exactly the rows of the unrestricted report whose unit is in
      the scope, with the same multiplicities, in whatever order either run reads the unit table. */
  lemma ScopeRestriction(
    rows: seq<Row>, allRows: seq<Row>, src: Sources, units: seq<OrgUnit>, allUnits: seq<OrgUnit>,
    accounts: map<nat, Account>, scope: Scope)
    requires DistinctUnits(units) && DistinctUnits(allUnits) && multiset(units) == multiset(allUnits)
    requires IsReport(rows, src, units, accounts, scope)
    requires IsReport(allRows, src, allUnits, accounts, EVERYTHING)
    ensures multiset(rows) == multiset(Filter(RowIn(scope), allRows))
  {
    var keys :| IsSortOf(keys, AllKeys(src)) && rows == ReportOver(keys, src, units, accounts, scope);
    var allKeys :| IsSortOf(allKeys, AllKeys(src))
        && allRows == ReportOver(allKeys, src, allUnits, accounts, EVERYTHING);
    SortIsUnique(keys, allKeys);
    FetchEverything(allUnits);
    FilterKeepsDistinct(units, scope);
    FilterKeepsDistinct(allUnits, scope);
    var accountsById := FetchAccounts(accounts, CollectAccountIds(src));
    KeyPassRestricts(keys, src, units, allUnits, accountsById, scope);
    PlaceholderPassRestricts(src, units, allUnits, scope);
    var first := KeyRows(keys, src, UnitsById(allUnits), accountsById, EVERYTHING);
    var second := PlaceholderRows(allUnits, src, EVERYTHING);
    FilterAppend(RowIn(scope), first, second);
  }

  // ------------------------------------------------------------------ one row per key, one placeholder per unit

  function IncludedKeys(keys: seq<Key>, units: map<nat, OrgUnit>, accounts: map<nat, Account>, scope: Scope): seq<Key>
  {
    Filter(KeyIncluded(units, accounts, scope), keys)
  }

  function KeyIncluded(units: map<nat, OrgUnit>, accounts: map<nat, Account>, scope: Scope): Key -> bool
  {
    (k: Key) => Known(k, units, accounts) && InScope(units[k.0].id, scope)
  }

  lemma FilterKeepsSorted(p: Key -> bool, keys: seq<Key>)
    requires StrictlySorted(keys)
    ensures StrictlySorted(Filter(p, keys))
  {
    FilterKeepsPairwise(Before, p, keys);
    assert Pairwise(Before, Filter(p, keys));
  }

  lemma {:induction false} KeyRowsFollowKeys(keys: seq<Key>, src: Sources, units: map<nat, OrgUnit>,
                                             accounts: map<nat, Account>, scope: Scope)
    ensures var included := IncludedKeys(keys, units, accounts, scope);
            var rows := KeyRows(keys, src, units, accounts, scope);
            && |rows| == |included|
            && forall i | 0 <= i < |rows| ::
                 Known(included[i], units, accounts)
                     && rows[i] == BuildRow(units[included[i].0], accounts[included[i].1], src)
  {
    if keys != [] {
      var front, k := keys[..|keys| - 1], keys[|keys| - 1];
      assert keys == front + [k];
      KeyRowsFollowKeys(front, src, units, accounts, scope);
      FilterSnoc(KeyIncluded(units, accounts, scope), front, k);
    }
  }

  lemma {:induction false} PlaceholderPerUnit(units: seq<OrgUnit>, src: Sources, scope: Scope)
    requires DistinctUnits(units)
    ensures forall u | u in units :: multiset(PlaceholderRows(units, src, scope))[Placeholder(u)]
              == if InScope(u.id, scope) && !HasBudget(u.id, src) then 1 else 0
    ensures forall r | r in PlaceholderRows(units, src, scope) ::
              exists u | u in units :: r == Placeholder(u) && InScope(u.id, scope) && !HasBudget(u.id, src)
  {
    if units != [] {
      var front, last := units[..|units| - 1], units[|units| - 1];
      PlaceholderPerUnit(front, src, scope);
      var rows := PlaceholderRows(front, src, scope);
      assert Placeholder(last) !in rows by {
        assert forall u | u in front :: u.id != last.id;
      }
      assert forall u | u in units :: u in front || u == last;
    }
  }

  /** Exactly one row for every in-scope key of the four maps whose unit and account exist, in strictly
      ascending key order. */
  ghost predicate KeyPart(rows: seq<Row>, included: seq<Key>, src: Sources, units: map<nat, OrgUnit>,
                          accounts: map<nat, Account>,
                          scope: Scope) {
    && StrictlySorted(included) && |rows| == |included|
    && (forall k :: k in included <==> k in AllKeys(src) && Known(k, units, accounts) && InScope(k.0, scope))
    && forall i | 0 <= i < |included| ::
         Known(included[i], units, accounts) && rows[i] == BuildRow(units[included[i].0], accounts[included[i].1], src)
  }

  /** Exactly one placeholder for every in-scope unit absent from the budget map, and nothing else. */
  ghost predicate PlaceholderPart(rows: seq<Row>, src: Sources, units: seq<OrgUnit>, scope: Scope) {
    && (forall u | u in units ::
          multiset(rows)[Placeholder(u)] == if InScope(u.id, scope) && !HasBudget(u.id, src) then 1 else 0)
    && forall r | r in rows :: exists u | u in units ::
         r == Placeholder(u) && InScope(u.id, scope) && !HasBudget(u.id, src)
  }

  lemma KeyRowsShape(keys: seq<Key>, src: Sources, units: seq<OrgUnit>, accounts: map<nat, Account>, scope: Scope)
    returns (included: seq<Key>)
    requires DistinctUnits(units) && DistinctUnits(FetchOrgUnits(units, scope)) && IsSortOf(keys, AllKeys(src))
    ensures KeyPart(KeyRows(keys, src, UnitsById(FetchOrgUnits(units, scope)),
                            FetchAccounts(accounts, CollectAccountIds(src)), scope),
                    included, src, UnitsById(units), accounts, scope)
  {
    var unitsById := UnitsById(FetchOrgUnits(units, scope));
    var accountsById := FetchAccounts(accounts, CollectAccountIds(src));
    included := IncludedKeys(keys, unitsById, accountsById, scope);
    FilterKeepsSorted(KeyIncluded(unitsById, accountsById, scope), keys);
    KeyRowsFollowKeys(keys, src, unitsById, accountsById, scope);
    assert forall i | 0 <= i < |included| :: included[i] in included;
  }

  lemma PlaceholdersShape(src: Sources, units: seq<OrgUnit>, scope: Scope)
    requires DistinctUnits(units)
    ensures PlaceholderPart(PlaceholderRows(FetchOrgUnits(units, scope), src, scope), src, units, scope)
  {
    FilterKeepsDistinct(units, scope);
    var fetched := FetchOrgUnits(units, scope);
    PlaceholderPerUnit(fetched, src, scope);
    forall u | u in units
      ensures multiset(PlaceholderRows(fetched, src, scope))[Placeholder(u)]
           == if InScope(u.id, scope) && !HasBudget(u.id, src) then 1 else 0
    {
      if !InScope(u.id, scope) {
        assert Placeholder(u) !in PlaceholderRows(fetched, src, scope);
      } else {
        assert u in fetched;
      }
    }
  }

  /** The shape of a report over the whole database: a key part, then a placeholder part. */
  lemma ReportShape(rows: seq<Row>, src: Sources, units: seq<OrgUnit>, accounts: map<nat, Account>, scope: Scope)
    returns (included: seq<Key>)
    requires DistinctUnits(units)
    requires IsReport(rows, src, units, accounts, scope)
    ensures |included| <= |rows|
    ensures KeyPart(rows[..|included|], included, src, UnitsById(units), accounts, scope)
    ensures PlaceholderPart(rows[|included|..], src, units, scope)
  {
    var keys :| IsSortOf(keys, AllKeys(src)) && rows == ReportOver(keys, src, units, accounts, scope);
    FilterKeepsDistinct(units, scope);
    included := KeyRowsShape(keys, src, units, accounts, scope);
    PlaceholdersShape(src, units, scope);
    var fetched, accountsById := FetchOrgUnits(units, scope), FetchAccounts(accounts, CollectAccountIds(src));
    assert rows[..|included|] == KeyRows(keys, src, UnitsById(fetched), accountsById, scope);
    assert rows[|included|..] == PlaceholderRows(fetched, src, scope);
  }

  // ------------------------------------------------------------------ the report cell by cell

  /** The row shows the unit, the account, and what the four maps hold under the key; personnel and shared cost at
      the four aggregate levels only. */
  ghost predicate ShowsKey(r: Row, u: OrgUnit, a: Account, k: Key, src: Sources) {
    && r.unit == u.id && r.unitName == u.name && r.accountCode == a.code && r.accountName == a.name
    && ShowsAmount(r.actual, src.actuals, k, true) && ShowsAmount(r.operational, src.budget, k, true)
    && (var aggregate := u.level == "1000" || u.level == "0800" || u.level == "0500" || u.level == "0000";
        ShowsAmount(r.personnel, src.personnel, k, aggregate) && ShowsAmount(r.shared, src.shared, k, aggregate))
    && ShowsDelta(r, k, src)
    && (r.uploaded <==> k in src.budget)
  }

  predicate ShowsAmount(cell: Option<int>, source: map<Key, int>, k: Key, shown: bool) {
    (cell.Some? <==> shown && k in source) && (cell.Some? ==> cell.value == source[k])
  }

  /** The difference where both amounts are there, and its percentage where the actual is not zero. */
  ghost predicate ShowsDelta(r: Row, k: Key, src: Sources) {
    && (r.delta.Some? <==> k in src.budget && k in src.actuals)
    && (r.delta.Some? ==> r.delta.value == src.budget[k] - src.actuals[k])
    && (r.delta.None? || src.actuals[k] == 0 ==> r.deltaPct == "N/A")
    && (r.delta.Some? && src.actuals[k] != 0 && Storable(src.budget[k]) && Storable(src.actuals[k]) ==>
          r.deltaPct != "N/A" && DeltaPct.ReadsAsPercentage(r.deltaPct, src.budget[k], src.actuals[k]))
  }

  /** Numeric(18, 2) */
  predicate Storable(cents: int) { -1_000_000_000_000_000_000 < cents < 1_000_000_000_000_000_000 }

  predicate IsPlaceholder(r: Row, u: OrgUnit) {
    && r.unit == u.id && r.unitName == u.name && r.accountCode == "" && r.accountName == ""
    && r.actual.None? && r.operational.None? && r.personnel.None? && r.shared.None?
    && r.delta.None? && r.deltaPct == "N/A" && !r.uploaded
  }

  predicate Allowed(unit: nat, scope: Scope) { scope.allScopes || unit in scope.units }

  predicate AnyBudget(unit: nat, src: Sources) { exists k | k in src.budget :: k.0 == unit }

  /** First, in ascending order, the keys of the four maps whose unit and account are on file and whose unit is in
      scope; then one placeholder for every unit in scope without any budget. */
  ghost predicate Reads(rows: seq<Row>, included: seq<Key>, src: Sources, units: seq<OrgUnit>,
                        accounts: map<nat, Account>, scope: Scope) {
    && |included| <= |rows|
    && (forall i, j | 0 <= i < j < |included| ::
          included[i].0 < included[j].0 || (included[i].0 == included[j].0 && included[i].1 < included[j].1))
    && (forall k :: k in included <==>
          && (k in src.budget || k in src.personnel || k in src.shared || k in src.actuals)
          && OnFile(units, k.0) && k.1 in accounts && Allowed(k.0, scope))
    && (forall i | 0 <= i < |included| :: ShowsKeyAt(rows[i], included[i], src, units, accounts))
    && ReadsPlaceholders(rows[|included|..], src, units, scope)
  }

  ghost predicate ShowsKeyAt(r: Row, k: Key, src: Sources, units: seq<OrgUnit>, accounts: map<nat, Account>) {
    k.1 in accounts && exists u | u in units :: u.id == k.0 && ShowsKey(r, u, accounts[k.1], k, src)
  }

  predicate OnFile(units: seq<OrgUnit>, id: nat) { exists u | u in units :: u.id == id }

  ghost predicate ReadsPlaceholders(rows: seq<Row>, src: Sources, units: seq<OrgUnit>, scope: Scope) {
    && (forall i | 0 <= i < |rows| :: exists u | u in units ::
          IsPlaceholder(rows[i], u) && Allowed(u.id, scope) && !AnyBudget(u.id, src))
    && (forall i, j | 0 <= i < j < |rows| :: rows[i].unit != rows[j].unit)
    && (forall u | u in units && Allowed(u.id, scope) && !AnyBudget(u.id, src) ::
          exists i | 0 <= i < |rows| :: IsPlaceholder(rows[i], u))
  }

  /** The delta cells of a row: present exactly when both amounts are, equal to budget minus actual, with the
      percentage of amounts the columns can hold rounded once from its exact value; "N/A" exactly when there is no
      delta or nothing to divide by. */
  lemma RowDeltas(unit: OrgUnit, account: Account, src: Sources)
    ensures ShowsDelta(BuildRow(unit, account, src), (unit.id, account.id), src)
  {
    var k := (unit.id, account.id);
    if k in src.budget && k in src.actuals && src.actuals[k] != 0 {
      DeltaCell(src.budget[k], src.actuals[k]);
    }
  }

  lemma DeltaCell(budget: int, actual: int)
    requires actual != 0
    ensures Storable(budget) && Storable(actual) ==>
              var text := DeltaPct.FormatDeltaPct(Some(budget - actual), Some(actual));
              text != "N/A" && DeltaPct.ReadsAsPercentage(text, budget, actual)
  {
    if Storable(budget) && Storable(actual) {
      DeltaPct.DeltaPctReads(budget, actual);
      var text := DeltaPct.FormatDeltaPct(Some(budget - actual), Some(actual));
      var tenths: nat :| DeltaPct.ReadsAs(text, (budget < actual) != (actual < 0), tenths);
      assert "N/A"[1] != '.';
    }
  }

  lemma BuiltRowShows(u: OrgUnit, a: Account, src: Sources)
    ensures ShowsKey(BuildRow(u, a, src), u, a, (u.id, a.id), src)
  {
    RowDeltas(u, a, src);
  }

  lemma PlaceholdersRead(rows: seq<Row>, src: Sources, units: seq<OrgUnit>, scope: Scope)
    requires DistinctUnits(units) && PlaceholderPart(rows, src, units, scope)
    ensures ReadsPlaceholders(rows, src, units, scope)
  {
    forall i | 0 <= i < |rows|
      ensures exists u | u in units ::
                IsPlaceholder(rows[i], u) && Allowed(u.id, scope) && !AnyBudget(u.id, src)
    {
      assert rows[i] in rows;
      var u :| u in units && rows[i] == Placeholder(u) && InScope(u.id, scope) && !HasBudget(u.id, src);
      assert IsPlaceholder(rows[i], u);
    }
    forall i, j | 0 <= i < j < |rows|
      ensures rows[i].unit != rows[j].unit
    {
      assert rows[i] in rows && rows[j] in rows;
      var u :| u in units && rows[i] == Placeholder(u);
      var v :| v in units && rows[j] == Placeholder(v);
      if u == v {
        TwiceCounted(rows, i, j);
      }
    }
    forall u | u in units && Allowed(u.id, scope) && !AnyBudget(u.id, src)
      ensures exists i | 0 <= i < |rows| :: IsPlaceholder(rows[i], u)
    {
      assert multiset(rows)[Placeholder(u)] == 1;
      assert Placeholder(u) in rows;
    }
  }

  lemma TwiceCounted(rows: seq<Row>, i: nat, j: nat)
    requires i < j < |rows| && rows[i] == rows[j]
    ensures multiset(rows)[rows[i]] >= 2
  {
    assert rows == rows[..j] + [rows[j]] + rows[j + 1..];
    assert rows[i] in rows[..j];
  }

  /** Every row of every report, field by field. */
  lemma ReportReads(rows: seq<Row>, src: Sources, units: seq<OrgUnit>, accounts: map<nat, Account>, scope: Scope)
    returns (included: seq<Key>)
    requires DistinctUnits(units) && IsReport(rows, src, units, accounts, scope)
    requires forall id | id in accounts :: accounts[id].id == id
    ensures Reads(rows, included, src, units, accounts, scope)
  {
    included := ReportShape(rows, src, units, accounts, scope);
    var keyRows := rows[..|included|];
    forall i | 0 <= i < |included|
      ensures ShowsKeyAt(rows[i], included[i], src, units, accounts)
    {
      KeyRowReads(keyRows, included, src, units, accounts, scope, i);
      assert keyRows[i] == rows[i];
    }
    IncludedAre(included, keyRows, src, units, accounts, scope);
    PlaceholdersRead(rows[|included|..], src, units, scope);
  }

  lemma KeyRowReads(rows: seq<Row>, included: seq<Key>, src: Sources, units: seq<OrgUnit>,
                    accounts: map<nat, Account>, scope: Scope, i: nat)
    requires DistinctUnits(units) && KeyPart(rows, included, src, UnitsById(units), accounts, scope)
    requires (forall id | id in accounts :: accounts[id].id == id) && i < |included|
    ensures ShowsKeyAt(rows[i], included[i], src, units, accounts)
  {
    var u, a := UnitsById(units)[included[i].0], accounts[included[i].1];
    BuiltRowShows(u, a, src);
    assert u in units && (u.id, a.id) == included[i];
  }

  lemma IncludedAre(included: seq<Key>, rows: seq<Row>, src: Sources, units: seq<OrgUnit>,
                    accounts: map<nat, Account>, scope: Scope)
    requires DistinctUnits(units) && KeyPart(rows, included, src, UnitsById(units), accounts, scope)
    ensures forall k :: k in included <==>
          && (k in src.budget || k in src.personnel || k in src.shared || k in src.actuals)
          && OnFile(units, k.0) && k.1 in accounts && Allowed(k.0, scope)
    ensures forall i, j | 0 <= i < j < |included| ::
              included[i].0 < included[j].0 || (included[i].0 == included[j].0 && included[i].1 < included[j].1)
  {
    assert forall i, j | 0 <= i < j < |included| :: Before(included[i], included[j]);
  }

  // ------------------------------------------------------------------ conservation

  datatype Column = ActualColumn | OperationalColumn | PersonnelColumn | SharedColumn

  function CellOf(r: Row, c: Column): Option<int>
  {
    match c
    case ActualColumn => r.actual
    case OperationalColumn => r.operational
    case PersonnelColumn => r.personnel
    case SharedColumn => r.shared
  }

  function SourceOf(src: Sources, c: Column): map<Key, int>
  {
    match c
    case ActualColumn => src.actuals
    case OperationalColumn => src.budget
    case PersonnelColumn => src.personnel
    case SharedColumn => src.shared
  }

  /** Personnel and shared cost are shown for aggregate units only. */
  predicate ShownAt(c: Column, level: string) { c.ActualColumn? || c.OperationalColumn? || level in AGGREGATE_LEVELS }

  predicate Shown(k: Key, units: map<nat, OrgUnit>, scope: Scope, c: Column) {
    InScope(k.0, scope) && k.0 in units && ShownAt(c, units[k.0].level)
  }

  /** The part of a source its column shows. */
  function ShownPart(source: map<Key, int>, units: map<nat, OrgUnit>, scope: Scope, c: Column): map<Key, int>
  {
    map k | k in source && Shown(k, units, scope, c) :: source[k]
  }

  function ColumnSum(rows: seq<Row>, c: Column): int
  {
    if rows == [] then 0
    else
      var last := CellOf(rows[|rows| - 1], c);
      ColumnSum(rows[..|rows| - 1], c) + (if last.Some? then last.value else 0)
  }

  lemma ColumnSumAppend(a: seq<Row>, b: seq<Row>, c: Column)
    ensures ColumnSum(a + b, c) == ColumnSum(a, c) + ColumnSum(b, c)
  {
    if b == [] {
      assert a + b == a;
    } else {
      assert (a + b)[..|a + b| - 1] == a + b[..|b| - 1];
      ColumnSumAppend(a, b[..|b| - 1], c);
    }
  }

  /** The shown part of a source, over the given keys only. */
  function PartOver(keys: seq<Key>, source: map<Key, int>, units: map<nat, OrgUnit>, scope: Scope, c: Column)
    : map<Key, int>
  {
    map k | k in source && k in keys && Shown(k, units, scope, c) :: source[k]
  }

  function AmountAt(k: Key, source: map<Key, int>, units: map<nat, OrgUnit>, scope: Scope, c: Column): int
  {
    if k in source && Shown(k, units, scope, c) then source[k] else 0
  }

  lemma PartOverStep(keys: seq<Key>, k: Key, source: map<Key, int>, units: map<nat, OrgUnit>, scope: Scope, c: Column)
    requires k !in keys
    ensures MapSum(PartOver(keys + [k], source, units, scope, c))
         == MapSum(PartOver(keys, source, units, scope, c)) + AmountAt(k, source, units, scope, c)
  {
    var before, after := PartOver(keys, source, units, scope, c), PartOver(keys + [k], source, units, scope, c);
    if k in source && Shown(k, units, scope, c) {
      assert after == Add(before, k, source[k]);
      MapSumAdd(before, k, source[k]);
    } else {
      assert after == before;
    }
  }

  ghost predicate Complete(source: map<Key, int>, units: map<nat, OrgUnit>, accounts: map<nat, Account>, scope: Scope) {
    && (forall id | id in units :: units[id].id == id)
    && (forall id | id in accounts :: accounts[id].id == id)
    && (forall k | k in source && InScope(k.0, scope) :: Known(k, units, accounts))
  }

  lemma KeyRowsStep(keys: seq<Key>, k: Key, src: Sources, units: map<nat, OrgUnit>, accounts: map<nat, Account>,
                    scope: Scope, c: Column)
    requires Complete(SourceOf(src, c), units, accounts, scope)
    ensures ColumnSum(KeyRows(keys + [k], src, units, accounts, scope), c)
         == ColumnSum(KeyRows(keys, src, units, accounts, scope), c) + AmountAt(k, SourceOf(src, c), units, scope, c)
  {
    assert (keys + [k])[..|keys + [k]| - 1] == keys;
    var rows := KeyRows(keys, src, units, accounts, scope);
    if Known(k, units, accounts) && InScope(units[k.0].id, scope) {
      var row := BuildRow(units[k.0], accounts[k.1], src);
      ColumnSumAppend(rows, [row], c);
      assert [row][..0] == [];
    }
  }

  lemma {:induction false} KeyRowsCarrySource(keys: seq<Key>, src: Sources, units: map<nat, OrgUnit>,
                                              accounts: map<nat, Account>,
                                              scope: Scope, c: Column)
    requires StrictlySorted(keys)
    requires Complete(SourceOf(src, c), units, accounts, scope)
    ensures ColumnSum(KeyRows(keys, src, units, accounts, scope), c)
            == MapSum(PartOver(keys, SourceOf(src, c), units, scope, c))
  {
    if keys == [] {
      assert PartOver(keys, SourceOf(src, c), units, scope, c) == map[];
    } else {
      var front, k := keys[..|keys| - 1], keys[|keys| - 1];
      assert keys == front + [k];
      KeyRowsCarrySource(front, src, units, accounts, scope, c);
      PartOverStep(front, k, SourceOf(src, c), units, scope, c);
      KeyRowsStep(front, k, src, units, accounts, scope, c);
    }
  }

  lemma {:induction false} PlaceholdersCarryNothing(units: seq<OrgUnit>, src: Sources, scope: Scope, c: Column)
    ensures ColumnSum(PlaceholderRows(units, src, scope), c) == 0
  {
    if units != [] {
      var front, u := units[..|units| - 1], units[|units| - 1];
      PlaceholdersCarryNothing(front, src, scope, c);
      ColumnSumAppend(PlaceholderRows(front, src, scope), [Placeholder(u)], c);
      assert [Placeholder(u)][..0] == [];
    }
  }

  /** With every unit and account of a source on file, the source's column of any scope's report adds up to
      the part of the source that is in scope and, for personnel and shared cost, of aggregate units: no
      amount is lost, doubled or shown in another column. */
  lemma ColumnsConserve(rows: seq<Row>, src: Sources, units: seq<OrgUnit>, accounts: map<nat, Account>, scope: Scope,
                        c: Column)
    requires DistinctUnits(units)
    requires IsReport(rows, src, units, accounts, scope)
    requires forall id | id in accounts :: accounts[id].id == id
    requires forall k | k in SourceOf(src, c) :: Known(k, UnitsById(units), accounts)
    ensures ColumnSum(rows, c) == MapSum(ShownPart(SourceOf(src, c), UnitsById(units), scope, c))
  {
    var keys :| IsSortOf(keys, AllKeys(src)) && rows == ReportOver(keys, src, units, accounts, scope);
    FilterKeepsDistinct(units, scope);
    var fetched, accountsById := FetchOrgUnits(units, scope), FetchAccounts(accounts, CollectAccountIds(src));
    var unitsById := UnitsById(fetched);
    CompleteForScope(src, units, accounts, scope, c);
    KeyRowsCarrySource(keys, src, unitsById, accountsById, scope, c);
    PlaceholdersCarryNothing(fetched, src, scope, c);
    ColumnSumAppend(KeyRows(keys, src, unitsById, accountsById, scope), PlaceholderRows(fetched, src, scope), c);
    PartOverAll(keys, src, units, scope, c);
  }

  lemma PartOverAll(keys: seq<Key>, src: Sources, units: seq<OrgUnit>, scope: Scope, c: Column)
    requires IsSortOf(keys, AllKeys(src))
    requires DistinctUnits(units) && DistinctUnits(FetchOrgUnits(units, scope))
    ensures PartOver(keys, SourceOf(src, c), UnitsById(FetchOrgUnits(units, scope)), scope, c)
         == ShownPart(SourceOf(src, c), UnitsById(units), scope, c)
  {
    assert forall k | k in SourceOf(src, c) :: k in AllKeys(src);
    FetchRestricts(units, scope);
  }

  lemma CompleteForScope(src: Sources, units: seq<OrgUnit>, accounts: map<nat, Account>, scope: Scope, c: Column)
    requires DistinctUnits(units) && DistinctUnits(FetchOrgUnits(units, scope))
    requires forall id | id in accounts :: accounts[id].id == id
    requires forall k | k in SourceOf(src, c) :: Known(k, UnitsById(units), accounts)
    ensures Complete(SourceOf(src, c), UnitsById(FetchOrgUnits(units, scope)),
                     FetchAccounts(accounts, CollectAccountIds(src)), scope)
  {
    FetchRestricts(units, scope);
    forall k | k in SourceOf(src, c) && InScope(k.0, scope)
      ensures Known(k, UnitsById(FetchOrgUnits(units, scope)), FetchAccounts(accounts, CollectAccountIds(src)))
    {
      assert k in AllKeys(src);
    }
  }

  /** End to end: the unrestricted report's operational column adds up to all the budget lines of the
      latest uploads in the store. */
  lemma ReportCarriesLatestUploads(
    rows: seq<Row>, src: Sources, units: seq<OrgUnit>, accounts: map<nat, Account>,
    uploads: seq<LatestTotals.Upload>, lines: seq<LatestTotals.Line>, cycle: nat)
    requires DistinctUnits(units) && LatestTotals.WellKeyed(uploads)
    requires IsReport(rows, src, units, accounts, EVERYTHING)
    requires src.budget == LatestTotals.LatestAmounts(uploads, lines, cycle)
    requires forall id | id in accounts :: accounts[id].id == id
    requires forall k | k in src.budget :: Known(k, UnitsById(units), accounts)
    ensures ColumnSum(rows, OperationalColumn) == LatestTotals.LatestLineSum(uploads, lines, cycle)
  {
    ColumnsConserve(rows, src, units, accounts, EVERYTHING, OperationalColumn);
    AllOfItIsShown(src.budget, UnitsById(units), accounts, OperationalColumn);
    LatestTotals.LatestAmountsConserve(uploads, lines, cycle);
  }

  lemma AllOfItIsShown(source: map<Key, int>, units: map<nat, OrgUnit>, accounts: map<nat, Account>, c: Column)
    requires (c.ActualColumn? || c.OperationalColumn?) && forall k | k in source :: Known(k, units, accounts)
    ensures ShownPart(source, units, EVERYTHING, c) == source
  {
  }
}
