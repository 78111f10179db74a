/** Importing a cycle's actual expenses: header normalization, row validation, and atomic replacement. */
module Actuals {
  import opened Common
  import opened Amounts

  /** One cell of the file: its text, as cleaning sees it, and the same value as money parsing sees it. */
  datatype RawCell = RawCell(text: Option<string>, amount: Cell)

  /** A parsed file row: its cells under their original headers, in column order. */
  type RawRow = seq<(Option<string>, RawCell)>

  /** A normalized column name. The validator also looks for upper-case spellings. */
  datatype Header =
    | OrgUnitCode | DeptId | AccountCode | Amount
    | UpperOrgUnitCode | UpperDeptId | UpperAccountCode | UpperAmount
    | Other(text: string)

  function HeaderNamed(text: string): Header
  {
    match text
    case "org_unit_code" => OrgUnitCode
    case "dept_id" => DeptId
    case "account_code" => AccountCode
    case "amount" => Amount
    case "ORG_UNIT_CODE" => UpperOrgUnitCode
    case "DEPT_ID" => UpperDeptId
    case "ACCOUNT_CODE" => UpperAccountCode
    case "AMOUNT" => UpperAmount
    case _ => Other(text)
  }

  type Row = map<Header, RawCell>

  /** Which text each column is named by. */
  lemma HeadersAreNamed(text: string)
    ensures HeaderNamed(text) == OrgUnitCode <==> text == "org_unit_code"
    ensures HeaderNamed(text) == DeptId <==> text == "dept_id"
    ensures HeaderNamed(text) == AccountCode <==> text == "account_code"
    ensures HeaderNamed(text) == Amount <==> text == "amount"
    ensures HeaderNamed(text) == UpperOrgUnitCode <==> text == "ORG_UNIT_CODE"
    ensures HeaderNamed(text) == UpperDeptId <==> text == "DEPT_ID"
    ensures HeaderNamed(text) == UpperAccountCode <==> text == "ACCOUNT_CODE"
    ensures HeaderNamed(text) == UpperAmount <==> text == "AMOUNT"
    ensures HeaderNamed(text).Other? ==> HeaderNamed(text) == Other(text)
  {
    assert HeaderNamed("org_unit_code") == OrgUnitCode && HeaderNamed("dept_id") == DeptId;
    assert HeaderNamed("account_code") == AccountCode && HeaderNamed("amount") == Amount;
    assert HeaderNamed("ORG_UNIT_CODE") == UpperOrgUnitCode && HeaderNamed("DEPT_ID") == UpperDeptId;
    assert HeaderNamed("ACCOUNT_CODE") == UpperAccountCode && HeaderNamed("AMOUNT") == UpperAmount;
  }

  // ------------------------------------------------------------------ _normalize_headers

  const REQUIRED: set<Header> := {OrgUnitCode, AccountCode, Amount}

  datatype HeaderError = NoRows | MissingColumns(columns: set<Header>)

  /** The header's normal form, None for a blank header. */
  function HeaderKey(header: Option<string>, lower: string -> string): Option<Header>
  {
    var cleaned := CleanCell(header);
    if cleaned.None? then None else Some(HeaderNamed(lower(cleaned.value)))
  }

  /** When two headers of a row normalize alike, the later column wins. */
  function Normalized(raw: RawRow, lower: string -> string): Row
  {
    if raw == [] then map[]
    else
      var (header, value) := raw[|raw| - 1];
      var rest := Normalized(raw[..|raw| - 1], lower);
      if HeaderKey(header, lower).None? then rest else rest[HeaderKey(header, lower).value := value]
  }

  function Headers(rawRows: seq<RawRow>, lower: string -> string): set<Header>
  {
    if rawRows == [] then {}
    else Headers(rawRows[..|rawRows| - 1], lower) + Normalized(rawRows[|rawRows| - 1], lower).Keys
  }

  predicate AliasApplies(headers: set<Header>) { OrgUnitCode !in headers && DeptId in headers }

  function WithAlias(row: Row): Row
  {
    if OrgUnitCode !in row && DeptId in row then row[OrgUnitCode := row[DeptId]] else row
  }

  function MissingFrom(headers: set<Header>): set<Header>
  {
    REQUIRED - headers - (if AliasApplies(headers) then {OrgUnitCode} else {})
  }

  /** Refuses a file without rows, and one in which no row at all has some required column. */
  method NormalizeHeaders(rawRows: seq<RawRow>, lower: string -> string)
    returns (rows: seq<Row>, error: Option<HeaderError>)
    ensures error == Some(NoRows) <==> rawRows == []
    ensures rawRows != [] ==>
              error == if MissingFrom(Headers(rawRows, lower)) == {} then None
                  else Some(MissingColumns(MissingFrom(Headers(rawRows, lower))))
    ensures |rows| == |rawRows|
    ensures forall i | 0 <= i < |rows| ::
              rows[i] == if AliasApplies(Headers(rawRows, lower)) then WithAlias(Normalized(rawRows[i], lower))
                         else Normalized(rawRows[i], lower)
  {
    if rawRows == [] {
      return [], Some(NoRows);
    }
    var normalized: seq<Row> := [];
    var seen: set<Header> := {};
    for i := 0 to |rawRows|
      invariant |normalized| == i && seen == Headers(rawRows[..i], lower)
      invariant forall j | 0 <= j < i :: normalized[j] == Normalized(rawRows[j], lower)
    {
      var raw := rawRows[i];
      var row: Row := map[];
      for k := 0 to |raw|
        invariant row == Normalized(raw[..k], lower)
        invariant seen == Headers(rawRows[..i], lower) + row.Keys
      {
        assert raw[..k + 1][..k] == raw[..k];
        var key := HeaderKey(raw[k].0, lower);
        if key.None? {
          continue;
        }
        row := row[key.value := raw[k].1];
        seen := seen + {key.value};
      }
      assert raw[..|raw|] == raw;
      assert rawRows[..i + 1][..i] == rawRows[..i];
      normalized := normalized + [row];
    }
    assert rawRows[..|rawRows|] == rawRows;
    if AliasApplies(seen) {
      ghost var before := normalized;
      for i := 0 to |normalized|
        invariant |normalized| == |before|
        invariant forall j | 0 <= j < |before| :: normalized[j] == if j < i then WithAlias(before[j]) else before[j]
      {
        if OrgUnitCode !in normalized[i] && DeptId in normalized[i] {
          normalized := normalized[i := normalized[i][OrgUnitCode := normalized[i][DeptId]]];
        }
      }
      seen := seen + {OrgUnitCode};
    }
    var missing := REQUIRED - seen;
    assert missing == MissingFrom(Headers(rawRows, lower));
    return normalized, if missing != {} then Some(MissingColumns(missing)) else None;
  }

  /** Column i of the row has this name once stripped and lower-cased. */
  predicate NamedAt(raw: RawRow, i: nat, name: string, lower: string -> string) {
    i < |raw| && raw[i].0.Some? && Strip(raw[i].0.value) != [] && lower(Strip(raw[i].0.value)) == name
  }

  ghost predicate LastNamed(raw: RawRow, i: nat, name: string, lower: string -> string) {
    NamedAt(raw, i, name, lower) && forall j: nat | i < j < |raw| :: !NamedAt(raw, j, name, lower)
  }

  ghost predicate AnyNamed(raw: RawRow, name: string, lower: string -> string) {
    exists i: nat :: NamedAt(raw, i, name, lower)
  }

  /** The row holds, under each name, the cell of the last column of that name. */
  lemma {:induction false} NormalizedIsLastNamed(raw: RawRow, name: string, lower: string -> string)
    ensures var (row, header) := (Normalized(raw, lower), HeaderNamed(name));
            && (header in row <==> AnyNamed(raw, name, lower))
            && forall i: nat | LastNamed(raw, i, name, lower) :: header in row && row[header] == raw[i].1
  {
    if raw != [] {
      NormalizedIsLastNamed(raw[..|raw| - 1], name, lower);
      NormalizedStep(raw, name, lower);
      if NamedAt(raw, |raw| - 1, name, lower) {
        NamedLast(raw, name, lower);
      } else {
        NamedEarlier(raw, name, lower);
      }
    }
  }

  lemma NormalizedStep(raw: RawRow, name: string, lower: string -> string)
    requires raw != []
    ensures var (row, front) := (Normalized(raw, lower), Normalized(raw[..|raw| - 1], lower));
            var header := HeaderNamed(name);
            if NamedAt(raw, |raw| - 1, name, lower) then header in row && row[header] == raw[|raw| - 1].1
            else CellAt(row, header) == CellAt(front, header)
  {
    NameIsHeader(raw[|raw| - 1].0, name, lower);
  }

  lemma NamedLast(raw: RawRow, name: string, lower: string -> string)
    requires raw != [] && NamedAt(raw, |raw| - 1, name, lower)
    ensures forall i: nat | LastNamed(raw, i, name, lower) :: i == |raw| - 1
  {
  }

  lemma NamedEarlier(raw: RawRow, name: string, lower: string -> string)
    requires raw != [] && !NamedAt(raw, |raw| - 1, name, lower)
    ensures forall i: nat :: NamedAt(raw, i, name, lower) <==> NamedAt(raw[..|raw| - 1], i, name, lower)
    ensures forall i: nat :: LastNamed(raw, i, name, lower) <==> LastNamed(raw[..|raw| - 1], i, name, lower)
    ensures AnyNamed(raw, name, lower) <==> AnyNamed(raw[..|raw| - 1], name, lower)
  {
    var front := raw[..|raw| - 1];
    assert forall i: nat | i < |front| :: front[i] == raw[i];
    assert forall i: nat :: NamedAt(raw, i, name, lower) <==> NamedAt(front, i, name, lower);
  }

  lemma NameIsHeader(header: Option<string>, name: string, lower: string -> string)
    ensures HeaderKey(header, lower) == Some(HeaderNamed(name))
       <==> header.Some? && Strip(header.value) != [] && lower(Strip(header.value)) == name
  {
    if header.Some? && Strip(header.value) != [] {
      HeadersAreNamed(name);
      HeadersAreNamed(lower(Strip(header.value)));
    }
  }

  /** The file has a column of this name in some row. */
  ghost predicate HasColumn(rawRows: seq<RawRow>, name: string, lower: string -> string) {
    exists r: nat, i: nat :: r < |rawRows| && NamedAt(rawRows[r], i, name, lower)
  }

  lemma {:induction false} HeadersAreColumns(rawRows: seq<RawRow>, name: string, lower: string -> string)
    ensures HeaderNamed(name) in Headers(rawRows, lower) <==> HasColumn(rawRows, name, lower)
  {
    if rawRows != [] {
      var front, n := rawRows[..|rawRows| - 1], |rawRows| - 1;
      HeadersAreColumns(front, name, lower);
      NormalizedIsLastNamed(rawRows[n], name, lower);
      if HasColumn(front, name, lower) {
        var r: nat, i: nat :| r < |front| && NamedAt(front[r], i, name, lower);
        assert NamedAt(rawRows[r], i, name, lower);
      }
      if HasColumn(rawRows, name, lower) {
        var r: nat, i: nat :| r < |rawRows| && NamedAt(rawRows[r], i, name, lower);
        assert r < n ==> NamedAt(front[r], i, name, lower);
      }
    }
  }

  /** A file is taken exactly when it has rows and, somewhere, an account, an amount, and a unit or department
      column. */
  lemma HeadersOkIff(rawRows: seq<RawRow>, lower: string -> string)
    ensures HeadersOk(rawRows, lower) <==>
              && rawRows != []
              && HasColumn(rawRows, "account_code", lower) && HasColumn(rawRows, "amount", lower)
              && (HasColumn(rawRows, "org_unit_code", lower) || HasColumn(rawRows, "dept_id", lower))
  {
    HeadersAreColumns(rawRows, "account_code", lower);
    HeadersAreColumns(rawRows, "amount", lower);
    HeadersAreColumns(rawRows, "org_unit_code", lower);
    HeadersAreColumns(rawRows, "dept_id", lower);
    var missing := MissingFrom(Headers(rawRows, lower));
    assert missing == {} <==> OrgUnitCode !in missing && AccountCode !in missing && Amount !in missing;
  }

  lemma {:induction false} NormalizedByKeys(a: RawRow, b: RawRow, lower: string -> string)
    requires |a| == |b|
    requires forall i | 0 <= i < |a| :: HeaderKey(a[i].0, lower) == HeaderKey(b[i].0, lower) && a[i].1 == b[i].1
    ensures Normalized(a, lower) == Normalized(b, lower)
  {
    if a != [] {
      NormalizedByKeys(a[..|a| - 1], b[..|b| - 1], lower);
    }
  }

  function LowerChar(c: char): char { if 'A' <= c <= 'Z' then (c as int + 32) as char else c }

  function AsciiLower(s: string): (r: string)
    ensures |r| == |s| && forall i | 0 <= i < |s| :: r[i] == LowerChar(s[i])
  {
    seq(|s|, i requires 0 <= i < |s| => LowerChar(s[i]))
  }

  /** The texts differ at most in the case of ASCII letters. */
  predicate SameLetters(a: string, b: string) {
    |a| == |b| && forall i | 0 <= i < |a| :: LowerChar(a[i]) == LowerChar(b[i])
  }

  /** All that is used of str.lower(): it forgets the case of ASCII letters. */
  ghost predicate ForgetsCase(lower: string -> string) { forall a, b :: SameLetters(a, b) ==> lower(a) == lower(b) }

  lemma AsciiLowerForgetsCase()
    ensures ForgetsCase(AsciiLower)
  {
    forall a, b | SameLetters(a, b)
      ensures AsciiLower(a) == AsciiLower(b)
    {
    }
  }

  lemma {:induction false} StripKeepsLetters(a: string, b: string)
    requires SameLetters(a, b)
    ensures SameLetters(Strip(a), Strip(b))
    decreases |a|
  {
    if a != [] {
      var n := |a| - 1;
      assert LowerChar(a[0]) == LowerChar(b[0]) && LowerChar(a[n]) == LowerChar(b[n]);
      assert IsSpace(a[0]) == IsSpace(b[0]) && IsSpace(a[n]) == IsSpace(b[n]);
      if IsSpace(a[0]) {
        StripKeepsLetters(a[1..], b[1..]);
      } else if IsSpace(a[n]) {
        StripKeepsLetters(a[..n], b[..n]);
      }
    }
  }

  /** b is a with the letters in another case and other blanks around it. */
  ghost predicate Respelled(a: string, b: string) {
    exists p, h, q, p', h', q' :: SpelledAs(a, p, h, q) && SpelledAs(b, p', h', q') && SameLetters(h, h')
  }

  predicate SpelledAs(s: string, p: string, h: string, q: string) { s == p + h + q && Blank(p) && Blank(q) }

  /** The spelling of a header does not matter. */
  lemma HeaderKeyIgnoresSpelling(a: string, b: string, lower: string -> string)
    requires Respelled(a, b) && ForgetsCase(lower)
    ensures HeaderKey(Some(a), lower) == HeaderKey(Some(b), lower)
  {
    var p, h, q, p', h', q' :| SpelledAs(a, p, h, q) && SpelledAs(b, p', h', q') && SameLetters(h, h');
    StripIgnoresPadding(p, h, q);
    StripIgnoresPadding(p', h', q');
    StripKeepsLetters(h, h');
  }

  /** The files hold the same cells under respelled headers. */
  ghost predicate RespelledHeaders(a: seq<RawRow>, b: seq<RawRow>) {
    |a| == |b| && forall i | 0 <= i < |a| :: RespelledRow(a[i], b[i])
  }

  ghost predicate RespelledRow(a: RawRow, b: RawRow) {
    && |a| == |b|
    && forall i | 0 <= i < |a| ::
      a[i].1 == b[i].1 && a[i].0.Some? == b[i].0.Some? && (a[i].0.Some? ==> Respelled(a[i].0.value, b[i].0.value))
  }

  lemma RowIgnoresSpelling(a: RawRow, b: RawRow, lower: string -> string)
    requires RespelledRow(a, b) && ForgetsCase(lower)
    ensures Normalized(a, lower) == Normalized(b, lower)
  {
    forall i | 0 <= i < |a|
      ensures HeaderKey(a[i].0, lower) == HeaderKey(b[i].0, lower)
    {
      if a[i].0.Some? {
        HeaderKeyIgnoresSpelling(a[i].0.value, b[i].0.value, lower);
      }
    }
    NormalizedByKeys(a, b, lower);
  }

  /** Files that differ only in the case and padding of their headers have the same columns and, cell by cell,
      the same normalized rows; so they are imported alike. */
  lemma {:induction false} HeadersIgnoreCaseAndPadding(a: seq<RawRow>, b: seq<RawRow>, lower: string -> string)
    requires RespelledHeaders(a, b) && ForgetsCase(lower)
    ensures Headers(a, lower) == Headers(b, lower)
    ensures NormalizedRows(a, lower) == NormalizedRows(b, lower)
  {
    HeadersIgnoreSpelling(a, b, lower);
    forall i | 0 <= i < |a|
      ensures Normalized(a[i], lower) == Normalized(b[i], lower)
    {
      RowIgnoresSpelling(a[i], b[i], lower);
    }
  }

  lemma {:induction false} HeadersIgnoreSpelling(a: seq<RawRow>, b: seq<RawRow>, lower: string -> string)
    requires RespelledHeaders(a, b) && ForgetsCase(lower)
    ensures Headers(a, lower) == Headers(b, lower)
  {
    if a != [] {
      HeadersIgnoreSpelling(a[..|a| - 1], b[..|b| - 1], lower);
      RowIgnoresSpelling(a[|a| - 1], b[|b| - 1], lower);
    }
  }

  // ------------------------------------------------------------------ the row validator

  function CellAt(row: Row, header: Header): Option<RawCell> { if header in row then Some(row[header]) else None }

  /** The first of two lookups that finds a cell. */
  function OrElse(first: Option<RawCell>, second: Option<RawCell>): Option<RawCell>
  {
    if first.Some? then first else second
  }

  function OrgCell(row: Row): Option<RawCell>
  {
    OrElse(OrElse(CellAt(row, OrgUnitCode), CellAt(row, DeptId)),
           OrElse(CellAt(row, UpperOrgUnitCode), CellAt(row, UpperDeptId)))
  }

  function AccountCell(row: Row): Option<RawCell> { OrElse(CellAt(row, AccountCode), CellAt(row, UpperAccountCode)) }

  function AmountCell(row: Row): Option<RawCell> { OrElse(CellAt(row, Amount), CellAt(row, UpperAmount)) }

  /** Which columns are looked up, and in which order. */
  lemma LookupOrder(row: Row)
    ensures OrgCell(row) == if OrgUnitCode in row then Some(row[OrgUnitCode])
                            else if DeptId in row then Some(row[DeptId])
                            else if UpperOrgUnitCode in row then Some(row[UpperOrgUnitCode])
                            else if UpperDeptId in row then Some(row[UpperDeptId])
                            else None
    ensures AccountCell(row) == if AccountCode in row then Some(row[AccountCode])
                                else if UpperAccountCode in row then Some(row[UpperAccountCode])
                                else None
    ensures AmountCell(row) == if Amount in row then Some(row[Amount])
                               else if UpperAmount in row then Some(row[UpperAmount])
                               else None
  {
  }

  /** Copying dept_id under org_unit_code never changes what the validator reads. */
  lemma AliasIsRedundant(row: Row)
    ensures OrgCell(WithAlias(row)) == OrgCell(row)
    ensures AccountCell(WithAlias(row)) == AccountCell(row) && AmountCell(WithAlias(row)) == AmountCell(row)
  {
  }

  function CellText(cell: Option<RawCell>): Option<string> { if cell.None? then None else CleanCell(cell.value.text) }

  function CellAmount(cell: Option<RawCell>): Result<nat, AmountError>
  {
    ParseAmount(if cell.None? then Missing else cell.value.amount, true)
  }

  datatype Reason = EmptyCell | UnknownCode(code: string) | BadAmount(error: AmountError)

  datatype Column = OrgUnitColumn | AccountColumn | AmountColumn

  datatype RowError = RowError(row: nat, column: Column, reason: Reason)

  datatype CleanRow = CleanRow(row: nat, orgCode: string, unit: nat, accountCode: string, amount: nat)

  datatype Codes = Codes(orgUnits: map<string, nat>, accounts: set<string>)

  /** What is wrong with the cell of one column, if anything. */
  function Fault(row: Row, column: Column, codes: Codes): Option<Reason>
  {
    match column
    case OrgUnitColumn =>
      var code := CellText(OrgCell(row));
      if code.None? then Some(EmptyCell)
      else if code.value !in codes.orgUnits then Some(UnknownCode(code.value))
      else None
    case AccountColumn =>
      var code := CellText(AccountCell(row));
      if code.None? then Some(EmptyCell)
      else if code.value !in codes.accounts then Some(UnknownCode(code.value))
      else None
    case AmountColumn =>
      var amount := CellAmount(AmountCell(row));
      if amount.Err? then Some(BadAmount(amount.error)) else None
  }

  /** Exactly which fault each column has. */
  lemma FaultIff(row: Row, codes: Codes)
    ensures var (org, account, amount) :=
            (CellText(OrgCell(row)), CellText(AccountCell(row)), CellAmount(AmountCell(row)));
            && Fault(row, OrgUnitColumn, codes) == (
                 if org == None then Some(EmptyCell)
                 else if org.value in codes.orgUnits then None else Some(UnknownCode(org.value)))
            && Fault(row, AccountColumn, codes) == (
                 if account == None then Some(EmptyCell)
                 else if account.value in codes.accounts then None else Some(UnknownCode(account.value)))
            && (Fault(row, AmountColumn, codes).None? <==> amount.Ok?)
            && (amount.Err? ==> Fault(row, AmountColumn, codes) == Some(BadAmount(amount.error)))
  {
  }

  predicate Acceptable(row: Row, codes: Codes) {
    Fault(row, OrgUnitColumn, codes).None? && Fault(row, AccountColumn, codes).None?
        && Fault(row, AmountColumn, codes).None?
  }

  function ColumnError(row: Row, column: Column, codes: Codes, number: nat): seq<RowError>
  {
    if Fault(row, column, codes).None? then [] else [RowError(number, column, Fault(row, column, codes).value)]
  }

  function ErrorsOfRow(row: Row, codes: Codes, number: nat): seq<RowError>
  {
    ColumnError(row, OrgUnitColumn, codes, number) + ColumnError(row, AccountColumn, codes, number)
    + ColumnError(row, AmountColumn, codes, number)
  }

  /** What the rows with indices below n contribute, in order. */
  function Collected<T>(at: nat -> seq<T>, n: nat): seq<T>
  {
    if n == 0 then [] else Collected(at, n - 1) + at(n - 1)
  }

  /** Rows are numbered from 1. */
  function ErrorsAt(rows: seq<Row>, codes: Codes): nat -> seq<RowError>
  {
    (i: nat) => if i < |rows| then ErrorsOfRow(rows[i], codes, i + 1) else []
  }

  function ErrorsOf(rows: seq<Row>, codes: Codes): seq<RowError> { Collected(ErrorsAt(rows, codes), |rows|) }

  /** The clean form of an acceptable row, and nothing for a bad one. */
  function CleanOf(row: Row, codes: Codes, number: nat): seq<CleanRow>
  {
    if !Acceptable(row, codes) then []
    else
      var code := CellText(OrgCell(row)).value;
      [CleanRow(number, code, codes.orgUnits[code], CellText(AccountCell(row)).value,
                CellAmount(AmountCell(row)).value)]
  }

  function CleanAt(rows: seq<Row>, codes: Codes): nat -> seq<CleanRow>
  {
    (i: nat) => if i < |rows| then CleanOf(rows[i], codes, i + 1) else []
  }

  function CleanRowsOf(rows: seq<Row>, codes: Codes): seq<CleanRow> { Collected(CleanAt(rows, codes), |rows|) }

  predicate CleanedFrom(clean: CleanRow, row: Row, codes: Codes, number: nat) {
    && clean.row == number
    && CellText(OrgCell(row)) == Some(clean.orgCode) && clean.orgCode in codes.orgUnits
       && codes.orgUnits[clean.orgCode] == clean.unit
    && CellText(AccountCell(row)) == Some(clean.accountCode) && clean.accountCode in codes.accounts
    && CellAmount(AmountCell(row)) == Ok(clean.amount)
  }

  /** The list of clean rows a validation fills. */
  class Sink {
    var rows: seq<CleanRow>

    constructor ()
      ensures rows == []
    {
      rows := [];
    }
  }

  /** All the errors of the row, in column order; the sink gains the clean row exactly when there are none. */
  method ValidateRow(number: nat, raw: Row, codes: Codes, sink: Sink) returns (errors: seq<RowError>)
    modifies sink
    ensures errors == ErrorsOfRow(raw, codes, number)
    ensures sink.rows == old(sink.rows) + CleanOf(raw, codes, number)
  {
    errors := [];
    var orgCode := CellText(OrgCell(raw));
    if orgCode.None? {
      errors := errors + [RowError(number, OrgUnitColumn, EmptyCell)];
    } else if orgCode.value !in codes.orgUnits {
      errors := errors + [RowError(number, OrgUnitColumn, UnknownCode(orgCode.value))];
    }
    assert errors == ColumnError(raw, OrgUnitColumn, codes, number);
    var accountCode := CellText(AccountCell(raw));
    if accountCode.None? {
      errors := errors + [RowError(number, AccountColumn, EmptyCell)];
    } else if accountCode.value !in codes.accounts {
      errors := errors + [RowError(number, AccountColumn, UnknownCode(accountCode.value))];
    }
    assert errors == ColumnError(raw, OrgUnitColumn, codes, number) + ColumnError(raw, AccountColumn, codes, number);
    var amount := CellAmount(AmountCell(raw));
    if amount.Err? {
      errors := errors + [RowError(number, AmountColumn, BadAmount(amount.error))];
    }
    NoErrorsIffAcceptable(raw, codes, number);
    if errors == [] {
      sink.rows := sink.rows
        + [CleanRow(number, orgCode.value, codes.orgUnits[orgCode.value], accountCode.value, amount.value)];
    }
  }

  lemma NoErrorsIffAcceptable(row: Row, codes: Codes, number: nat)
    ensures ErrorsOfRow(row, codes, number) == [] <==> Acceptable(row, codes)
  {
    var org, account, amount :=
      ColumnError(row, OrgUnitColumn, codes, number), ColumnError(row, AccountColumn, codes, number),
      ColumnError(row, AmountColumn, codes, number);
    assert |org + account + amount| == |org| + |account| + |amount|;
  }

  lemma CollectedStep(rows: seq<Row>, codes: Codes, i: nat)
    requires i < |rows|
    ensures Collected(ErrorsAt(rows, codes), i + 1)
            == Collected(ErrorsAt(rows, codes), i) + ErrorsOfRow(rows[i], codes, i + 1)
    ensures Collected(CleanAt(rows, codes), i + 1)
            == Collected(CleanAt(rows, codes), i) + CleanOf(rows[i], codes, i + 1)
  {
  }

  method Validate(rows: seq<Row>, codes: Codes) returns (clean: seq<CleanRow>, errors: seq<RowError>)
    ensures errors == ErrorsOf(rows, codes)
    ensures clean == if errors == [] then CleanRowsOf(rows, codes) else []
  {
    var sink := new Sink();
    errors := [];
    for i := 0 to |rows|
      invariant fresh(sink)
      invariant errors == Collected(ErrorsAt(rows, codes), i) && sink.rows == Collected(CleanAt(rows, codes), i)
    {
      CollectedStep(rows, codes, i);
      var rowErrors := ValidateRow(i + 1, rows[i], codes, sink);
      errors := errors + rowErrors;
    }
    clean := if errors == [] then sink.rows else [];
  }

  /** In a valid file every row is cleaned, in order. */
  lemma ValidRowsAreCleaned(rows: seq<Row>, codes: Codes)
    requires ErrorsOf(rows, codes) == []
    ensures |CleanRowsOf(rows, codes)| == |rows|
    ensures forall i | 0 <= i < |rows| :: CleanedFrom(CleanRowsOf(rows, codes)[i], rows[i], codes, i + 1)
  {
    ValidIffAllAcceptable(rows, codes);
    var cleanAt := CleanAt(rows, codes);
    forall i: nat | i < |rows|
      ensures |cleanAt(i)| == 1 && CleanedFrom(cleanAt(i)[0], rows[i], codes, i + 1)
    {
      assert rows[i] in rows;
      AcceptableIsCleaned(rows[i], codes, i + 1);
    }
    OneEach(cleanAt, |rows|);
  }

  lemma AcceptableIsCleaned(row: Row, codes: Codes, number: nat)
    requires Acceptable(row, codes)
    ensures |CleanOf(row, codes, number)| == 1 && CleanedFrom(CleanOf(row, codes, number)[0], row, codes, number)
  {
  }

  lemma {:induction false} OneEach(cleanAt: nat -> seq<CleanRow>, n: nat)
    requires forall i: nat | i < n :: |cleanAt(i)| == 1
    ensures |Collected(cleanAt, n)| == n && forall i: nat | i < n :: Collected(cleanAt, n)[i] == cleanAt(i)[0]
  {
    if n > 0 {
      OneEach(cleanAt, n - 1);
    }
  }

  // ------------------------------------------------------------------ what the error list says

  /** The list holds exactly one error for every faulty cell of the three columns, naming its fault. */
  lemma ErrorsAreTheFaultyCells(rows: seq<Row>, codes: Codes, e: RowError)
    ensures e in ErrorsOf(rows, codes)
       <==> 1 <= e.row <= |rows| && Fault(rows[e.row - 1], e.column, codes) == Some(e.reason)
    ensures multiset(ErrorsOf(rows, codes))[e] <= 1
  {
    var errorsAt := ErrorsAt(rows, codes);
    forall i: nat | i < |rows|
      ensures e in errorsAt(i) <==> e.row == i + 1 && Fault(rows[i], e.column, codes) == Some(e.reason)
      ensures multiset(errorsAt(i))[e] <= 1
    {
      RowErrorsAreItsFaults(rows[i], codes, i + 1, e);
    }
    CollectedContents(errorsAt, |rows|, e);
  }

  lemma {:induction false} CollectedContents(errorsAt: nat -> seq<RowError>, n: nat, e: RowError)
    requires forall i: nat | i < n :: (e in errorsAt(i) ==> e.row == i + 1) && multiset(errorsAt(i))[e] <= 1
    ensures e in Collected(errorsAt, n) <==> 1 <= e.row <= n && e in errorsAt(e.row - 1)
    ensures multiset(Collected(errorsAt, n))[e] <= 1
  {
    if n > 0 {
      CollectedContents(errorsAt, n - 1, e);
      InConcatenation(Collected(errorsAt, n - 1), errorsAt(n - 1), e);
    }
  }

  lemma InConcatenation(a: seq<RowError>, b: seq<RowError>, e: RowError)
    ensures e in a + b <==> e in a || e in b
    ensures multiset(a + b)[e] == multiset(a)[e] + multiset(b)[e]
    ensures e !in a ==> multiset(a)[e] == 0
    ensures e !in b ==> multiset(b)[e] == 0
  {
  }

  lemma RowErrorsAreItsFaults(row: Row, codes: Codes, number: nat, e: RowError)
    ensures e in ErrorsOfRow(row, codes, number) <==> e.row == number && Fault(row, e.column, codes) == Some(e.reason)
    ensures multiset(ErrorsOfRow(row, codes, number))[e] <= 1
  {
    ColumnErrorIsItsFault(row, OrgUnitColumn, codes, number, e);
    ColumnErrorIsItsFault(row, AccountColumn, codes, number, e);
    ColumnErrorIsItsFault(row, AmountColumn, codes, number, e);
    assert e.column == OrgUnitColumn || e.column == AccountColumn || e.column == AmountColumn;
  }

  lemma ColumnErrorIsItsFault(row: Row, column: Column, codes: Codes, number: nat, e: RowError)
    ensures multiset(ColumnError(row, column, codes, number))[e]
         == if e.row == number && e.column == column && Fault(row, column, codes) == Some(e.reason) then 1 else 0
    ensures e in ColumnError(row, column, codes, number)
       <==> e.row == number && e.column == column && Fault(row, column, codes) == Some(e.reason)
  {
  }

  /** The place of a column in a row's errors. */
  function ColumnOrder(column: Column): nat
  {
    match column
    case OrgUnitColumn => 1
    case AccountColumn => 2
    case AmountColumn => 3
  }

  predicate ErrorsAscend(errors: seq<RowError>) {
    forall i, j | 0 <= i < j < |errors| ::
      || errors[i].row < errors[j].row
      || (errors[i].row == errors[j].row && ColumnOrder(errors[i].column) < ColumnOrder(errors[j].column))
  }

  predicate InOrderUpTo(errors: seq<RowError>, n: nat) { ErrorsAscend(errors) && forall e | e in errors :: e.row <= n }

  /** Errors come row by row, and within a row unit, account, amount. */
  lemma ErrorsAreInOrder(rows: seq<Row>, codes: Codes)
    ensures ErrorsAscend(ErrorsOf(rows, codes))
  {
    var errorsAt := ErrorsAt(rows, codes);
    forall i: nat | i < |rows|
      ensures ErrorsAscend(errorsAt(i)) && forall e | e in errorsAt(i) :: e.row == i + 1
    {
      RowErrorsAscend(rows[i], codes, i + 1);
    }
    CollectedInOrder(errorsAt, |rows|);
  }

  lemma {:induction false} CollectedInOrder(errorsAt: nat -> seq<RowError>, n: nat)
    requires forall i: nat | i < n :: ErrorsAscend(errorsAt(i)) && forall e | e in errorsAt(i) :: e.row == i + 1
    ensures InOrderUpTo(Collected(errorsAt, n), n)
  {
    if n > 0 {
      CollectedInOrder(errorsAt, n - 1);
      AscendConcat(Collected(errorsAt, n - 1), errorsAt(n - 1), n);
    }
  }

  lemma AscendConcat(before: seq<RowError>, last: seq<RowError>, n: nat)
    requires ErrorsAscend(before) && ErrorsAscend(last)
    requires (forall e | e in before :: e.row < n) && forall e | e in last :: e.row == n
    ensures ErrorsAscend(before + last) && forall e | e in before + last :: e.row <= n
  {
    var all := before + last;
    forall i, j | 0 <= i < j < |all|
      ensures || all[i].row < all[j].row
              || (all[i].row == all[j].row && ColumnOrder(all[i].column) < ColumnOrder(all[j].column))
    {
      if i >= |before| {
        assert all[i] == last[i - |before|] && all[j] == last[j - |before|];
      } else if j >= |before| {
        assert before[i] in before && last[j - |before|] in last;
      }
    }
  }

  lemma RowErrorsAscend(row: Row, codes: Codes, number: nat)
    ensures ErrorsAscend(ErrorsOfRow(row, codes, number))
    ensures forall e | e in ErrorsOfRow(row, codes, number) :: e.row == number
  {
  }

  /** A file is valid exactly when every row is acceptable. */
  lemma ValidIffAllAcceptable(rows: seq<Row>, codes: Codes)
    ensures ErrorsOf(rows, codes) == [] <==> forall row | row in rows :: Acceptable(row, codes)
  {
    NothingCollectedIff(ErrorsAt(rows, codes), |rows|);
    forall i: nat | i < |rows|
      ensures ErrorsAt(rows, codes)(i) == [] <==> Acceptable(rows[i], codes)
    {
      NoErrorsAtIff(rows, codes, i);
    }
  }

  lemma NoErrorsAtIff(rows: seq<Row>, codes: Codes, i: nat)
    requires i < |rows|
    ensures ErrorsAt(rows, codes)(i) == [] <==> Acceptable(rows[i], codes)
  {
    NoErrorsIffAcceptable(rows[i], codes, i + 1);
  }

  lemma {:induction false} NothingCollectedIff(errorsAt: nat -> seq<RowError>, n: nat)
    ensures Collected(errorsAt, n) == [] <==> forall i: nat | i < n :: errorsAt(i) == []
  {
    if n > 0 {
      NothingCollectedIff(errorsAt, n - 1);
    }
  }

  // ------------------------------------------------------------------ atomic replacement

  datatype Expense = Expense(cycle: nat, unit: nat, account: nat, amount: nat)

  datatype Audit = Audit(cycle: nat, rowsImported: nat, units: set<string>)

  datatype Place = AtParse | AtCodes | AtDelete | AtCommit | AtAudit | AtAuditCommit

  datatype ImportError =
    | CycleNotOpen
    | BadHeaders(header: HeaderError)
    | BadRows(rows: seq<RowError>)
    | UnresolvedAccount
    | DatabaseError

  datatype Summary = Summary(cycle: nat, rowsImported: nat, units: set<string>)

  function NotOfCycle(cycle: nat): Expense -> bool { (e: Expense) => e.cycle != cycle }

  function OfCycle(cycle: nat): Expense -> bool { (e: Expense) => e.cycle == cycle }

  predicate Resolves(clean: seq<CleanRow>, codeIds: map<string, nat>) {
    forall r | r in clean :: r.accountCode in codeIds
  }

  function NewExpenses(cycle: nat, clean: seq<CleanRow>, codeIds: map<string, nat>): (r: seq<Expense>)
    requires Resolves(clean, codeIds)
    ensures |r| == |clean|
  {
    seq(|clean|, i requires 0 <= i < |clean| =>
      Expense(cycle, clean[i].unit, codeIds[clean[i].accountCode], clean[i].amount))
  }

  /** UNIQUE (cycle_id, org_unit_id, account_code_id) */
  predicate UniqueKeys(expenses: seq<Expense>) {
    forall i, j | 0 <= i < j < |expenses| :: !SameKey(expenses[i], expenses[j])
  }

  predicate SameKey(a: Expense, b: Expense) { a.cycle == b.cycle && a.unit == b.unit && a.account == b.account }

  function Replaced(expenses: seq<Expense>, cycle: nat, added: seq<Expense>): seq<Expense>
  {
    Filter(NotOfCycle(cycle), expenses) + added
  }

  function UnitCodes(clean: seq<CleanRow>): set<string> { set r | r in clean :: r.orgCode }

  /** The rows as the validator receives them. */
  function NormalizedRows(file: seq<RawRow>, lower: string -> string): (r: seq<Row>)
    ensures |r| == |file|
  {
    seq(|file|, i requires 0 <= i < |file| =>
      if AliasApplies(Headers(file, lower)) then WithAlias(Normalized(file[i], lower)) else Normalized(file[i], lower))
  }

  predicate HeadersOk(file: seq<RawRow>, lower: string -> string) {
    file != [] && MissingFrom(Headers(file, lower)) == {}
  }

  /** A file all of whose rows are acceptable and whose account codes still resolve. */
  predicate Importable(file: seq<RawRow>, lower: string -> string, codes: Codes, codeIds: map<string, nat>) {
    && HeadersOk(file, lower)
    && forall row | row in NormalizedRows(file, lower) :: RowImportable(row, codes, codeIds)
  }

  predicate RowImportable(row: Row, codes: Codes, codeIds: map<string, nat>) {
    Acceptable(row, codes) && CellText(AccountCell(row)).Some? && CellText(AccountCell(row)).value in codeIds
  }

  /** The expense an acceptable row stands for. */
  function ExpenseOf(cycle: nat, row: Row, codes: Codes, codeIds: map<string, nat>): Expense
    requires RowImportable(row, codes, codeIds)
  {
    Expense(cycle, codes.orgUnits[CellText(OrgCell(row)).value], codeIds[CellText(AccountCell(row)).value],
            CellAmount(AmountCell(row)).value)
  }

  function ExpensesOf(cycle: nat, file: seq<RawRow>, lower: string -> string, codes: Codes,
                      codeIds: map<string, nat>): (r: seq<Expense>)
    requires Importable(file, lower, codes, codeIds)
    ensures |r| == |file|
  {
    var rows := NormalizedRows(file, lower);
    seq(|file|, i requires 0 <= i < |file| => ExpenseOf(cycle, rows[i], codes, codeIds))
  }

  predicate UpToCommit(fault: Option<Place>) {
    fault.Some? && !fault.value.AtAudit? && !fault.value.AtAuditCommit?
  }

  class AccountService {
    /** Committed tables. */
    var expenses: seq<Expense>
    var audits: seq<Audit>
    /** The expense table as the open transaction sees it. */
    var working: seq<Expense>

    /** Whether the import commits: the cycle is open, the file importable without duplicate keys, and
        nothing faults up to and including the commit. */
    ghost predicate Stores(cycle: nat, open: bool, file: seq<RawRow>, lower: string -> string, codes: Codes,
                           codeIds: map<string, nat>, fault: Option<Place>)
      reads this
    {
      && open && !UpToCommit(fault)
      && Importable(file, lower, codes, codeIds)
      && UniqueKeys(Replaced(expenses, cycle, ExpensesOf(cycle, file, lower, codes, codeIds)))
    }

    /** Parsing, headers and full validation, before anything is written. */
    method CheckFile(file: seq<RawRow>, lower: string -> string, codes: Codes, fault: Option<Place>)
      returns (result: Result<seq<CleanRow>, ImportError>)
      ensures result.Ok? ==> HeadersOk(file, lower) && CleanFile(file, lower, codes, result.value)
      ensures result.Ok? <==> HeadersOk(file, lower) && fault != Some(AtParse) && fault != Some(AtCodes)
                              && forall row | row in NormalizedRows(file, lower) :: Acceptable(row, codes)
      ensures result.Err? ==> result.error.BadHeaders? || result.error.BadRows? || result.error == DatabaseError
      ensures result.Err? && result.error.BadHeaders? <==> fault != Some(AtParse) && !HeadersOk(file, lower)
      ensures result.Err? && result.error.BadRows? <==>
                && fault != Some(AtParse) && fault != Some(AtCodes) && HeadersOk(file, lower)
                && exists row | row in NormalizedRows(file, lower) :: !Acceptable(row, codes)
      ensures result.Err? && result.error.BadRows? ==>
                result.error.rows == ErrorsOf(NormalizedRows(file, lower), codes) && result.error.rows != []
    {
      if fault == Some(AtParse) {
        return Err(DatabaseError);
      }
      var rows, headerError := NormalizeHeaders(file, lower);
      if headerError.Some? {
        return Err(BadHeaders(headerError.value));
      }
      assert rows == NormalizedRows(file, lower);
      if fault == Some(AtCodes) {
        return Err(DatabaseError);
      }
      var clean, errors := Validate(rows, codes);
      ValidIffAllAcceptable(rows, codes);
      if errors != [] {
        return Err(BadRows(errors));
      }
      ValidRowsAreCleaned(rows, codes);
      return Ok(clean);
    }

    /** The delete and the insert loop, in the open transaction; an account code without id breaks it off. */
    method ReplaceExpenses(cycle: nat, clean: seq<CleanRow>, codeIds: map<string, nat>)
      returns (ok: bool, affected: set<string>)
      modifies this`working
      ensures ok <==> Resolves(clean, codeIds)
      ensures ok ==> working == Replaced(old(working), cycle, NewExpenses(cycle, clean, codeIds))
      ensures ok ==> affected == UnitCodes(clean)
    {
      working := Filter(NotOfCycle(cycle), working);
      affected := {};
      for i := 0 to |clean|
        invariant Resolves(clean[..i], codeIds)
        invariant working == Replaced(old(working), cycle, NewExpenses(cycle, clean[..i], codeIds))
        invariant affected == UnitCodes(clean[..i])
      {
        var accountCode := clean[i].accountCode;
        if accountCode !in codeIds {
          assert clean[i] in clean;
          return false, affected;
        }
        var row := Expense(cycle, clean[i].unit, codeIds[accountCode], clean[i].amount);
        assert clean[..i + 1] == clean[..i] + [clean[i]];
        assert NewExpenses(cycle, clean[..i + 1], codeIds) == NewExpenses(cycle, clean[..i], codeIds) + [row];
        working := working + [row];
        affected := affected + {clean[i].orgCode};
      }
      assert clean[..|clean|] == clean;
      return true, affected;
    }

    /** Either nothing changes, or the cycle's rows become exactly those of the file. */
    method ImportActuals(cycle: nat, open: bool, file: seq<RawRow>, lower: string -> string, codes: Codes,
                         codeIds: map<string, nat>, fault: Option<Place>) returns (result: Result<Summary, ImportError>)
      requires working == expenses
      modifies this
      ensures old(Stores(cycle, open, file, lower, codes, codeIds, fault)) ==>
                expenses == Replaced(old(expenses), cycle, ExpensesOf(cycle, file, lower, codes, codeIds))
      ensures !old(Stores(cycle, open, file, lower, codes, codeIds, fault)) ==> expenses == old(expenses)
      ensures old(Stores(cycle, open, file, lower, codes, codeIds, fault)) ==> working == expenses
      ensures result.Ok? <==> old(Stores(cycle, open, file, lower, codes, codeIds, fault)) && fault.None?
      ensures result.Ok? ==> result.value.cycle == cycle && result.value.rowsImported == |file|
                             && audits == old(audits) + [Audit(cycle, |file|, result.value.units)]
      ensures result.Ok? ==> result.value.units == UnitCodesIn(NormalizedRows(file, lower))
      ensures result == Err(CycleNotOpen) <==> !open
      ensures result.Err? && result.error.BadHeaders? <==> open && fault != Some(AtParse) && !HeadersOk(file, lower)
      ensures result.Err? && result.error.BadRows? <==>
                && open && fault != Some(AtParse) && fault != Some(AtCodes) && HeadersOk(file, lower)
                && exists row | row in NormalizedRows(file, lower) :: !Acceptable(row, codes)
      ensures result == Err(UnresolvedAccount) <==>
                && open && fault != Some(AtParse) && fault != Some(AtCodes) && fault != Some(AtDelete)
                && HeadersOk(file, lower) && (forall row | row in NormalizedRows(file, lower) :: Acceptable(row, codes))
                && !Importable(file, lower, codes, codeIds)
      ensures result.Err? ==> audits == old(audits)
      ensures result.Err? && result.error.BadRows? ==>
                result.error.rows == ErrorsOf(NormalizedRows(file, lower), codes) && result.error.rows != []
    {
      if !open {
        return Err(CycleNotOpen);
      }
      var checked := CheckFile(file, lower, codes, fault);
      if checked.Err? {
        return Err(checked.error);
      }
      var clean := checked.value;
      if fault == Some(AtDelete) {
        return Err(DatabaseError);
      }
      ResolvesIffImportable(file, lower, codes, codeIds, clean);
      var replaced, affected := ReplaceExpenses(cycle, clean, codeIds);
      if !replaced {
        return Err(UnresolvedAccount);
      }
      NewAreExpensesOf(cycle, file, lower, codes, codeIds, clean);
      if fault == Some(AtCommit) || !UniqueKeys(working) {
        return Err(DatabaseError);
      }
      UnitCodesAreThoseOfTheFile(file, lower, codes, clean);
      expenses := working;
      if fault == Some(AtAudit) || fault == Some(AtAuditCommit) {
        return Err(DatabaseError);
      }
      audits := audits + [Audit(cycle, |clean|, affected)];
      return Ok(Summary(cycle, |clean|, affected));
    }

    method Rollback()
      modifies this`working
      ensures working == expenses
    {
      working := expenses;
    }

    /** The request around the import: its session is rolled back when the import raises. */
    method ImportRequest(cycle: nat, open: bool, file: seq<RawRow>, lower: string -> string, codes: Codes,
                         codeIds: map<string, nat>, fault: Option<Place>) returns (result: Result<Summary, ImportError>)
      requires working == expenses
      modifies this
      ensures working == expenses
      ensures old(Stores(cycle, open, file, lower, codes, codeIds, fault)) ==>
                expenses == Replaced(old(expenses), cycle, ExpensesOf(cycle, file, lower, codes, codeIds))
      ensures !old(Stores(cycle, open, file, lower, codes, codeIds, fault)) ==> expenses == old(expenses)
      ensures result.Ok? <==> old(Stores(cycle, open, file, lower, codes, codeIds, fault)) && fault.None?
    {
      result := ImportActuals(cycle, open, file, lower, codes, codeIds, fault);
      if result.Err? {
        Rollback();
      }
    }

    /** Importing a file again, after other imports of the cycle or none, succeeds and leaves what importing it
        left: the table differs from a single import in nothing. */
    method ImportAgain(cycle: nat, file: seq<RawRow>, between: seq<RawRow>, lower: string -> string, codes: Codes,
                       codeIds: map<string, nat>, fault: Option<Place>)
      returns (ghost once: seq<Expense>, again: Result<Summary, ImportError>)
      requires working == expenses && Stores(cycle, true, file, lower, codes, codeIds, None)
      modifies this
      ensures once == Replaced(old(expenses), cycle, ExpensesOf(cycle, file, lower, codes, codeIds))
      ensures again.Ok? && expenses == once && working == expenses
    {
      var first := ImportRequest(cycle, true, file, lower, codes, codeIds, None);
      once := expenses;
      var other := ImportRequest(cycle, true, between, lower, codes, codeIds, fault);
      if expenses != once {
        LastImportWins(once, cycle, ExpensesOf(cycle, between, lower, codes, codeIds),
                       ExpensesOf(cycle, file, lower, codes, codeIds));
      }
      ImportedAgainIsSame(old(expenses), cycle, ExpensesOf(cycle, file, lower, codes, codeIds));
      again := ImportRequest(cycle, true, file, lower, codes, codeIds, None);
    }
  }

  /** The clean rows are those of the file's rows, in order. */
  ghost predicate CleanFile(file: seq<RawRow>, lower: string -> string, codes: Codes, clean: seq<CleanRow>) {
    && |clean| == |file|
    && forall i | 0 <= i < |file| :: CleanedFrom(clean[i], NormalizedRows(file, lower)[i], codes, i + 1)
  }

  lemma ResolvesIffImportable(file: seq<RawRow>, lower: string -> string, codes: Codes, codeIds: map<string, nat>,
                              clean: seq<CleanRow>)
    requires HeadersOk(file, lower) && CleanFile(file, lower, codes, clean)
    ensures Resolves(clean, codeIds) <==> Importable(file, lower, codes, codeIds)
  {
    var rows := NormalizedRows(file, lower);
    forall i | 0 <= i < |file|
      ensures RowImportable(rows[i], codes, codeIds) <==> clean[i].accountCode in codeIds
    {
      assert CleanedFrom(clean[i], rows[i], codes, i + 1);
    }
    if Resolves(clean, codeIds) {
      assert forall i | 0 <= i < |clean| :: clean[i] in clean;
    }
    if Importable(file, lower, codes, codeIds) {
      assert forall i | 0 <= i < |rows| :: rows[i] in rows;
    }
  }

  /** The org-unit codes the rows name. */
  function UnitCodesIn(rows: seq<Row>): set<string>
  {
    set row | row in rows && CellText(OrgCell(row)).Some? :: CellText(OrgCell(row)).value
  }

  lemma UnitCodesAreThoseOfTheFile(file: seq<RawRow>, lower: string -> string, codes: Codes, clean: seq<CleanRow>)
    requires CleanFile(file, lower, codes, clean)
    ensures UnitCodes(clean) == UnitCodesIn(NormalizedRows(file, lower))
  {
    var rows := NormalizedRows(file, lower);
    forall i | 0 <= i < |file|
      ensures clean[i] in clean && rows[i] in rows && CellText(OrgCell(rows[i])) == Some(clean[i].orgCode)
    {
      assert CleanedFrom(clean[i], rows[i], codes, i + 1);
    }
    forall code | code in UnitCodes(clean)
      ensures code in UnitCodesIn(rows)
    {
      var i :| 0 <= i < |clean| && clean[i].orgCode == code;
      assert rows[i] in rows;
    }
    forall code | code in UnitCodesIn(rows)
      ensures code in UnitCodes(clean)
    {
      var i :| 0 <= i < |rows| && CellText(OrgCell(rows[i])) == Some(code);
      assert clean[i] in clean;
    }
  }

  lemma NewAreExpensesOf(cycle: nat, file: seq<RawRow>, lower: string -> string, codes: Codes,
                         codeIds: map<string, nat>,
                         clean: seq<CleanRow>)
    requires Importable(file, lower, codes, codeIds) && Resolves(clean, codeIds) && CleanFile(file, lower, codes, clean)
    ensures NewExpenses(cycle, clean, codeIds) == ExpensesOf(cycle, file, lower, codes, codeIds)
  {
    forall i | 0 <= i < |file|
      ensures NewExpenses(cycle, clean, codeIds)[i] == ExpensesOf(cycle, file, lower, codes, codeIds)[i]
    {
      assert CleanedFrom(clean[i], NormalizedRows(file, lower)[i], codes, i + 1);
    }
  }

  /** The expense of each row of the file, column by column. */
  lemma ExpensesAreTheRows(cycle: nat, file: seq<RawRow>, lower: string -> string, codes: Codes,
                           codeIds: map<string, nat>, i: nat)
    requires Importable(file, lower, codes, codeIds) && i < |file|
    ensures var (e, row) := (ExpensesOf(cycle, file, lower, codes, codeIds)[i], NormalizedRows(file, lower)[i]);
            && e.cycle == cycle
            && CellText(OrgCell(row)).Some? && CellText(OrgCell(row)).value in codes.orgUnits
            && e.unit == codes.orgUnits[CellText(OrgCell(row)).value]
            && CellText(AccountCell(row)).Some? && CellText(AccountCell(row)).value in codeIds
            && e.account == codeIds[CellText(AccountCell(row)).value]
            && AmountCell(row).Some? && ParseAmount(AmountCell(row).value.amount, true) == Ok(e.amount)
  {
    assert NormalizedRows(file, lower)[i] in NormalizedRows(file, lower);
  }

  /** After a replacement the cycle's rows are exactly the new ones and every other cycle reads as before. */
  lemma ReplacementIsExact(expenses: seq<Expense>, cycle: nat, other: nat, added: seq<Expense>)
    requires forall e | e in added :: e.cycle == cycle
    ensures Filter(OfCycle(cycle), Replaced(expenses, cycle, added)) == added
    ensures other != cycle ==>
              Filter(OfCycle(other), Replaced(expenses, cycle, added)) == Filter(OfCycle(other), expenses)
  {
    var kept := Filter(NotOfCycle(cycle), expenses);
    FilterAppend(OfCycle(cycle), kept, added);
    FilterAppend(OfCycle(other), kept, added);
    FilterNone(OfCycle(cycle), kept);
    FilterAll(OfCycle(cycle), added);
    if other != cycle {
      FilterNone(OfCycle(other), added);
      FilterWithin(OfCycle(other), NotOfCycle(cycle), expenses);
    }
  }

  /** The last import wins: whatever was imported for the cycle before, importing a file leaves what
      importing it alone leaves. Importing it twice is the case of equal files. */
  lemma LastImportWins(expenses: seq<Expense>, cycle: nat, earlier: seq<Expense>, added: seq<Expense>)
    requires forall e | e in earlier :: e.cycle == cycle
    ensures Replaced(Replaced(expenses, cycle, earlier), cycle, added) == Replaced(expenses, cycle, added)
  {
    var kept := Filter(NotOfCycle(cycle), expenses);
    FilterAppend(NotOfCycle(cycle), kept, earlier);
    FilterNone(NotOfCycle(cycle), earlier);
    FilterAll(NotOfCycle(cycle), kept);
    assert kept + [] == kept;
  }

  lemma ImportedAgainIsSame(expenses: seq<Expense>, cycle: nat, added: seq<Expense>)
    requires forall e | e in added :: e.cycle == cycle
    ensures Replaced(Replaced(expenses, cycle, added), cycle, added) == Replaced(expenses, cycle, added)
  {
    LastImportWins(expenses, cycle, added, added);
  }

  /** Imports of different cycles do not interfere: in either order each cycle reads the same. */
  lemma ImportsCommute(expenses: seq<Expense>, a: nat, added: seq<Expense>, b: nat, other: seq<Expense>, cycle: nat)
    requires a != b && (forall e | e in added :: e.cycle == a) && (forall e | e in other :: e.cycle == b)
    ensures Filter(OfCycle(cycle), Replaced(Replaced(expenses, a, added), b, other))
         == Filter(OfCycle(cycle), Replaced(Replaced(expenses, b, other), a, added))
  {
    ReplacementIsExact(expenses, a, cycle, added);
    ReplacementIsExact(expenses, b, cycle, other);
    ReplacementIsExact(Replaced(expenses, a, added), b, cycle, other);
    ReplacementIsExact(Replaced(expenses, b, other), a, cycle, added);
  }

  /** Whether the commit is refused depends on the file alone, when the table was in order: two of its rows
      name the same unit and account. */
  lemma RefusedIffFileRepeatsAKey(expenses: seq<Expense>, cycle: nat, added: seq<Expense>)
    requires UniqueKeys(expenses) && forall e | e in added :: e.cycle == cycle
    ensures !UniqueKeys(Replaced(expenses, cycle, added)) <==>
              exists i, j :: 0 <= i < j < |added| && added[i].unit == added[j].unit
                  && added[i].account == added[j].account
  {
    ReplacedUniqueIff(expenses, cycle, added);
    assert forall i | 0 <= i < |added| :: added[i] in added;
    assert forall i, j | 0 <= i < j < |added| ::
        SameKey(added[i], added[j]) <==> added[i].unit == added[j].unit && added[i].account == added[j].account;
  }

  lemma ReplacedUniqueIff(expenses: seq<Expense>, cycle: nat, added: seq<Expense>)
    requires UniqueKeys(expenses) && forall e | e in added :: e.cycle == cycle
    ensures UniqueKeys(Replaced(expenses, cycle, added)) <==> UniqueKeys(added)
  {
    var kept := Filter(NotOfCycle(cycle), expenses);
    var all := kept + added;
    FilterKeepsUnique(NotOfCycle(cycle), expenses);
    assert forall i | 0 <= i < |kept| :: kept[i] in kept && all[i] == kept[i];
    assert forall i | 0 <= i < |added| :: added[i] in added && all[|kept| + i] == added[i];
    if UniqueKeys(all) {
      forall i, j | 0 <= i < j < |added|
        ensures !SameKey(added[i], added[j])
      {
        assert !SameKey(all[|kept| + i], all[|kept| + j]);
      }
    }
    if UniqueKeys(added) {
      forall i, j | 0 <= i < j < |all|
        ensures !SameKey(all[i], all[j])
      {
        if i >= |kept| {
          assert all[i] == added[i - |kept|] && all[j] == added[j - |kept|];
        }
      }
    }
  }

  function OtherKeys(): (Expense, Expense) -> bool { (a: Expense, b: Expense) => !SameKey(a, b) }

  lemma FilterKeepsUnique(p: Expense -> bool, s: seq<Expense>)
    requires UniqueKeys(s)
    ensures UniqueKeys(Filter(p, s))
  {
    FilterKeepsPairwise(OtherKeys(), p, s);
    assert Pairwise(OtherKeys(), Filter(p, s));
  }

  // ------------------------------------------------------------------ overlapping imports

  /** A row and the import that stored it. */
  datatype Stored = Stored(importer: nat, row: Expense)

  /** An import between its delete and its commit: which imports' rows the delete saw, and the rows it adds. */
  datatype Import = Import(cycle: nat, seen: set<nat>, added: seq<Expense>)

  datatype World = World(stored: seq<Stored>, open: map<nat, Import>, used: set<nat>)

  /** The delete sees what is committed when it starts; the inserts are sent, and the unique constraint tested,
      with the commit. A delete that waits for another import's locks still does not see that import's rows. */
  datatype Step = Delete(s: nat, cycle: nat, added: seq<Expense>) | Commit(s: nat) | Abandon(s: nat)

  function Plain(stored: seq<Stored>): (r: seq<Expense>)
    ensures |r| == |stored|
  {
    if stored == [] then [] else Plain(stored[..|stored| - 1]) + [stored[|stored| - 1].row]
  }

  function AddedBy(s: nat, added: seq<Expense>): (r: seq<Stored>)
    ensures |r| == |added|
  {
    if added == [] then [] else AddedBy(s, added[..|added| - 1]) + [Stored(s, added[|added| - 1])]
  }

  function Survives(i: Import): Stored -> bool { (r: Stored) => !(r.row.cycle == i.cycle && r.importer in i.seen) }

  function Elsewhere(cycle: nat): Stored -> bool { (r: Stored) => r.row.cycle != cycle }

  function StoredAfter(stored: seq<Stored>, s: nat, i: Import): seq<Stored>
  {
    Filter(Survives(i), stored) + AddedBy(s, i.added)
  }

  predicate Commits(w: World, step: Step) {
    step.Commit? && step.s in w.open && UniqueKeys(Plain(StoredAfter(w.stored, step.s, w.open[step.s])))
  }

  function Apply(w: World, step: Step): World
  {
    match step
    case Delete(s, cycle, added) =>
      if s in w.used || exists e | e in added :: e.cycle != cycle then w
      else
        var seen := set r | r in w.stored && r.row.cycle == cycle :: r.importer;
        World(w.stored, w.open[s := Import(cycle, seen, added)], w.used + {s})
    case Commit(s) =>
      World(if Commits(w, step) then StoredAfter(w.stored, s, w.open[s]) else w.stored, w.open - {s}, w.used)
    case Abandon(s) => w.(open := w.open - {s})
  }

  const START: World := World([], map[], {})

  function Run(steps: seq<Step>): World
  {
    if steps == [] then START else Apply(Run(steps[..|steps| - 1]), steps[|steps| - 1])
  }

  /** A commit, or giving up, ends its import: none commits twice on one delete. */
  lemma CommitEndsTheImport(w: World, s: nat)
    ensures Apply(w, Commit(s)).open == w.open - {s} && Apply(w, Commit(s)).used == w.used
    ensures Apply(w, Abandon(s)) == World(w.stored, w.open - {s}, w.used)
    ensures forall cycle, added | s in w.used :: Apply(w, Delete(s, cycle, added)) == w
  {
  }

  /** Rows of the cycle were committed since the delete. */
  predicate Missed(stored: seq<Stored>, i: Import) {
    exists r | r in stored :: r.row.cycle == i.cycle && r.importer !in i.seen
  }

  /** A commit replaces the cycle's rows exactly when the delete had seen them all. */
  lemma CommitReplacesIff(stored: seq<Stored>, s: nat, i: Import)
    ensures Plain(StoredAfter(stored, s, i)) == Replaced(Plain(stored), i.cycle, i.added) <==> !Missed(stored, i)
  {
    var kept, elsewhere := Filter(Survives(i), stored), Filter(Elsewhere(i.cycle), stored);
    PlainConcat(kept, AddedBy(s, i.added));
    PlainAdded(s, i.added);
    PlainFilter(stored, i.cycle);
    KeepsMoreIff(stored, i);
    if Missed(stored, i) {
      assert |Plain(kept) + i.added| != |Plain(elsewhere) + i.added|;
    }
  }

  lemma {:induction false} PlainConcat(a: seq<Stored>, b: seq<Stored>)
    ensures Plain(a + b) == Plain(a) + Plain(b)
  {
    if b == [] {
      assert a + b == a;
    } else {
      assert (a + b)[..|a + b| - 1] == a + b[..|b| - 1];
      PlainConcat(a, b[..|b| - 1]);
    }
  }

  lemma {:induction false} PlainAdded(s: nat, added: seq<Expense>)
    ensures Plain(AddedBy(s, added)) == added
  {
    if added != [] {
      PlainAdded(s, added[..|added| - 1]);
      PlainConcat(AddedBy(s, added[..|added| - 1]), [Stored(s, added[|added| - 1])]);
      assert Plain([Stored(s, added[|added| - 1])]) == [added[|added| - 1]];
    }
  }

  lemma {:induction false} PlainFilter(stored: seq<Stored>, cycle: nat)
    ensures Plain(Filter(Elsewhere(cycle), stored)) == Filter(NotOfCycle(cycle), Plain(stored))
  {
    if stored != [] {
      var front, last := stored[..|stored| - 1], stored[|stored| - 1];
      assert stored == front + [last];
      PlainFilter(front, cycle);
      FilterSnoc(Elsewhere(cycle), front, last);
      FilterSnoc(NotOfCycle(cycle), Plain(front), last.row);
    }
  }

  /** The rows that survive are those of other cycles, and any the delete did not see. */
  lemma {:induction false} KeepsMoreIff(stored: seq<Stored>, i: Import)
    ensures var (kept, elsewhere) := (Filter(Survives(i), stored), Filter(Elsewhere(i.cycle), stored));
            if Missed(stored, i) then |kept| > |elsewhere| else kept == elsewhere
  {
    if stored != [] {
      var front, last := stored[..|stored| - 1], stored[|stored| - 1];
      assert stored == front + [last];
      KeepsMoreIff(front, i);
      FilterSnoc(Survives(i), front, last);
      FilterSnoc(Elsewhere(i.cycle), front, last);
      assert forall r :: r in stored <==> r in front || r == last;
    }
  }

  /** The imports that commit, one whole import after the other in the order of their commits. */
  function Serial(steps: seq<Step>): seq<Expense>
  {
    if steps == [] then []
    else
      var front, step := steps[..|steps| - 1], steps[|steps| - 1];
      if Commits(Run(front), step) then
        Replaced(Serial(front), Run(front).open[step.s].cycle, Run(front).open[step.s].added)
      else Serial(front)
  }

  function IsSerial(): seq<Step> -> bool { (steps: seq<Step>) => Plain(Run(steps).stored) == Serial(steps) }

  predicate CommitsUnseeing(w: World, step: Step) { Commits(w, step) && Missed(w.stored, w.open[step.s]) }

  /** No import of the run commits after another has stored rows of its cycle since its delete. */
  predicate NoneMissed(steps: seq<Step>)
  {
    steps == []
    || (NoneMissed(steps[..|steps| - 1]) && !CommitsUnseeing(Run(steps[..|steps| - 1]), steps[|steps| - 1]))
  }

  /** Overlapping imports are whole imports one after the other, with all that is proved of those, in exactly the
      runs where every delete saw all rows its commit finds of its cycle. */
  lemma {:induction false} SerialIffNoneMissed(steps: seq<Step>)
    ensures AtEveryPoint(IsSerial(), steps) <==> NoneMissed(steps)
  {
    AtEveryPointSplits(IsSerial(), steps);
    if steps != [] {
      var front, step := steps[..|steps| - 1], steps[|steps| - 1];
      SerialIffNoneMissed(front);
      AtEveryPointSplits(IsSerial(), front);
      if Commits(Run(front), step) {
        CommitReplacesIff(Run(front).stored, step.s, Run(front).open[step.s]);
      }
    }
  }

  /** Two imports of a cycle that both delete before either commits both stay, if their files name different
      keys: the cycle then reads as neither file. */
  lemma OverlappingImportsBothStay(cycle: nat, a: Expense, b: Expense)
    requires a.cycle == b.cycle == cycle && !SameKey(a, b)
    ensures var deleted := Apply(Apply(START, Delete(1, cycle, [a])), Delete(2, cycle, [b]));
            Plain(Apply(Apply(deleted, Commit(1)), Commit(2)).stored) == [a, b]
  {
    TwoDeletes(a, b);
    CommitBoth(BothDeleted(a, b), a, b);
  }

  /** Neither delete saw anything, so both imports only add. */
  lemma CommitBoth(w: World, a: Expense, b: Expense)
    requires w.stored == [] && !SameKey(a, b) && 1 in w.open && 2 in w.open
    requires w.open[1] == Import(a.cycle, {}, [a]) && w.open[2] == Import(b.cycle, {}, [b])
    ensures Plain(Apply(Apply(w, Commit(1)), Commit(2)).stored) == [a, b]
  {
    assert Plain(w.stored) + [a] == [a];
    UnseeingCommit(w, 1, a);
    var second := World(w.stored + [Stored(1, a)], w.open - {1}, w.used);
    assert second.stored == [Stored(1, a)];
    OneAdded(1, a);
    assert UniqueKeys([a] + [b]);
    UnseeingCommit(second, 2, b);
    PlainConcat([Stored(1, a)], [Stored(2, b)]);
    OneAdded(2, b);
  }

  function BothDeleted(a: Expense, b: Expense): World
  {
    World([], map[1 := Import(a.cycle, {}, [a]), 2 := Import(b.cycle, {}, [b])], {1, 2})
  }

  lemma TwoDeletes(a: Expense, b: Expense)
    ensures Apply(Apply(START, Delete(1, a.cycle, [a])), Delete(2, b.cycle, [b])) == BothDeleted(a, b)
  {
    DeleteOnEmpty(START, 1, a);
    DeleteOnEmpty(World([], map[1 := Import(a.cycle, {}, [a])], {1}), 2, b);
    assert Apply(START, Delete(1, a.cycle, [a])) == World([], map[1 := Import(a.cycle, {}, [a])], {1});
  }

  /** The commit of an import whose delete saw nothing only adds. */
  lemma UnseeingCommit(w: World, s: nat, e: Expense)
    requires s in w.open && w.open[s] == Import(e.cycle, {}, [e]) && UniqueKeys(Plain(w.stored) + [e])
    ensures Apply(w, Commit(s)) == World(w.stored + [Stored(s, e)], w.open - {s}, w.used)
  {
    FilterAll(Survives(w.open[s]), w.stored);
    OneAdded(s, e);
    PlainConcat(w.stored, [Stored(s, e)]);
  }

  lemma DeleteOnEmpty(w: World, s: nat, e: Expense)
    requires w.stored == [] && s !in w.used
    ensures Apply(w, Delete(s, e.cycle, [e])) == World([], w.open[s := Import(e.cycle, {}, [e])], w.used + {s})
  {
    var seen := set r | r in w.stored && r.row.cycle == e.cycle :: r.importer;
    assert seen == {};
  }

  lemma OneAdded(s: nat, e: Expense)
    ensures AddedBy(s, [e]) == [Stored(s, e)] && Plain([Stored(s, e)]) == [e]
  {
    assert [e][..0] == [];
    assert [Stored(s, e)][..0] == [];
  }

  /** An import that nothing interrupts is the replacement that ImportActuals makes. */
  lemma CallIsASchedule(w: World, s: nat, cycle: nat, added: seq<Expense>)
    requires s !in w.used && (forall e | e in added :: e.cycle == cycle)
    requires UniqueKeys(Replaced(Plain(w.stored), cycle, added))
    ensures Plain(Apply(Apply(w, Delete(s, cycle, added)), Commit(s)).stored) == Replaced(Plain(w.stored), cycle, added)
  {
    var i := Apply(w, Delete(s, cycle, added)).open[s];
    assert !Missed(w.stored, i);
    CommitReplacesIff(w.stored, s, i);
  }
}
