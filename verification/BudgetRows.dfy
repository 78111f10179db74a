/** The collect-then-report row loop of the budget upload validator. */
module BudgetRows {
  import opened Common
  import opened Amounts
  import opened Repr

  datatype RawRow = RawRow(code: Option<string>, amount: Cell)

  datatype CleanRow = CleanRow(row: nat, code: string, amount: nat)

  datatype RowError = RowError(row: nat, column: string, code: string)

  datatype ValidationResult = ValidationResult(rows: seq<CleanRow>, errors: seq<RowError>)

  predicate BlankAmount(cell: Cell) {
    cell.Missing? || (cell.Text? && Strip(cell.text) == [])
  }

  /** What makes a row acceptable, independently of the order in which the loop tests it. */
  predicate Acceptable(raw: RawRow, operational: set<string>) {
    && CleanCell(raw.code).Some?
    && CleanCell(raw.code).value in operational
    && ParseAmount(raw.amount, true).Ok?
  }

  /** The code is chosen by looking for "non-negative" in the reason. The reason for a negative amount has the
      word, and the one for a cell that is not numeric echoes the cell; no other reason can hold it. */
  function AmountCode(cell: Cell, error: AmountError, printable: char -> bool): string
  {
    if error.AmountNegative? then "UPLOAD_006"
    else if error.AmountNotNumeric? && cell.Text? && Contains(NotNumericReason(cell.text, printable), NON_NEGATIVE) then
      "UPLOAD_006"
    else "UPLOAD_005"
  }

  /** The single error a bad row reports: the first test it fails. */
  function FirstError(raw: RawRow, operational: set<string>, row: nat, printable: char -> bool): RowError
    requires !Acceptable(raw, operational)
  {
    if CleanCell(raw.code).None? || CleanCell(raw.code).value !in operational then
      RowError(row, "account_code", "UPLOAD_004")
    else if BlankAmount(raw.amount) then RowError(row, "budget_amount", "UPLOAD_004")
    else RowError(row, "budget_amount", AmountCode(raw.amount, ParseAmount(raw.amount, true).error, printable))
  }

  predicate CleanedFrom(clean: CleanRow, raw: RawRow, row: nat) {
    && CleanCell(raw.code) == Some(clean.code)
    && ParseAmount(raw.amount, true) == Ok(clean.amount)
    && clean.row == row
  }

  /** Rows are numbered as in the workbook: the header is row 1, so data starts at row 2. */
  function RowErrors(raw: seq<RawRow>, operational: set<string>, printable: char -> bool): seq<RowError>
  {
    if raw == [] then []
    else
      var last := |raw| - 1;
      RowErrors(raw[..last], operational, printable)
      + (if Acceptable(raw[last], operational) then [] else [FirstError(raw[last], operational, last + 2, printable)])
  }

  method ValidateRows(raw: seq<RawRow>, operational: set<string>, printable: char -> bool)
    returns (result: ValidationResult)
    ensures result.errors == RowErrors(raw, operational, printable)
    ensures result.errors != [] ==> result.rows == []
    ensures result.errors == [] ==> |result.rows| == |raw|
    ensures result.errors == [] ==> forall i | 0 <= i < |raw| :: CleanedFrom(result.rows[i], raw[i], i + 2)
    ensures result.errors == [] ==> forall i | 0 <= i < |raw| ::
              && result.rows[i].row == i + 2
              && raw[i].code.Some? && result.rows[i].code == Strip(raw[i].code.value)
                 && result.rows[i].code in operational
              && ParseAmount(raw[i].amount, true) == Ok(result.rows[i].amount)
  {
    var errors: seq<RowError> := [];
    var cleanRows: seq<CleanRow> := [];
    for index := 0 to |raw|
      invariant errors == RowErrors(raw[..index], operational, printable)
      invariant errors == [] ==> |cleanRows| == index
      invariant errors == [] ==> forall i | 0 <= i < index ::
        CleanedFrom(cleanRows[i], raw[i], i + 2) && cleanRows[i].code in operational
    {
      assert raw[..index + 1][..index] == raw[..index];
      var sourceRow := index + 2;
      var codeClean := CleanCell(raw[index].code);
      if codeClean.None? {
        errors := errors + [RowError(sourceRow, "account_code", "UPLOAD_004")];
        continue;
      }
      if codeClean.value !in operational {
        errors := errors + [RowError(sourceRow, "account_code", "UPLOAD_004")];
        continue;
      }
      if BlankAmount(raw[index].amount) {
        errors := errors + [RowError(sourceRow, "budget_amount", "UPLOAD_004")];
        continue;
      }
      var amount := ParseAmount(raw[index].amount, true);
      if amount.Err? {
        errors := errors
            + [RowError(sourceRow, "budget_amount", AmountCode(raw[index].amount, amount.error, printable))];
        continue;
      }
      cleanRows := cleanRows + [CleanRow(sourceRow, codeClean.value, amount.value)];
    }
    assert raw[..|raw|] == raw;
    if errors != [] {
      return ValidationResult([], errors);
    }
    return ValidationResult(cleanRows, []);
  }

  /** Error e reports a bad row of the file, by the first test that row fails. */
  predicate Justified(e: RowError, raw: seq<RawRow>, operational: set<string>, printable: char -> bool) {
    && 2 <= e.row < |raw| + 2
    && !Acceptable(raw[e.row - 2], operational)
    && e == FirstError(raw[e.row - 2], operational, e.row, printable)
  }

  /** What a row is worth reporting for, in the order of the tests: no code, or one that is not operational; an empty
      amount; an amount that is negative, or whose echo speaks of "non-negative"; any other amount that is refused. */
  predicate Reports(e: RowError, raw: RawRow, operational: set<string>) {
    var stated := StatedAmount(raw.amount);
    if raw.code.None? || Strip(raw.code.value) == [] || Strip(raw.code.value) !in operational then
      e.column == "account_code" && e.code == "UPLOAD_004"
    else if raw.amount.Missing? || (raw.amount.Text? && forall c | c in raw.amount.text :: IsSpace(c)) then
      e.column == "budget_amount" && e.code == "UPLOAD_004"
    else if (stated.Some? && stated.value < 0.0) || EchoesTheWord(raw.amount) then
      e.column == "budget_amount" && e.code == "UPLOAD_006"
    else
      e.column == "budget_amount" && e.code == "UPLOAD_005"
      && (stated.Some? ==> 100.0 * stated.value >= 10_000_000_000_000_000_000_000_000_000.0 - 0.5)
  }

  lemma FirstErrorReports(raw: RawRow, operational: set<string>, row: nat, printable: char -> bool)
    requires !Acceptable(raw, operational)
    ensures FirstError(raw, operational, row, printable).row == row
    ensures Reports(FirstError(raw, operational, row, printable), raw, operational)
  {
    ParseAmountIff(raw.amount, true);
    if raw.amount.Text? {
      StripLeavesNoBlankEnds(raw.amount.text);
      ReasonContainsIff(raw.amount.text, printable);
    }
  }

  /** A row is acceptable when its code is operational and its amount is stated, not negative, and below 10^26. */
  lemma AcceptableIff(raw: RawRow, operational: set<string>)
    ensures var stated := StatedAmount(raw.amount);
            Acceptable(raw, operational) <==>
              && raw.code.Some? && Strip(raw.code.value) != [] && Strip(raw.code.value) in operational
              && stated.Some? && 0.0 <= stated.value
              && 100.0 * stated.value < 10_000_000_000_000_000_000_000_000_000.0 - 0.5
  {
    ParseAmountIff(raw.amount, true);
    AsDecimalStates(raw.amount);
  }

  /** Every reported error is justified, and row numbers strictly increase (so none is reported twice). */
  lemma {:induction false} ErrorsAreJustified(raw: seq<RawRow>, operational: set<string>, printable: char -> bool)
    ensures forall e | e in RowErrors(raw, operational, printable) :: Justified(e, raw, operational, printable)
    ensures forall i, j | 0 <= i < j < |RowErrors(raw, operational, printable)| ::
              RowErrors(raw, operational, printable)[i].row < RowErrors(raw, operational, printable)[j].row
  {
    if raw != [] {
      var front := raw[..|raw| - 1];
      ErrorsAreJustified(front, operational, printable);
      var errors, tail := RowErrors(front, operational, printable), RowErrors(raw, operational, printable);
      assert forall i | 0 <= i < |errors| :: tail[i] == errors[i] && errors[i] in errors;
      forall e | e in tail
        ensures Justified(e, raw, operational, printable)
      {
        if e in errors {
          assert Justified(e, front, operational, printable);
        }
      }
    }
  }

  /** And each says of its row what is worth reporting. */
  lemma ErrorsReport(raw: seq<RawRow>, operational: set<string>, printable: char -> bool)
    ensures forall e | e in RowErrors(raw, operational, printable) ::
              2 <= e.row < |raw| + 2 && Reports(e, raw[e.row - 2], operational)
  {
    ErrorsAreJustified(raw, operational, printable);
    forall e | e in RowErrors(raw, operational, printable)
      ensures 2 <= e.row < |raw| + 2 && Reports(e, raw[e.row - 2], operational)
    {
      assert Justified(e, raw, operational, printable);
      FirstErrorReports(raw[e.row - 2], operational, e.row, printable);
    }
  }

  /** Every bad row is reported; with ErrorsAreJustified, by exactly one error. */
  lemma {:induction false} BadRowsAreReported(raw: seq<RawRow>, operational: set<string>, printable: char -> bool,
                                              i: nat)
    requires i < |raw| && !Acceptable(raw[i], operational)
    ensures FirstError(raw[i], operational, i + 2, printable) in RowErrors(raw, operational, printable)
  {
    if i < |raw| - 1 {
      BadRowsAreReported(raw[..|raw| - 1], operational, printable, i);
    }
  }

  /** The batch is accepted exactly when every row is acceptable. */
  lemma {:induction false} ValidIffAllAcceptable(raw: seq<RawRow>, operational: set<string>, printable: char -> bool)
    ensures RowErrors(raw, operational, printable) == []
       <==> forall i | 0 <= i < |raw| :: Acceptable(raw[i], operational)
  {
    if raw != [] {
      ValidIffAllAcceptable(raw[..|raw| - 1], operational, printable);
    }
  }

  // ------------------------------------------------------------------ what UPLOAD_006 means

  /** A text that is no number and whose echo speaks of "non-negative". */
  predicate EchoesTheWord(cell: Cell) {
    cell.Text? && Strip(cell.text) != [] && cell.numeral.None? && EchoesNonNegative(cell.text)
  }

  /** UPLOAD_006 is meant for negative amounts. A row whose amount is refused gets it exactly when the amount is
      negative or the cell echoes the word; so it means a negative amount exactly for the cells that do not. */
  lemma Upload006MeansNegativeIff(raw: RawRow, operational: set<string>, row: nat, printable: char -> bool)
    requires CleanCell(raw.code).Some? && CleanCell(raw.code).value in operational && !BlankAmount(raw.amount)
    requires ParseAmount(raw.amount, true).Err?
    ensures var code := FirstError(raw, operational, row, printable).code;
            var negative := ParseAmount(raw.amount, true).error.AmountNegative?;
            && (code == "UPLOAD_006" <==> negative || EchoesTheWord(raw.amount))
            && ((code == "UPLOAD_006" <==> negative) <==> !EchoesTheWord(raw.amount))
  {
    if raw.amount.Text? {
      ReasonContainsIff(raw.amount.text, printable);
    }
    assert "UPLOAD_005"[9] != "UPLOAD_006"[9];
  }

  lemma EchoIsReportedAsNegative(raw: RawRow, operational: set<string>, row: nat, printable: char -> bool)
    requires CleanCell(raw.code).Some? && CleanCell(raw.code).value in operational && EchoesTheWord(raw.amount)
    ensures !Acceptable(raw, operational)
            && FirstError(raw, operational, row, printable) == RowError(row, "budget_amount", "UPLOAD_006")
    ensures ParseAmount(raw.amount, true) == Err(AmountNotNumeric)
  {
    Upload006MeansNegativeIff(raw, operational, row, printable);
  }

  /** The texts that show it: the word itself, and a line feed followed by "on-negative". */
  lemma TheWordEchoes()
    ensures EchoesTheWord(Text(NON_NEGATIVE, None))
    ensures EchoesTheWord(Text(['\n'] + ON_NEGATIVE, None))
  {
    var word, broken := NON_NEGATIVE, ['\n'] + ON_NEGATIVE;
    StripLeavesNoBlankEnds(word);
    StripLeavesNoBlankEnds(broken);
    assert word[0] == 'n' && broken[1] == 'o' && !IsSpace('n') && !IsSpace('o');
    assert word[0] in word && broken[1] in broken;
    assert word <= word && broken <= broken;
  }

  /** The text "non-negative" in the amount column is reported as a negative amount, although it is none. */
  lemma NotNumericReportedAsNegative(code: string, row: nat, printable: char -> bool)
    requires CleanCell(Some(code)).Some?
    ensures var (raw, operational) := (RawRow(Some(code), Text(NON_NEGATIVE, None)), {CleanCell(Some(code)).value});
            && !Acceptable(raw, operational) && FirstError(raw, operational, row, printable).code == "UPLOAD_006"
            && ParseAmount(raw.amount, true) == Err(AmountNotNumeric)
  {
    TheWordEchoes();
    EchoIsReportedAsNegative(RawRow(Some(code), Text(NON_NEGATIVE, None)), {CleanCell(Some(code)).value}, row,
                             printable);
  }
}
