/**
 * Turning the rows of a parsed CSV into the revenue series: for each row the
 * column aliases are tried in priority order and the first cell that holds
 * text and reads as a number contributes one value; rows without such a
 * cell contribute nothing.
 */
module Ingest {
  import opened Wrappers
  import opened JsNumbers

  /** A CSV row as the header-mode parser returns it: column name to cell text; a missing key is `undefined`. */
  type Row = map<string, string>

  /** REVENUE_COLUMNS, in priority order (the same list in both handler files). */
  const RevenueColumns: seq<string> := ["Revenue", "revenue", "Rev", "Amount"]

  /** The two handler files differ in how a cell is turned into a number. */
  datatype Variant = TypeScript | JavaScript

  /** The characters the TypeScript handler keeps: `[0-9.-]`. */
  predicate Kept(c: char) { IsDigit(c) || c == '.' || c == '-' }

  /** `s.replace(/[^0-9.\-]/g, "")`. */
  function Sanitise(s: string): (r: string)
    ensures |r| <= |s|
    ensures forall i :: 0 <= i < |r| ==> Kept(r[i])
  {
    if s == [] then [] else (if Kept(s[0]) then [s[0]] else []) + Sanitise(s[1..])
  }

  /** The number a cell's text yields: sanitised first in the TypeScript file, as is in the JavaScript file. */
  function CellValue(variant: Variant, text: string): Option<real>
  {
    match variant
    case TypeScript => ParseFloat(Sanitise(text))
    case JavaScript => ParseFloat(text)
  }

  /**
   * The cell is tried at all: `val !== undefined && val !== null && val !== ""`
   * in the TypeScript file, `if (val)` in the JavaScript file; on string cells
   * both mean "present and non-empty".
   */
  predicate HasText(row: Row, col: string) { col in row && row[col] != "" }

  /** The cell under `col` is tried and reads as a number. */
  predicate Usable(variant: Variant, row: Row, col: string)
  {
    HasText(row, col) && CellValue(variant, row[col]).Some?
  }

  /** The value of the first usable alias in `cols`, if any. */
  function FirstValue(variant: Variant, row: Row, cols: seq<string>): Option<real>
    decreases |cols|
  {
    if cols == [] then None
    else if Usable(variant, row, cols[0]) then CellValue(variant, row[cols[0]])
    else FirstValue(variant, row, cols[1..])
  }

  function RowValue(variant: Variant, row: Row): Option<real>
  {
    FirstValue(variant, row, RevenueColumns)
  }

  /** What each row yields, row by row. */
  function RowValues(variant: Variant, rows: seq<Row>): (vals: seq<Option<real>>)
    ensures |vals| == |rows|
  {
    seq(|rows|, i requires 0 <= i < |rows| => RowValue(variant, rows[i]))
  }

  /** The values that are there, in order. */
  function Present(vals: seq<Option<real>>): (r: seq<real>)
    ensures |r| <= |vals|
    decreases |vals|
  {
    if vals == [] then []
    else Present(vals[..|vals| - 1]) + OptionToSeq(vals[|vals| - 1])
  }

  /** The revenue series extracted from `rows`, in row order. */
  function Extracted(variant: Variant, rows: seq<Row>): (revenue: seq<real>)
    ensures |revenue| <= |rows|
  {
    Present(RowValues(variant, rows))
  }

  // ---------------------------------------------------------------------------
  // Sanitisation

  /** Sanitising a concatenation sanitises each part in place: kept characters stay in their order. */
  lemma {:induction false} SanitiseConcat(a: string, b: string)
    ensures Sanitise(a + b) == Sanitise(a) + Sanitise(b)
    decreases |a|
  {
    if a == [] {
      assert a + b == b;
    } else {
      assert (a + b)[0] == a[0] && (a + b)[1..] == a[1..] + b;
      SanitiseConcat(a[1..], b);
    }
  }

  /** Every kept character survives as often as it occurs; every other character is gone. */
  lemma {:induction false} SanitiseCounts(s: string, c: char)
    ensures multiset(Sanitise(s))[c] == if Kept(c) then multiset(s)[c] else 0
    decreases |s|
  {
    if s != [] {
      SanitiseCounts(s[1..], c);
      assert s == [s[0]] + s[1..];
    }
  }

  /** Sanitising changes nothing exactly when every character is kept. */
  lemma {:induction false} SanitiseFixes(s: string)
    ensures Sanitise(s) == s <==> forall i :: 0 <= i < |s| ==> Kept(s[i])
    decreases |s|
  {
    if s != [] {
      SanitiseFixes(s[1..]);
      if !Kept(s[0]) {
        assert |Sanitise(s)| < |s|;
      }
    }
  }

  // ---------------------------------------------------------------------------
  // Alias priority

  /** The first usable alias decides the row's value, whatever the later aliases hold. */
  lemma {:induction false} FirstUsableWins(variant: Variant, row: Row, cols: seq<string>, k: nat)
    requires k < |cols| && Usable(variant, row, cols[k])
    requires forall j :: 0 <= j < k ==> !Usable(variant, row, cols[j])
    ensures FirstValue(variant, row, cols) == CellValue(variant, row[cols[k]])
    decreases k
  {
    if k > 0 {
      assert !Usable(variant, row, cols[0]);
      FirstUsableWins(variant, row, cols[1..], k - 1);
    }
  }

  /** A row yields nothing exactly when none of its aliases is usable. */
  lemma {:induction false} FirstValueNone(variant: Variant, row: Row, cols: seq<string>)
    ensures FirstValue(variant, row, cols).None? <==> forall k :: 0 <= k < |cols| ==> !Usable(variant, row, cols[k])
    decreases |cols|
  {
    if cols != [] {
      FirstValueNone(variant, row, cols[1..]);
      assert forall k :: 1 <= k < |cols| ==> cols[k] == cols[1..][k - 1];
    }
  }

  // ---------------------------------------------------------------------------
  // Extraction

  lemma {:induction false} PresentConcat(a: seq<Option<real>>, b: seq<Option<real>>)
    ensures Present(a + b) == Present(a) + Present(b)
    decreases |b|
  {
    if b == [] {
      assert a + b == a;
    } else {
      var ab := a + b;
      assert ab[..|ab| - 1] == a + b[..|b| - 1];
      assert ab[|ab| - 1] == b[|b| - 1];
      PresentConcat(a, b[..|b| - 1]);
    }
  }

  lemma {:induction false} PresentEmpty(vals: seq<Option<real>>)
    ensures Present(vals) == [] <==> forall i :: 0 <= i < |vals| ==> vals[i].None?
    decreases |vals|
  {
    if vals != [] {
      var init := vals[..|vals| - 1];
      PresentEmpty(init);
      assert forall i :: 0 <= i < |init| ==> init[i] == vals[i];
    }
  }

  lemma {:induction false} RowValuesConcat(variant: Variant, a: seq<Row>, b: seq<Row>)
    ensures RowValues(variant, a + b) == RowValues(variant, a) + RowValues(variant, b)
  {
  }

  /** Extraction works row by row: the series of a concatenation is the concatenation of the series. */
  lemma {:induction false} ExtractedConcat(variant: Variant, a: seq<Row>, b: seq<Row>)
    ensures Extracted(variant, a + b) == Extracted(variant, a) + Extracted(variant, b)
  {
    RowValuesConcat(variant, a, b);
    PresentConcat(RowValues(variant, a), RowValues(variant, b));
  }

  /** Extending the rows by one extends the series by that row's value, if any. */
  lemma ExtractedSnoc(variant: Variant, rows: seq<Row>, r: nat)
    requires r < |rows|
    ensures Extracted(variant, rows[..r + 1]) == Extracted(variant, rows[..r]) + OptionToSeq(RowValue(variant, rows[r]))
  {
    var vals := RowValues(variant, rows[..r + 1]);
    assert vals[..r] == RowValues(variant, rows[..r]);
  }

  /** Trying alias `c` either settles the row's value or passes on to alias `c + 1`. */
  lemma FirstValueStep(variant: Variant, row: Row, cols: seq<string>, c: nat)
    requires c < |cols|
    ensures FirstValue(variant, row, cols[c..]) ==
      if Usable(variant, row, cols[c]) then CellValue(variant, row[cols[c]]) else FirstValue(variant, row, cols[c + 1..])
  {
    assert cols[c..][1..] == cols[c + 1..];
  }

  /** Nothing is extracted exactly when no row has a usable alias. */
  lemma {:induction false} ExtractedEmpty(variant: Variant, rows: seq<Row>)
    ensures Extracted(variant, rows) == [] <==> forall i :: 0 <= i < |rows| ==> RowValue(variant, rows[i]).None?
  {
    var vals := RowValues(variant, rows);
    PresentEmpty(vals);
    assert forall i :: 0 <= i < |rows| ==> vals[i] == RowValue(variant, rows[i]);
  }

  /** A cell of kept characters only reads the same in both files. */
  lemma CleanCellAgrees(text: string)
    requires forall i :: 0 <= i < |text| ==> Kept(text[i])
    ensures CellValue(TypeScript, text) == CellValue(JavaScript, text)
  {
    SanitiseFixes(text);
  }

  predicate CleanRow(row: Row)
  {
    forall col :: col in row ==> forall i :: 0 <= i < |row[col]| ==> Kept(row[col][i])
  }

  /** When every cell already consists of `[0-9.-]`, both files extract the same series. */
  lemma {:induction false} VariantsAgreeOnCleanRows(rows: seq<Row>)
    requires forall r :: 0 <= r < |rows| ==> CleanRow(rows[r])
    ensures Extracted(TypeScript, rows) == Extracted(JavaScript, rows)
  {
    forall r | 0 <= r < |rows|
      ensures RowValue(TypeScript, rows[r]) == RowValue(JavaScript, rows[r])
    {
      var row := rows[r];
      forall col | col in row
        ensures CellValue(TypeScript, row[col]) == CellValue(JavaScript, row[col])
      {
        CleanCellAgrees(row[col]);
      }
      FirstValuesAgree(row, RevenueColumns);
    }
    assert RowValues(TypeScript, rows) == RowValues(JavaScript, rows);
  }

  lemma {:induction false} FirstValuesAgree(row: Row, cols: seq<string>)
    requires forall col :: col in row ==> CellValue(TypeScript, row[col]) == CellValue(JavaScript, row[col])
    ensures FirstValue(TypeScript, row, cols) == FirstValue(JavaScript, row, cols)
    decreases |cols|
  {
    if cols != [] {
      FirstValuesAgree(row, cols[1..]);
    }
  }

  // ---------------------------------------------------------------------------
  // Worked examples

  /** The TypeScript file reads a currency-formatted cell such as "$1,200" as its digits, without the `$` and the `,`. */
  lemma {:induction false} CurrencyCellSanitised(a: string, b: string)
    requires |a| > 0 && AllDigits(a) && AllDigits(b)
    ensures CellValue(TypeScript, "$" + a + "," + b) == Some(DigitsValue(a + b) as real)
  {
    var d := a + b;
    assert Sanitise("$" + a + "," + b) == d by {
      assert "$" + a + "," + b == "$" + (a + ("," + b));
      SanitiseConcat("$", a + ("," + b));
      SanitiseConcat(a, "," + b);
      SanitiseConcat(",", b);
      SanitiseFixes(a);
      SanitiseFixes(b);
      assert Sanitise("$") == [] && Sanitise(",") == [];
    }
    assert AllDigits(d) by {
      assert forall i :: 0 <= i < |d| ==> d[i] == if i < |a| then a[i] else b[i - |a|];
    }
    ParseFloatDigits(d);
  }

  /** The JavaScript file reads such a cell as is, and parseFloat gives NaN at the `$`. */
  lemma CurrencyCellRejected(rest: string)
    ensures CellValue(JavaScript, "$" + rest) == None
  {
    var s := "$" + rest;
    assert !IsJsWhitespace(s[0]);
    assert TrimStart(s) == s;
    ParseFloatDefined(s);
  }

  /** A plain decimal cell reads as its value in both files. */
  lemma PlainCellExample(variant: Variant, n: nat)
    ensures CellValue(variant, NatToString(n)) == Some(n as real)
  {
    SanitiseFixes(NatToString(n));
    ParseFloatNat(n);
  }

  /** An empty cell falls through to the next alias, and a row with only empty or unknown columns yields nothing. */
  lemma {:induction false} AliasFallThroughExample(variant: Variant, b: nat)
    ensures RowValue(variant, map["Revenue" := "", "Amount" := NatToString(b)]) == Some(b as real)
    ensures RowValue(variant, map["Rev" := "", "Total" := NatToString(b)]) == None
  {
    var cols := RevenueColumns;
    assert cols[0] == "Revenue" && cols[1] == "revenue" && cols[2] == "Rev" && cols[3] == "Amount";
    var cell := NatToString(b);
    var row := map["Revenue" := "", "Amount" := cell];
    assert RowValue(variant, row) == Some(b as real) by {
      assert row.Keys == {"Revenue", "Amount"} && row[cols[3]] == cell;
      assert !HasText(row, cols[0]);
      assert cols[1] !in row && cols[2] !in row;
      PlainCellExample(variant, b);
      assert Usable(variant, row, cols[3]);
      FirstUsableWins(variant, row, cols, 3);
    }
    var other := map["Rev" := "", "Total" := cell];
    assert RowValue(variant, other) == None by {
      assert other.Keys == {"Rev", "Total"};
      assert !HasText(other, cols[2]);
      assert cols[0] !in other && cols[1] !in other && cols[3] !in other;
      FirstValueNone(variant, other, cols);
    }
  }

  /** A row without a usable alias is skipped, not recorded as zero: removing it leaves the series unchanged. */
  lemma {:induction false} SkippedRowIgnored(variant: Variant, before: seq<Row>, row: Row, after: seq<Row>)
    requires RowValue(variant, row).None?
    ensures Extracted(variant, before + [row] + after) == Extracted(variant, before + after)
  {
    var a, b := RowValues(variant, before), RowValues(variant, after);
    RowValuesConcat(variant, before + [row], after);
    RowValuesConcat(variant, before, [row]);
    RowValuesConcat(variant, before, after);
    assert RowValues(variant, [row]) == [None];
    PresentConcat(a + [None], b);
    PresentConcat(a, b);
    assert Present(a + [None]) == Present(a) by {
      assert (a + [None])[..|a|] == a;
    }
  }
}
