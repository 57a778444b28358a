/**
 * Class `Labs` (tablemaker.py): a data table of measured columns, their
 * statistics, and the LaTeX table made from them.
 */
module Tablemaker {
  import opened Wrappers
  import opened Decimals
  import opened SignificantDigit
  import opened Formatting

  /** One measured quantity: its entries, `None` where a value is missing. */
  type Column = seq<Option<Dec>>

  /** `[None] * k`. */
  function Nones<T>(k: nat): (s: seq<Option<T>>)
    ensures |s| == k && forall i :: 0 <= i < k ==> s[i].None?
  {
    seq(k, _ => None)
  }

  // ---------------------------------------------------------------------
  // Construction

  /**
   * The checks of `Labs.__init__` that typing leaves to run, in their order:
   * an empty dict or data list, a header/column count mismatch, and a
   * non-empty `rounding_digits` of the wrong length.
   */
  function InitError(quantities: seq<(string, string)>, data: seq<Column>, digits: seq<Option<int>>): (e: Option<Error>)
    ensures e.None? <==> quantities != [] && data != [] && |quantities| == |data| &&
                         (digits == [] || |digits| == |data|)
    ensures (quantities == [] || data == []) ==> e == Some(ValueError("Empty input given!"))
    ensures quantities != [] && data != [] && |quantities| != |data| ==>
              e == Some(ValueError("Length of quantities does not match the number of columns in data!"))
    ensures quantities != [] && data != [] && |quantities| == |data| && digits != [] && |digits| != |data| ==>
              e == Some(ValueError("Length of of rounding_digits is not the same as length of data"))
  {
    if quantities == [] || data == [] then
      Some(ValueError("Empty input given!"))
    else if |quantities| != |data| then
      Some(ValueError("Length of quantities does not match the number of columns in data!"))
    else if digits != [] && |digits| != |data| then
      Some(ValueError("Length of of rounding_digits is not the same as length of data"))
    else
      None
  }

  /** `len(max(data, key=len))`: the length of a longest column. */
  function MaxLen(data: seq<Column>): (r: nat)
    requires data != []
    ensures forall j :: 0 <= j < |data| ==> |data[j]| <= r
    ensures exists j :: 0 <= j < |data| && |data[j]| == r
  {
    if |data| == 1 then |data[0]|
    else
      var rest := MaxLen(data[1..]);
      assert forall j :: 1 <= j < |data| ==> data[j] == data[1..][j - 1];
      if |data[0]| >= rest then |data[0]| else rest
  }

  /** A column extended with `None` entries to length `m`. */
  function PadColumn(col: Column, m: nat): (c: Column)
    requires |col| <= m
    ensures |c| == m && c[..|col|] == col
    ensures forall i :: |col| <= i < m ==> c[i].None?
  {
    col + Nones(m - |col|)
  }

  // ---------------------------------------------------------------------
  // Statistics

  /** The entries of a column that are present, in order. */
  function Present(col: Column): (r: seq<Dec>)
    ensures |r| <= |col|
    ensures forall x :: x in r <==> Some(x) in col
  {
    if col == [] then []
    else
      var rest := Present(col[1..]);
      assert forall v :: v in col <==> v == col[0] || v in col[1..];
      match col[0]
      case None => rest
      case Some(x) => [x] + rest
  }

  /**
   * `list(filter(None, col))` as tablemaker.py:154 writes it: it drops every
   * falsy entry, so zeros go as well as `None`.
   */
  function FilteredAsWritten(col: Column): (r: seq<Dec>)
    ensures forall x :: x in r <==> Some(x) in col && !IsZero(x)
  {
    if col == [] then []
    else
      var rest := FilteredAsWritten(col[1..]);
      assert forall v :: v in col <==> v == col[0] || v in col[1..];
      match col[0]
      case Some(x) => if IsZero(x) then rest else [x] + rest
      case None => rest
  }

  /** The mean (or standard error) of each column, over its present entries. */
  function Stats(cols: seq<Column>, stat: seq<Dec> -> Dec): (r: seq<Dec>)
    ensures |r| == |cols|
  {
    seq(|cols|, j requires 0 <= j < |cols| => stat(Present(cols[j])))
  }

  /** `not d`: a digit that is `None` or 0 counts as not given. */
  predicate Unset(d: Option<int>)
  {
    d.None? || d.value == 0
  }

  /**
   * The rounding digit of a column (tablemaker.py:165-166): a given one is
   * kept, an unset one is the position of the first significant digit of
   * the column's standard error, which fails when that error prints in
   * exponent notation.
   */
  function ResolveDigit(d: Option<int>, se: Dec): (r: Result<int, Error>)
    ensures !Unset(d) ==> r == Success(d.value)
    ensures r.Failure? <==> Unset(d) && !IsZero(se) && !InPlainRange(se)
    ensures r.Failure? ==> r.error == ExponentError
    ensures r.Success? && Unset(d) ==> r.value == FirstNonzero(se)
  {
    if Unset(d) then
      match FirstNonzeroChecked(Some(se))
      case Success(p) => Success(p.value)
      case Failure(e) => Failure(e)
    else Success(d.value)
  }

  /** The digits of all columns, or the error of the first column that fails. */
  function ResolveAll(ds: seq<Option<int>>, ses: seq<Dec>): (r: Result<seq<int>, Error>)
    requires |ds| == |ses|
    ensures r.Success? ==> |r.value| == |ds|
    ensures r.Success? ==> forall j :: 0 <= j < |ds| ==> ResolveDigit(ds[j], ses[j]) == Success(r.value[j])
    ensures r.Failure? <==> exists j :: 0 <= j < |ds| && ResolveDigit(ds[j], ses[j]).Failure?
    ensures r.Failure? ==> r.error == ExponentError
    decreases |ds|
  {
    if ds == [] then Success([])
    else
      var k := |ds| - 1;
      var pre := ResolveAll(ds[..k], ses[..k]);
      assert forall j :: 0 <= j < k ==> ds[..k][j] == ds[j] && ses[..k][j] == ses[j];
      if pre.Failure? then pre
      else
        match ResolveDigit(ds[k], ses[k])
        case Failure(e) => Failure(e)
        case Success(d) => Success(pre.value + [d])
  }

  /**
   * The digits as the digit loop leaves them when it stops at column `k`,
   * the first whose digit fails: every column before `k` holds its resolved
   * digit, and columns `k` onwards hold the digits they had.
   */
  predicate StoppedAt(given: seq<Option<int>>, now: seq<Option<int>>, ses: seq<Dec>, k: nat)
  {
    |given| == |ses| == |now| && k < |given| &&
    ResolveDigit(given[k], ses[k]).Failure? &&
    (forall j :: 0 <= j < k ==>
       ResolveDigit(given[j], ses[j]).Success? && now[j] == Some(ResolveDigit(given[j], ses[j]).value)) &&
    now[k..] == given[k..]
  }

  /** Each digit wrapped in `Some`. */
  function Somes(ds: seq<int>): (r: seq<Option<int>>)
    ensures |r| == |ds| && forall j :: 0 <= j < |ds| ==> r[j] == Some(ds[j])
  {
    seq(|ds|, j requires 0 <= j < |ds| => Some(ds[j]))
  }

  /** Each value printed with its column's digit. */
  function Texts(xs: seq<Dec>, ds: seq<int>): (r: seq<string>)
    requires |xs| == |ds|
    ensures |r| == |xs| && forall j :: 0 <= j < |xs| ==> r[j] == Format(xs[j], ds[j])
  {
    seq(|xs|, j requires 0 <= j < |xs| => Format(xs[j], ds[j]))
  }

  // ---------------------------------------------------------------------
  // The table

  /**
   * The printed table, one value per `print` group: the opening lines with
   * the column specification, a rule, a row of cells, the closing lines.
   */
  datatype Line = Begin(columns: nat) | Hline | Row(cells: seq<Cell>) | End

  /** A cell of a row: literal text, a missing entry, or a number to print with a digit. */
  datatype Cell = Text(text: string) | Missing | Number(value: Dec, digit: int)

  const MeanLabel := "$\\bar{x}$"
  const SeLabel := "$\\sigma_0$"
  const Absent := " - "

  /** `beginning(n + 1)` with a count column, `beginning(n)` without one. */
  function Opening(count: bool, n: nat): (l: Line)
    ensures l.Begin? && l.columns == n + (if count then 1 else 0)
  {
    if count then Begin(n + 1) else Begin(n)
  }

  /** tablemaker.py:215-218 as written: without a count column, `beginning()` gets no width. */
  function OpeningAsWritten(count: bool, n: nat): (r: Result<Line, Error>)
    ensures count ==> r == Success(Opening(count, n))
    ensures !count ==> r.Failure? && r.error.TypeError?
  {
    if count then Success(Begin(n + 1))
    else Failure(TypeError("Labs.beginning() missing 1 required positional argument: 'n'"))
  }

  /** The header cells: `\#` for the count column, then `\tabh{quantity}{unit}` per column. */
  function HeaderCells(quantities: seq<(string, string)>, count: bool): (r: seq<Cell>)
    ensures |r| == |quantities| + (if count then 1 else 0)
    ensures count ==> r[0] == Text("\\#")
    ensures forall j :: 0 <= j < |quantities| ==>
              r[j + (if count then 1 else 0)] == Text("\\tabh{" + quantities[j].0 + "}{" + quantities[j].1 + "}")
  {
    (if count then [Text("\\#")] else []) +
    TextCells(seq(|quantities|, j requires 0 <= j < |quantities| => "\\tabh{" + quantities[j].0 + "}{" + quantities[j].1 + "}"))
  }

  /** Literal texts as cells. */
  function TextCells(ts: seq<string>): (r: seq<Cell>)
    ensures |r| == |ts| && forall j :: 0 <= j < |ts| ==> r[j] == Text(ts[j])
  {
    seq(|ts|, j requires 0 <= j < |ts| => Text(ts[j]))
  }

  /** One data cell: missing for `None`, otherwise the number with its column's digit. */
  function Entry(v: Option<Dec>, digit: int): (c: Cell)
    ensures v.None? <==> c.Missing?
  {
    match v
    case None => Missing
    case Some(x) => Number(x, digit)
  }

  /** The cells of data row `i`: its 1-based number if counted, then entry `i` of every column. */
  function DataCells(data: seq<Column>, digits: seq<int>, count: bool, i: nat): (r: seq<Cell>)
    requires |digits| == |data| && forall j :: 0 <= j < |data| ==> i < |data[j]|
    ensures |r| == |data| + (if count then 1 else 0)
  {
    (if count then [Text(NatDigits(i + 1))] else []) + RowValues(data, digits, i, |data|)
  }

  /** Entry `i` of each of the first `k` columns, as cells. */
  function RowValues(data: seq<Column>, digits: seq<int>, i: nat, k: nat): (r: seq<Cell>)
    requires |digits| == |data| && k <= |data| && forall j :: 0 <= j < |data| ==> i < |data[j]|
    ensures |r| == k
  {
    if k == 0 then [] else RowValues(data, digits, i, k - 1) + [Entry(data[k - 1][i], digits[k - 1])]
  }

  /** The first `k` data rows, each followed by a rule. */
  function DataRows(data: seq<Column>, digits: seq<int>, count: bool, k: nat): (r: seq<Line>)
    requires |digits| == |data| && forall j :: 0 <= j < |data| ==> k <= |data[j]|
    ensures |r| == 2 * k
  {
    if k == 0 then []
    else DataRows(data, digits, count, k - 1) + [Row(DataCells(data, digits, count, k - 1)), Hline]
  }

  /** The mean and standard-error rows, each between rules. */
  function StatRows(count: bool, means: seq<string>, ses: seq<string>): seq<Line>
  {
    [Hline, Row(StatCells(MeanLabel, count, means)), Hline, Row(StatCells(SeLabel, count, ses)), Hline]
  }

  /** A statistics row's cells: its label in the count column, when there is one, then the texts. */
  function StatCells(name: string, count: bool, texts: seq<string>): (r: seq<Cell>)
    ensures |r| == |texts| + (if count then 1 else 0)
    ensures count ==> r[0] == Text(name)
    ensures forall j :: 0 <= j < |texts| ==> r[j + (if count then 1 else 0)] == Text(texts[j])
  {
    (if count then [Text(name)] else []) + TextCells(texts)
  }

  /** tablemaker.py:249-262 as written: the label cell is printed with or without a count column. */
  function StatRowsAsWritten(means: seq<string>, ses: seq<string>): (r: seq<Line>)
    ensures |r| == 5 && r[1].Row? && r[3].Row?
    ensures |r[1].cells| == |means| + 1 && r[1].cells[0] == Text(MeanLabel)
    ensures |r[3].cells| == |ses| + 1 && r[3].cells[0] == Text(SeLabel)
  {
    [Hline, Row([Text(MeanLabel)] + TextCells(means)), Hline, Row([Text(SeLabel)] + TextCells(ses)), Hline]
  }

  /** The whole table `make_table` prints (tablemaker.py:214-264). */
  function Table(count: bool, stats: bool, quantities: seq<(string, string)>, data: seq<Column>,
                 digits: seq<int>, m: nat, means: seq<string>, ses: seq<string>): (t: seq<Line>)
    requires |digits| == |data| && forall j :: 0 <= j < |data| ==> |data[j]| == m
    ensures |t| == 6 + 2 * m + (if stats then 5 else 0)
    ensures t[0] == Opening(count, |data|) && t[|t| - 1] == End
  {
    [Opening(count, |data|), Hline, Row(HeaderCells(quantities, count)), Hline, Hline]
    + DataRows(data, digits, count, m)
    + (if stats then StatRows(count, means, ses) else [])
    + [End]
  }

  // ---------------------------------------------------------------------
  // The text of the table

  /** `"r|" * k`. */
  function Repeat(t: string, k: nat): (r: string)
    ensures |r| == k * |t|
  {
    if k == 0 then "" else t + Repeat(t, k - 1)
  }

  /** The cells joined by ` & `, as the row loops print them. */
  function Join(cells: seq<string>): string
  {
    if cells == [] then ""
    else if |cells| == 1 then cells[0]
    else cells[0] + " & " + Join(cells[1..])
  }

  /**
   * The printed text of a cell: a literal cell is its text, a missing entry
   * is ` - `, a number is `prettify(value, digit)`, which reads back as the
   * rounded value.
   */
  function CellText(c: Cell): (t: string)
    ensures c.Text? ==> t == c.text
    ensures c.Missing? ==> t == Absent
    ensures c.Number? ==> t != Absent && ParseDisplay(t) == Some(Rounded(c.value, c.digit)) && PlainInteger(t)
    ensures c.Number? ==> t != [] && (t[0] == '-' <==> c.value.mant < 0)
  {
    match c
    case Text(t) => t
    case Missing => Absent
    case Number(x, d) =>
      FormatSign(x, d);
      FormatRoundTrip(x, d);
      FormatPlainInteger(x, d);
      Format(x, d)
  }

  function CellTexts(cells: seq<Cell>): (r: seq<string>)
    ensures |r| == |cells|
  {
    seq(|cells|, j requires 0 <= j < |cells| => CellText(cells[j]))
  }

  /** The printed lines of one table part. */
  function Render(l: Line): (r: seq<string>)
    ensures |r| == match l case Begin(_) => 3 case End => 4 case _ => 1
    ensures l.Hline? ==> r == ["\\hline"]
    ensures l.Row? ==> |r[0]| >= 4 && r[0][|r[0]| - 4..] == " \\\\ "
  {
    match l
    case Begin(k) => ["\\begin{table}[!ht]", "\\centering", "\\begin{tabular}{|" + Repeat("r|", k) + "}"]
    case Hline => ["\\hline"]
    case Row(cells) => [Join(CellTexts(cells)) + " \\\\ "]
    case End => ["\\end{tabular}", "\\caption{}", "\\label{tab:}", "\\end{table}"]
  }

  /** The printed lines of a sequence of table parts, in order. */
  function RenderAll(ls: seq<Line>): (r: seq<string>)
    ensures |r| >= |ls|
    ensures ls != [] ==> |r| >= |Render(ls[0])| && r[..|Render(ls[0])|] == Render(ls[0])
  {
    if ls == [] then [] else Render(ls[0]) + RenderAll(ls[1..])
  }

  // ---------------------------------------------------------------------
  // The object

  class Labs {
    /** The dict of quantity: unit pairs, as its items in insertion order (a dict keeps its keys distinct; nothing here relies on that). */
    var quantities: seq<(string, string)>
    var data: seq<Column>
    /** The length of the longest column. */
    var m: nat
    /** The number of columns. */
    var n: nat
    var roundingDigits: seq<Option<int>>
    var means: seq<string>
    var ses: seq<string>

    /** One header and one digit per column, and every column padded to `m` entries. */
    predicate Valid()
      reads this
    {
      n == |quantities| == |data| == |roundingDigits| && n > 0 &&
      forall j :: 0 <= j < n ==> |data[j]| == m
    }

    /**
     * `Labs(quantities, data, rounding_digits)` on input that passes the
     * checks (tablemaker.py:55-68): every column padded with `None` to the
     * longest, and `None` digits when none are given.
     */
    constructor (q: seq<(string, string)>, d: seq<Column>, r: seq<Option<int>>)
      requires InitError(q, d, r).None?
      ensures Valid()
      ensures quantities == q && n == |d| && m == MaxLen(d)
      ensures forall j :: 0 <= j < n ==> data[j] == PadColumn(d[j], m)
      ensures roundingDigits == if r == [] then Nones(|d|) else r
      ensures means == [] && ses == []
    {
      quantities := q;
      data := d;
      m := MaxLen(d);
      n := |d|;
      roundingDigits := if r != [] then r else Nones(|d|);
      means := [];
      ses := [];
      new;
      var i := 0;
      while i < n
        invariant 0 <= i <= n && |data| == n
        invariant quantities == q && n == |d| && m == MaxLen(d)
        invariant roundingDigits == if r == [] then Nones(|d|) else r
        invariant means == [] && ses == []
        invariant forall j :: 0 <= j < i ==> data[j] == PadColumn(d[j], m)
        invariant forall j :: i <= j < n ==> data[j] == d[j]
      {
        data := data[i := data[i] + Nones(m - |data[i]|)];
        i := i + 1;
      }
    }

    /** `Labs(...)` on any input: the first failing check's error, or a new table. */
    static method Create(q: seq<(string, string)>, d: seq<Column>, r: seq<Option<int>>)
      returns (res: Result<Labs, Error>)
      ensures InitError(q, d, r).Some? ==> res == Failure(InitError(q, d, r).value)
      ensures InitError(q, d, r).None? ==>
                res.Success? && fresh(res.value) && res.value.Valid() &&
                res.value.quantities == q && res.value.n == |d| && res.value.m == MaxLen(d) &&
                (forall j :: 0 <= j < |d| ==> res.value.data[j] == PadColumn(d[j], MaxLen(d))) &&
                res.value.roundingDigits == (if r == [] then Nones(|d|) else r)
    {
      var err := InitError(q, d, r);
      if err.Some? {
        return Failure(err.value);
      }
      var labs := new Labs(q, d, r);
      return Success(labs);
    }

    /**
     * `stat_values(cols)` (tablemaker.py:135-170): the digit of every
     * column is resolved in order, stopping at the first failure; then the
     * mean and standard error of every column are printed with it.
     * `meanOf` and `seOf` stand for the numpy computations.
     */
    method StatValues(cols: seq<Column>, meanOf: seq<Dec> -> Dec, seOf: seq<Dec> -> Dec)
      returns (res: Result<seq<int>, Error>)
      modifies this
      requires Valid() && |cols| == n
      requires forall j :: 0 <= j < |cols| ==> Present(cols[j]) != []
      ensures Valid()
      ensures quantities == old(quantities) && data == old(data) && m == old(m) && n == old(n)
      ensures res == ResolveAll(old(roundingDigits), Stats(cols, seOf))
      ensures res.Success? ==>
                roundingDigits == Somes(res.value) &&
                means == Texts(Stats(cols, meanOf), res.value) &&
                ses == Texts(Stats(cols, seOf), res.value)
      ensures res.Failure? ==>
                means == old(means) && ses == old(ses) &&
                exists k :: StoppedAt(old(roundingDigits), roundingDigits, Stats(cols, seOf), k)
    {
      var mv := Stats(cols, meanOf);
      var sv := Stats(cols, seOf);
      res := ResolveDigits(sv);
      if res.Success? {
        means, ses := PrintStats(mv, sv, res.value);
      }
    }

    /**
     * The digit loop of `stat_values` (tablemaker.py:164-166): column by
     * column, an unset digit is replaced by the position of the first
     * significant digit of the column's standard error.
     */
    method ResolveDigits(sv: seq<Dec>) returns (res: Result<seq<int>, Error>)
      modifies this
      requires Valid() && |sv| == n
      ensures Valid()
      ensures quantities == old(quantities) && data == old(data) && m == old(m) && n == old(n)
      ensures means == old(means) && ses == old(ses)
      ensures res == ResolveAll(old(roundingDigits), sv)
      ensures res.Success? ==> roundingDigits == Somes(res.value)
      ensures res.Failure? ==> exists k :: StoppedAt(old(roundingDigits), roundingDigits, sv, k)
    {
      ghost var given := roundingDigits;
      var digits: seq<int> := [];
      var i := 0;
      while i < n
        invariant 0 <= i <= n && |digits| == i
        invariant Valid() && quantities == old(quantities) && data == old(data) && m == old(m) && n == old(n)
        invariant means == old(means) && ses == old(ses)
        invariant forall j :: 0 <= j < i ==> ResolveDigit(given[j], sv[j]) == Success(digits[j])
        invariant forall j :: 0 <= j < i ==> roundingDigits[j] == Some(digits[j])
        invariant forall j :: i <= j < n ==> roundingDigits[j] == given[j]
      {
        var d := ResolveDigit(roundingDigits[i], sv[i]);
        if d.Failure? {
          ResolveAllFails(given, sv, i);
          StopsAt(given, roundingDigits, sv, digits, i);
          return Failure(d.error);
        }
        roundingDigits := roundingDigits[i := Some(d.value)];
        digits := digits + [d.value];
        i := i + 1;
      }
      ResolveAllIs(given, sv, digits);
      return Success(digits);
    }

    /**
     * The printing loop of `stat_values` (tablemaker.py:168-170): every mean
     * and standard error printed with its column's digit.
     */
    static method PrintStats(mv: seq<Dec>, sv: seq<Dec>, digits: seq<int>)
      returns (means: seq<string>, ses: seq<string>)
      requires |mv| == |sv| == |digits|
      ensures means == Texts(mv, digits) && ses == Texts(sv, digits)
    {
      means := [];
      ses := [];
      var k := 0;
      while k < |digits|
        invariant 0 <= k <= |digits| && |means| == k && |ses| == k
        invariant forall j :: 0 <= j < k ==> means[j] == Format(mv[j], digits[j]) && ses[j] == Format(sv[j], digits[j])
      {
        means := means + [Format(mv[k], digits[k])];
        ses := ses + [Format(sv[k], digits[k])];
        k := k + 1;
      }
      TextsAre(means, mv, digits);
      TextsAre(ses, sv, digits);
    }

    /** The cells one pass of the row loop of `make_table` prints (tablemaker.py:235-245). */
    static method RowCells(cols: seq<Column>, digits: seq<int>, count: bool, i: nat) returns (cells: seq<Cell>)
      requires |digits| == |cols| && forall j :: 0 <= j < |cols| ==> i < |cols[j]|
      ensures cells == DataCells(cols, digits, count, i)
    {
      var lead := if count then [Text(NatDigits(i + 1))] else [];
      var vals: seq<Cell> := [];
      var j := 0;
      while j < |cols|
        invariant 0 <= j <= |cols| && vals == RowValues(cols, digits, i, j)
      {
        vals := vals + [Entry(cols[j][i], digits[j])];
        j := j + 1;
      }
      cells := lead + vals;
    }

    /** The row loop of `make_table` (tablemaker.py:234-246): every data row and its rule. */
    static method BodyRows(cols: seq<Column>, digits: seq<int>, count: bool, m: nat) returns (rows: seq<Line>)
      requires |digits| == |cols| && forall j :: 0 <= j < |cols| ==> |cols[j]| == m
      ensures rows == DataRows(cols, digits, count, m)
    {
      rows := [];
      var i := 0;
      while i < m
        invariant 0 <= i <= m
        invariant rows == DataRows(cols, digits, count, i)
      {
        var cells := RowCells(cols, digits, count, i);
        rows := rows + [Row(cells), Hline];
        i := i + 1;
      }
    }

    /**
     * `make_table(count, stats)` (tablemaker.py:193-264): the statistics
     * first, then the table row by row. The opening is the corrected one,
     * `Opening`; `OpeningAsWritten` is what line 218 does.
     */
    method MakeTable(count: bool, stats: bool, meanOf: seq<Dec> -> Dec, seOf: seq<Dec> -> Dec)
      returns (res: Result<seq<Line>, Error>)
      modifies this
      requires Valid()
      requires forall j :: 0 <= j < |data| ==> Present(data[j]) != []
      ensures Valid()
      ensures quantities == old(quantities) && data == old(data) && m == old(m) && n == old(n)
      ensures res.Failure? <==> ResolveAll(old(roundingDigits), Stats(data, seOf)).Failure?
      ensures res.Failure? ==>
                res.error == ExponentError && means == old(means) && ses == old(ses) &&
                exists k :: StoppedAt(old(roundingDigits), roundingDigits, Stats(data, seOf), k)
      ensures res.Success? ==>
                var digits := ResolveAll(old(roundingDigits), Stats(data, seOf)).value;
                roundingDigits == Somes(digits) &&
                means == Texts(Stats(data, meanOf), digits) &&
                ses == Texts(Stats(data, seOf), digits) &&
                res.value == Table(count, stats, quantities, data, digits, m, means, ses)
    {
      var st := StatValues(data, meanOf, seOf);
      if st.Failure? {
        return Failure(st.error);
      }
      var digits := st.value;
      var rows := BodyRows(data, digits, count, m);
      var out := [Opening(count, n), Hline, Row(HeaderCells(quantities, count)), Hline, Hline] + rows;
      if stats {
        out := out + StatRows(count, means, ses);
      }
      out := out + [End];
      return Success(out);
    }
  }

  // ---------------------------------------------------------------------
  // Lemmas

  /** Texts that print every value with its digit are `Texts`. */
  lemma TextsAre(t: seq<string>, xs: seq<Dec>, ds: seq<int>)
    requires |t| == |xs| == |ds|
    requires forall j :: 0 <= j < |xs| ==> t[j] == Format(xs[j], ds[j])
    ensures t == Texts(xs, ds)
  {
  }

  /** One failing column makes the whole resolution fail. */
  lemma ResolveAllFails(ds: seq<Option<int>>, ses: seq<Dec>, i: nat)
    requires |ds| == |ses| && i < |ds| && ResolveDigit(ds[i], ses[i]).Failure?
    ensures ResolveAll(ds, ses) == Failure(ExponentError)
  {
  }

  /** The digit loop's state when column `i` fails is `StoppedAt(.., i)`. */
  lemma StopsAt(given: seq<Option<int>>, now: seq<Option<int>>, ses: seq<Dec>, digits: seq<int>, i: nat)
    requires |given| == |ses| == |now| && i < |given| && |digits| == i
    requires ResolveDigit(given[i], ses[i]).Failure?
    requires forall j :: 0 <= j < i ==> ResolveDigit(given[j], ses[j]) == Success(digits[j])
    requires forall j :: 0 <= j < i ==> now[j] == Some(digits[j])
    requires forall j :: i <= j < |now| ==> now[j] == given[j]
    ensures StoppedAt(given, now, ses, i)
  {
    assert now[i..] == given[i..];
  }

  /** Digits that every column resolves to are the resolution. */
  lemma ResolveAllIs(ds: seq<Option<int>>, ses: seq<Dec>, digits: seq<int>)
    requires |ds| == |ses| == |digits|
    requires forall j :: 0 <= j < |ds| ==> ResolveDigit(ds[j], ses[j]) == Success(digits[j])
    ensures ResolveAll(ds, ses) == Success(digits)
  {
    var r := ResolveAll(ds, ses);
    assert r.Success?;
    assert r.value == digits;
  }

  // ---------------------------------------------------------------------
  // Construction

  /** The constructor checks on the shapes the tests of `Labs(...)` mean. */
  lemma InitErrorExamples()
    ensures InitError([], [[Some(Dec(1, 0))]], []) == Some(ValueError("Empty input given!"))
    ensures InitError([("A", "B")], [[Some(Dec(1, 0))], [Some(Dec(2, 0))]], []).value.message
            == "Length of quantities does not match the number of columns in data!"
    ensures InitError([("A", "B"), ("C", "D")], [[Some(Dec(1, 0))]], []).value.message
            == "Length of quantities does not match the number of columns in data!"
  {
  }

  /** The constructor checks on the `rounding_digits` shapes those tests mean; an empty column is accepted. */
  lemma InitErrorDigitsExamples()
    ensures InitError([("A", "B")], [[Some(Dec(1, 0))]], [Some(-1), Some(5)]).value.message
            == "Length of of rounding_digits is not the same as length of data"
    ensures InitError([("A", "B"), ("C", "D")], [[], []], [Some(5)]).value.message
            == "Length of of rounding_digits is not the same as length of data"
    ensures InitError([("A", "B")], [[]], []).None?
  {
  }

  /** Padding a column with `None` leaves its present entries as they were. */
  lemma {:induction false} PresentPadding(col: Column, k: nat)
    ensures Present(col + Nones(k)) == Present(col)
  {
    if col == [] {
      PresentNones(k);
      assert col + Nones(k) == Nones(k);
    } else {
      PresentPadding(col[1..], k);
      assert (col + Nones(k))[1..] == col[1..] + Nones(k);
    }
  }

  lemma {:induction false} PresentNones(k: nat)
    ensures Present(Nones<Dec>(k)) == []
  {
    if k > 0 {
      PresentNones(k - 1);
      assert Nones<Dec>(k)[1..] == Nones<Dec>(k - 1);
    }
  }

  /** The padding the constructor adds changes no column's statistics. */
  lemma PaddingKeepsStats(d: seq<Column>, padded: seq<Column>, m: nat, stat: seq<Dec> -> Dec)
    requires |padded| == |d| && forall j :: 0 <= j < |d| ==> |d[j]| <= m && padded[j] == PadColumn(d[j], m)
    ensures Stats(padded, stat) == Stats(d, stat)
  {
    forall j | 0 <= j < |d|
      ensures Stats(padded, stat)[j] == Stats(d, stat)[j]
    {
      PresentPadding(d[j], m - |d[j]|);
    }
  }

  // ---------------------------------------------------------------------
  // Statistics

  /** The kept entries of two pieces of a column are those of each piece, in order. */
  lemma {:induction false} PresentAppend(a: Column, b: Column)
    ensures Present(a + b) == Present(a) + Present(b)
  {
    if a != [] {
      assert (a + b)[0] == a[0] && (a + b)[1..] == a[1..] + b;
      var head := if a[0].Some? then [a[0].value] else [];
      calc {
        Present(a + b);
        head + Present(a[1..] + b);
        { PresentAppend(a[1..], b); }
        head + (Present(a[1..]) + Present(b));
        (head + Present(a[1..])) + Present(b);
        Present(a) + Present(b);
      }
    } else {
      assert a + b == b;
    }
  }

  /** A single entry is kept exactly when it is present. */
  lemma PresentSingle(v: Option<Dec>)
    ensures Present([v]) == if v.Some? then [v.value] else []
  {
    assert [v][1..] == [];
  }

  /** A missing entry anywhere in a column changes nothing that is kept. */
  lemma PresentSkipsNone(a: Column, b: Column)
    ensures Present(a + [None] + b) == Present(a + b)
  {
    PresentAppend(a + [None], b);
    PresentAppend(a, [None]);
    PresentAppend(a, b);
    PresentSingle(None);
  }

  /** `[1, None, 3]` keeps `[1, 3]`, so its statistics are those of `[1, 3]`. */
  lemma PresentExample()
    ensures Present([Some(Dec(1, 0)), None, Some(Dec(3, 0))]) == [Dec(1, 0), Dec(3, 0)]
  {
    PresentSkipsNone([Some(Dec(1, 0))], [Some(Dec(3, 0))]);
    PresentAppend([Some(Dec(1, 0))], [Some(Dec(3, 0))]);
    PresentSingle(Some(Dec(1, 0)));
    PresentSingle(Some(Dec(3, 0)));
    assert [Some(Dec(1, 0))] + [None] + [Some(Dec(3, 0))] == [Some(Dec(1, 0)), None, Some(Dec(3, 0))];
  }

  /** The filter as written, on two pieces of a column: each piece filtered, in order. */
  lemma {:induction false} FilteredAppend(a: Column, b: Column)
    ensures FilteredAsWritten(a + b) == FilteredAsWritten(a) + FilteredAsWritten(b)
  {
    if a != [] {
      assert (a + b)[0] == a[0] && (a + b)[1..] == a[1..] + b;
      var head := if a[0].Some? && !IsZero(a[0].value) then [a[0].value] else [];
      calc {
        FilteredAsWritten(a + b);
        head + FilteredAsWritten(a[1..] + b);
        { FilteredAppend(a[1..], b); }
        head + (FilteredAsWritten(a[1..]) + FilteredAsWritten(b));
        (head + FilteredAsWritten(a[1..])) + FilteredAsWritten(b);
        FilteredAsWritten(a) + FilteredAsWritten(b);
      }
    } else {
      assert a + b == b;
    }
  }

  /** The filter as written keeps a single entry exactly when it is present and nonzero. */
  lemma FilteredSingle(v: Option<Dec>)
    ensures FilteredAsWritten([v]) == if v.Some? && !IsZero(v.value) then [v.value] else []
  {
    assert [v][1..] == [];
  }

  /** What tablemaker.py:154 drops: a zero among the entries of `[0, 2]`, which moves the mean from 1 to 2. */
  lemma FilterDropsZero()
    ensures FilteredAsWritten([Some(Dec(0, 0)), Some(Dec(2, 0))]) == [Dec(2, 0)]
    ensures Present([Some(Dec(0, 0)), Some(Dec(2, 0))]) == [Dec(0, 0), Dec(2, 0)]
  {
    var col: Column := [Some(Dec(0, 0)), Some(Dec(2, 0))];
    assert col[1..] == [Some(Dec(2, 0))];
    assert col[1..][1..] == [];
  }

  /** On a column without zeros the filter as written and the corrected one agree. */
  lemma {:induction false} FilterAgreesWithoutZeros(col: Column)
    requires forall i :: 0 <= i < |col| && col[i].Some? ==> !IsZero(col[i].value)
    ensures FilteredAsWritten(col) == Present(col)
  {
    if col != [] {
      FilterAgreesWithoutZeros(col[1..]);
    }
  }

  /** An explicit digit 0 is falsy, so it is recomputed exactly as a missing one. */
  lemma ZeroDigitRecomputed(se: Dec)
    ensures ResolveDigit(Some(0), se) == ResolveDigit(None, se)
  {
  }

  // ---------------------------------------------------------------------
  // The table

  lemma {:induction false} DataRowsAt(data: seq<Column>, digits: seq<int>, count: bool, k: nat, i: nat)
    requires |digits| == |data| && forall j :: 0 <= j < |data| ==> k <= |data[j]|
    requires i < k
    ensures DataRows(data, digits, count, k)[2 * i] == Row(DataCells(data, digits, count, i))
    ensures DataRows(data, digits, count, k)[2 * i + 1] == Hline
  {
    if i < k - 1 {
      DataRowsAt(data, digits, count, k - 1, i);
    }
  }

  /**
   * The table line by line: five opening lines, a row and a rule for each of
   * the `m` data rows (`TableDataRows`), the five statistics lines only when
   * `stats`, the end.
   */
  lemma TableShape(count: bool, stats: bool, quantities: seq<(string, string)>, data: seq<Column>,
                   digits: seq<int>, m: nat, means: seq<string>, ses: seq<string>)
    requires |digits| == |data| && forall j :: 0 <= j < |data| ==> |data[j]| == m
    ensures var t := Table(count, stats, quantities, data, digits, m, means, ses);
      |t| == 6 + 2 * m + (if stats then 5 else 0) &&
      t[0] == Opening(count, |data|) && t[1] == Hline && t[2] == Row(HeaderCells(quantities, count)) &&
      t[3] == Hline && t[4] == Hline &&
      (stats ==> t[5 + 2 * m] == Hline && t[6 + 2 * m] == Row(StatCells(MeanLabel, count, means)) && t[7 + 2 * m] == Hline &&
                 t[8 + 2 * m] == Row(StatCells(SeLabel, count, ses)) && t[9 + 2 * m] == Hline) &&
      (!stats ==> t[5 + 2 * m] == End) &&
      t[|t| - 1] == End
  {
    var t := Table(count, stats, quantities, data, digits, m, means, ses);
    var rows := DataRows(data, digits, count, m);
    var head := [Opening(count, |data|), Hline, Row(HeaderCells(quantities, count)), Hline, Hline];
    var tail := (if stats then StatRows(count, means, ses) else []) + [End];
    assert t == head + rows + tail;
    ConcatParts(head, rows, tail);
  }

  lemma ConcatParts<T>(a: seq<T>, b: seq<T>, c: seq<T>)
    ensures forall k :: 0 <= k < |a| ==> (a + b + c)[k] == a[k]
    ensures forall k :: 0 <= k < |c| ==> (a + b + c)[|a| + |b| + k] == c[k]
  {
  }

  /** Data row `i` is line `5 + 2 i` of the table, and a rule follows it. */
  lemma TableDataRows(count: bool, stats: bool, quantities: seq<(string, string)>, data: seq<Column>,
                      digits: seq<int>, m: nat, means: seq<string>, ses: seq<string>, i: nat)
    requires |digits| == |data| && forall j :: 0 <= j < |data| ==> |data[j]| == m
    requires i < m
    ensures var t := Table(count, stats, quantities, data, digits, m, means, ses);
      5 + 2 * i + 1 < |t| &&
      t[5 + 2 * i] == Row(DataCells(data, digits, count, i)) && t[6 + 2 * i] == Hline
  {
    var t := Table(count, stats, quantities, data, digits, m, means, ses);
    var rows := DataRows(data, digits, count, m);
    var head := [Opening(count, |data|), Hline, Row(HeaderCells(quantities, count)), Hline, Hline];
    var tail := (if stats then StatRows(count, means, ses) else []) + [End];
    assert t == head + rows + tail;
    DataRowsAt(data, digits, count, m, i);
    assert t[5 + 2 * i] == rows[2 * i];
    assert t[6 + 2 * i] == rows[2 * i + 1];
  }

  /** The header, every data row and both statistics rows have as many cells as the opening declares columns. */
  lemma RowWidths(count: bool, quantities: seq<(string, string)>, data: seq<Column>, digits: seq<int>, i: nat,
                  means: seq<string>, ses: seq<string>)
    requires |quantities| == |data| == |digits| && forall j :: 0 <= j < |data| ==> i < |data[j]|
    requires |means| == |ses| == |data|
    ensures |HeaderCells(quantities, count)| == Opening(count, |data|).columns
    ensures |DataCells(data, digits, count, i)| == Opening(count, |data|).columns
    ensures |StatCells(MeanLabel, count, means)| == |StatCells(SeLabel, count, ses)| == Opening(count, |data|).columns
  {
  }

  /**
   * As written, both statistics rows carry a label cell, so without a count
   * column they are one cell wider than the opening declares; with one, they
   * are the corrected rows.
   */
  lemma StatRowsTooWide(means: seq<string>, ses: seq<string>)
    requires |means| == |ses|
    ensures var r := StatRowsAsWritten(means, ses);
      |r[1].cells| == |r[3].cells| == Opening(false, |means|).columns + 1
    ensures StatRowsAsWritten(means, ses) == StatRows(true, means, ses)
  {
  }

  /**
   * The cells of data row `i`: with a count column, first the number `i + 1`
   * (read back as that number); then column `j`'s entry, printed as ` - `
   * when it is missing and otherwise as text that reads back as the entry
   * rounded with the column's digit.
   */
  lemma DataCellsAt(data: seq<Column>, digits: seq<int>, count: bool, i: nat, j: nat)
    requires |digits| == |data| && forall c :: 0 <= c < |data| ==> i < |data[c]|
    requires j < |data|
    ensures var cells := DataCells(data, digits, count, i);
      var c := cells[(if count then 1 else 0) + j];
      (count ==> cells[0].Text? && AllDigits(cells[0].text) && DigitsValue(cells[0].text) == i + 1) &&
      (data[j][i].None? ==> c == Missing && CellText(c) == Absent) &&
      (data[j][i].Some? ==> c == Number(data[j][i].value, digits[j]) &&
                             ParseDisplay(CellText(c)) == Some(Rounded(data[j][i].value, digits[j])))
  {
    var cells := DataCells(data, digits, count, i);
    RowValuesAt(data, digits, i, |data|, j);
    assert cells[(if count then 1 else 0) + j] == Entry(data[j][i], digits[j]);
    if count {
      assert cells[0] == Text(NatDigits(i + 1));
      NatDigitsValue(i + 1);
    }
  }

  lemma {:induction false} RowValuesAt(data: seq<Column>, digits: seq<int>, i: nat, k: nat, j: nat)
    requires |digits| == |data| && k <= |data| && forall c :: 0 <= c < |data| ==> i < |data[c]|
    requires j < k
    ensures RowValues(data, digits, i, k)[j] == Entry(data[j][i], digits[j])
  {
    if j < k - 1 {
      RowValuesAt(data, digits, i, k - 1, j);
    }
  }

  /** The opening declares one `r|` column specification per column. */
  lemma RenderBeginExample()
    ensures Render(Begin(3))[2] == "\\begin{tabular}{|r|r|r|}"
  {
    assert Repeat("r|", 3) == "r|r|r|";
  }

  /** A row's cells are joined by ` & ` and closed by ` \\ `; a missing entry prints as ` - `. */
  lemma RenderRowExample()
    ensures Render(Row([Text("1"), Missing, Text("2,5")])) == ["1 &  -  & 2,5 \\\\ "]
  {
    var texts := CellTexts([Text("1"), Missing, Text("2,5")]);
    assert texts == ["1", " - ", "2,5"];
    assert Join(["2,5"]) == "2,5";
    assert Join([" - ", "2,5"]) == " - " + " & " + Join(["2,5"]);
    assert Join(texts) == "1" + " & " + Join([" - ", "2,5"]);
    assert Join(texts) + " \\\\ " == "1 &  -  & 2,5 \\\\ ";
  }

  lemma {:induction false} RenderAllAppend(a: seq<Line>, b: seq<Line>)
    ensures RenderAll(a + b) == RenderAll(a) + RenderAll(b)
  {
    if a != [] {
      assert (a + b)[0] == a[0] && (a + b)[1..] == a[1..] + b;
      calc {
        RenderAll(a + b);
        Render(a[0]) + RenderAll(a[1..] + b);
        { RenderAllAppend(a[1..], b); }
        Render(a[0]) + (RenderAll(a[1..]) + RenderAll(b));
        (Render(a[0]) + RenderAll(a[1..])) + RenderAll(b);
      }
    } else {
      assert a + b == b;
    }
  }

  /** Rules and rows print one line each. */
  lemma {:induction false} RenderAllOneLineEach(ls: seq<Line>)
    requires forall i :: 0 <= i < |ls| ==> ls[i].Hline? || ls[i].Row?
    ensures |RenderAll(ls)| == |ls|
  {
    if ls != [] {
      RenderAllOneLineEach(ls[1..]);
    }
  }

  /** Lines between an opening and a closing line that are rules and rows print one line each. */
  lemma RenderFramed(first: Line, mid: seq<Line>, last: Line)
    requires forall i :: 0 <= i < |mid| ==> mid[i].Hline? || mid[i].Row?
    ensures var t := RenderAll([first] + mid + [last]);
      |t| == |Render(first)| + |mid| + |Render(last)| &&
      t[..|Render(first)|] == Render(first) &&
      t[|t| - |Render(last)|..] == Render(last)
  {
    RenderAllOneLineEach(mid);
    RenderAllAppend([first] + mid, [last]);
    RenderAllAppend([first], mid);
    assert RenderAll([first]) == Render(first) by {
      assert [first][1..] == [];
    }
    assert RenderAll([last]) == Render(last) by {
      assert [last][1..] == [];
    }
  }

  /** Between its opening and its end, the table has only rules and rows. */
  lemma TableMiddle(count: bool, stats: bool, quantities: seq<(string, string)>, data: seq<Column>,
                    digits: seq<int>, m: nat, means: seq<string>, ses: seq<string>)
    requires |digits| == |data| && forall j :: 0 <= j < |data| ==> |data[j]| == m
    ensures var t := Table(count, stats, quantities, data, digits, m, means, ses);
      |t| >= 2 && t == [t[0]] + t[1..|t| - 1] + [t[|t| - 1]] &&
      forall i :: 1 <= i < |t| - 1 ==> t[i].Hline? || t[i].Row?
  {
    var t := Table(count, stats, quantities, data, digits, m, means, ses);
    TableShape(count, stats, quantities, data, digits, m, means, ses);
    forall i | 1 <= i < |t| - 1
      ensures t[i].Hline? || t[i].Row?
    {
      if 5 <= i < 5 + 2 * m {
        TableDataRows(count, stats, quantities, data, digits, m, means, ses, (i - 5) / 2);
      }
    }
  }

  /**
   * The printed table: 11 lines around the `m` data rows and their rules,
   * 5 more with statistics; it opens with the three lines of `beginning`
   * and closes with the four of `ending`.
   */
  lemma TableText(count: bool, stats: bool, quantities: seq<(string, string)>, data: seq<Column>,
                  digits: seq<int>, m: nat, means: seq<string>, ses: seq<string>)
    requires |digits| == |data| && forall j :: 0 <= j < |data| ==> |data[j]| == m
    ensures var t := RenderAll(Table(count, stats, quantities, data, digits, m, means, ses));
      |t| == 11 + 2 * m + (if stats then 5 else 0) &&
      t[..3] == Render(Opening(count, |data|)) &&
      t[|t| - 4..] == Render(End)
  {
    var lines := Table(count, stats, quantities, data, digits, m, means, ses);
    TableShape(count, stats, quantities, data, digits, m, means, ses);
    TableMiddle(count, stats, quantities, data, digits, m, means, ses);
    var mid := lines[1..|lines| - 1];
    RenderFramed(lines[0], mid, lines[|lines| - 1]);
  }

  // ---------------------------------------------------------------------
  // The statistics the tests pin

  /**
   * The five columns of test_labs_pytest.py:22-29: their means and standard
   * errors as decimals (the floats numpy computes, cut after a few digits).
   */
  const ExampleMeans := [Dec(1, 0), Dec(2, 0), Dec(4733, 5), Dec(8233, 2), Dec(26667, 5)]
  const ExampleSes := [Dec(0, 0), Dec(4714, 4), Dec(1606, 5), Dec(3086, 2), Dec(13641, 5)]
  const ExampleGiven: seq<Option<int>> := [None, None, None, None, Some(3)]

  /** Four unset digits come from the standard errors, the given 3 stays. */
  lemma ExampleDigits()
    ensures ResolveAll(ExampleGiven, ExampleSes) == Success([0, 1, 2, -1, 3])
  {
    var ds := [0, 1, 2, -1, 3];
    forall j | 0 <= j < 5
      ensures ResolveDigit(ExampleGiven[j], ExampleSes[j]) == Success(ds[j])
    {
      if j == 0 {
        assert ExampleGiven[j] == None && ExampleSes[j] == Dec(0, 0);
      } else if j == 1 {
        assert ExampleGiven[j] == None && ExampleSes[j] == Dec(4714, 4);
        UnsetFourDigits(4714, 4);
      } else if j == 2 {
        assert ExampleGiven[j] == None && ExampleSes[j] == Dec(1606, 5);
        UnsetFourDigits(1606, 5);
      } else if j == 3 {
        assert ExampleGiven[j] == None && ExampleSes[j] == Dec(3086, 2);
        UnsetFourDigits(3086, 2);
      } else {
        assert ExampleGiven[j] == Some(3) && ExampleSes[j] == Dec(13641, 5);
      }
    }
    ResolveAllIs(ExampleGiven, ExampleSes, ds);
  }

  /** An unset digit for a four-digit standard error with scale 2 to 5. */
  lemma UnsetFourDigits(a: nat, s: nat)
    requires 1000 <= a < 10000 && 2 <= s <= 5
    ensures ResolveDigit(None, Dec(a, s)) == Success(s - 3)
  {
    ExampleInRange(a, s);
    DigitCountFromBounds(a, 4);
  }

  /** A four-digit mantissa with scale 2 to 5 prints in plain notation. */
  lemma ExampleInRange(a: nat, s: nat)
    requires 1000 <= a < 10000 && 2 <= s <= 5
    ensures InPlainRange(Dec(a, s))
  {
    assert Pow10(4) == 10000;
    assert Pow10(s) <= 100000 by {
      Pow10AtMost(s, 5);
      assert Pow10(5) == 100000;
    }
    Pow10AtMost(16, 16 + s);
    assert Pow10(16) >= 10000 by {
      Pow10AtMost(4, 16);
    }
  }

  lemma ExampleMeanTexts1()
    ensures Format(Dec(1, 0), 0) == "1"
    ensures Format(Dec(0, 0), 0) == "0"
  {
    FormatOf(Dec(1, 0), 0, 1, "1");
    FormatOf(Dec(0, 0), 0, 0, "0");
  }

  lemma ExampleMeanText3()
    ensures Format(Dec(4733, 5), 2) == "0,05"
  {
    assert Pow10(3) == 1000;
    assert Split(4733, 1000) == (4, 733);
    assert RoundHalfEven(4733, 1000) == 5;
    assert DivPow10(5, 2) == (0, 5);
    FormatOf(Dec(4733, 5), 2, 5, "0,05");
  }

  lemma ExampleMeanText5()
    ensures Format(Dec(26667, 5), 3) == "0,267"
  {
    assert Pow10(2) == 100;
    assert Split(26667, 100) == (266, 67);
    assert RoundHalfEven(26667, 100) == 267;
    assert DivPow10(267, 3) == (0, 267);
    FormatOf(Dec(26667, 5), 3, 267, "0,267");
  }

  lemma ExampleSeText2()
    ensures Format(Dec(4714, 4), 1) == "0,5"
  {
    assert Pow10(3) == 1000;
    assert Split(4714, 1000) == (4, 714);
    assert RoundHalfEven(4714, 1000) == 5;
    assert DivPow10(5, 1) == (0, 5);
    FormatOf(Dec(4714, 4), 1, 5, "0,5");
  }

  lemma ExampleSeText3()
    ensures Format(Dec(1606, 5), 2) == "0,02"
  {
    assert Pow10(3) == 1000;
    assert Split(1606, 1000) == (1, 606);
    assert RoundHalfEven(1606, 1000) == 2;
    assert DivPow10(2, 2) == (0, 2);
    FormatOf(Dec(1606, 5), 2, 2, "0,02");
  }

  lemma ExampleSeText4()
    ensures Format(Dec(3086, 2), -1) == "30"
  {
    assert Pow10(3) == 1000;
    assert Split(3086, 1000) == (3, 86);
    assert RoundHalfEven(3086, 1000) == 3;
    FormatOf(Dec(3086, 2), -1, 30, "30");
  }

  lemma ExampleSeText5()
    ensures Format(Dec(13641, 5), 3) == "0,136"
  {
    assert Pow10(2) == 100;
    assert Split(13641, 100) == (136, 41);
    assert RoundHalfEven(13641, 100) == 136;
    assert DivPow10(136, 3) == (0, 136);
    FormatOf(Dec(13641, 5), 3, 136, "0,136");
  }

  /**
   * `stat_values` on the test columns (test_labs_pytest.py:22-29): digits
   * [0, 1, 2, -1, 3], and each mean and standard error printed with its
   * column's digit.
   */
  lemma StatValuesExample()
    ensures ResolveAll(ExampleGiven, ExampleSes) == Success([0, 1, 2, -1, 3])
    ensures Texts(ExampleMeans, [0, 1, 2, -1, 3]) == ["1", "2,0", "0,05", "80", "0,267"]
    ensures Texts(ExampleSes, [0, 1, 2, -1, 3]) == ["0", "0,5", "0,02", "30", "0,136"]
  {
    ExampleDigits();
    ExampleMeanTexts();
    ExampleSeTexts();
  }

  lemma ExampleMeanTexts()
    ensures Texts(ExampleMeans, [0, 1, 2, -1, 3]) == ["1", "2,0", "0,05", "80", "0,267"]
  {
    var ds := [0, 1, 2, -1, 3];
    var t := ["1", "2,0", "0,05", "80", "0,267"];
    forall j | 0 <= j < 5
      ensures t[j] == Format(ExampleMeans[j], ds[j])
    {
      if j == 0 {
        ExampleMeanTexts1();
      } else if j == 1 {
        FormatPaddedExample();
      } else if j == 2 {
        ExampleMeanText3();
      } else if j == 3 {
        FormatTensExample();
      } else {
        ExampleMeanText5();
      }
    }
    TextsAre(t, ExampleMeans, ds);
  }

  lemma ExampleSeTexts()
    ensures Texts(ExampleSes, [0, 1, 2, -1, 3]) == ["0", "0,5", "0,02", "30", "0,136"]
  {
    var ds := [0, 1, 2, -1, 3];
    var t := ["0", "0,5", "0,02", "30", "0,136"];
    forall j | 0 <= j < 5
      ensures t[j] == Format(ExampleSes[j], ds[j])
    {
      if j == 0 {
        ExampleMeanTexts1();
      } else if j == 1 {
        ExampleSeText2();
      } else if j == 2 {
        ExampleSeText3();
      } else if j == 3 {
        ExampleSeText4();
      } else {
        ExampleSeText5();
      }
    }
    TextsAre(t, ExampleSes, ds);
  }
}
