/**
 * How `Database.load_records_from_urls` (inspiderweb/database.py) reads
 * one CSV row, given as its list of cells: which rows it skips, which make
 * it raise, and the (label, recid) pair it takes from the others.
 */
module UrlRows {
  import opened Wrappers
  import opened Strings

  /** Python's `row[column]` on a list, negative columns counting from the end. */
  function Cell(row: seq<string>, column: int): Option<string> {
    if 0 <= column < |row| then Some(row[column])
    else if -|row| <= column < 0 then Some(row[|row| + column])
    else None
  }

  /**
   * `t` is the leftmost maximal run of digits in `s`, starting at `i`: no
   * digit comes before it and none right after it.
   */
  predicate IsFirstDigitRun(s: string, i: nat, t: string) {
    && t != [] && AllDigits(t)
    && i + |t| <= |s| && s[i..i + |t|] == t
    && (forall j :: 0 <= j < i ==> !IsDigit(s[j]))
    && (i + |t| == |s| || !IsDigit(s[i + |t|]))
  }

  /** The first maximal digit run in `s`, or None if `s` has no digit. */
  function FirstDigitRunFrom(s: string, i: nat): (r: Option<nat>)
    requires i <= |s|
    decreases |s| - i
    ensures r.None? ==> forall j :: i <= j < |s| ==> !IsDigit(s[j])
    ensures r.Some? ==> i <= r.value < |s| && IsDigit(s[r.value])
                        && forall j :: i <= j < r.value ==> !IsDigit(s[j])
  {
    if i == |s| then None
    else if IsDigit(s[i]) then Some(i)
    else FirstDigitRunFrom(s, i + 1)
  }

  /** `re.search("[0-9]+", s).group(0)`, or None where the search finds no match. */
  function FirstDigitRun(s: string): Option<string> {
    match FirstDigitRunFrom(s, 0)
    case None => None
    case Some(i) => Some(s[i..RunEnd(s, i, IsDigit)])
  }

  /** The search fails exactly when there is no digit, and otherwise finds the first maximal run. */
  lemma FirstDigitRunShape(s: string)
    ensures FirstDigitRun(s).None? <==> forall j :: 0 <= j < |s| ==> !IsDigit(s[j])
    ensures FirstDigitRun(s).Some? ==> exists i: nat :: IsFirstDigitRun(s, i, FirstDigitRun(s).value)
  {
    match FirstDigitRunFrom(s, 0)
    case None =>
    case Some(i) =>
      var e := RunEnd(s, i, IsDigit);
      var t := s[i..e];
      assert IsFirstDigitRun(s, i, t) by {
        assert forall k :: 0 <= k < |t| ==> t[k] == s[i + k];
        assert i + |t| == e;
      }
  }

  /** What happens to one row. */
  datatype RowOutcome =
    | EmptyRow
    | CommentRow
      /** The label or the id column is out of range: IndexError, which is not caught. */
    | ColumnMissing
      /** The id cell has no digit: AttributeError on `None.group`, caught. */
    | NoRecid
    | Entry(name: string, mid: string)

  /** The classification made by the loop body, lines 88-98. */
  function ClassifyRow(row: seq<string>, commentChar: string, labelColumn: int, idColumn: int): RowOutcome
  {
    if row == [] then EmptyRow
    else if StartsWith(row[0], commentChar) then CommentRow
    else match Cell(row, labelColumn)
      case None => ColumnMissing
      case Some(labelCell) =>
        var name := Strip(labelCell);
        match Cell(row, idColumn)
        case None => ColumnMissing
        case Some(idCell) =>
          match FirstDigitRun(Strip(idCell))
          case None => NoRecid
          case Some(mid) => Entry(name, mid)
  }

  /**
   * Empty rows and comment rows are skipped; a row with a missing column
   * raises; a row whose id cell has no digit is skipped; any other row
   * gives its stripped label cell and the first digit run of its stripped
   * id cell, so a non-empty recid of digits only.
   */
  lemma ClassifyRowCases(row: seq<string>, commentChar: string, labelColumn: int, idColumn: int)
    ensures var r := ClassifyRow(row, commentChar, labelColumn, idColumn);
      && (r == EmptyRow <==> row == [])
      && (r == CommentRow <==> row != [] && StartsWith(row[0], commentChar))
      && (r == ColumnMissing <==>
            row != [] && !StartsWith(row[0], commentChar)
            && (Cell(row, labelColumn).None? || Cell(row, idColumn).None?))
      && (r == NoRecid <==>
            && row != [] && !StartsWith(row[0], commentChar)
            && Cell(row, labelColumn).Some? && Cell(row, idColumn).Some?
            && forall j :: 0 <= j < |Strip(Cell(row, idColumn).value)| ==>
                             !IsDigit(Strip(Cell(row, idColumn).value)[j]))
      && (r.Entry? ==>
            && Cell(row, labelColumn).Some? && r.name == Strip(Cell(row, labelColumn).value)
            && IsStripped(r.name)
            && Cell(row, idColumn).Some?
            && (exists i: nat :: IsFirstDigitRun(Strip(Cell(row, idColumn).value), i, r.mid))
            && r.mid != [] && AllDigits(r.mid))
  {
    var r := ClassifyRow(row, commentChar, labelColumn, idColumn);
    if Cell(row, idColumn).Some? {
      FirstDigitRunShape(Strip(Cell(row, idColumn).value));
    }
    if r.Entry? {
      var i: nat :| IsFirstDigitRun(Strip(Cell(row, idColumn).value), i, r.mid);
    }
  }

  /** The exceptions the row loop, as written, can raise. */
  datatype RowError = IndexError | AttributeError

  /** How the row loop, as written, ends: having looked at every row, or raising at one. */
  datatype RowsRun = AllRows | Raised(row: nat, error: RowError)

  /** A row the loop passes over with `continue`. */
  predicate Skipped(o: RowOutcome) {
    o == EmptyRow || o == CommentRow || o == NoRecid
  }

  /** A string of digits only is its own first digit run. */
  lemma FirstDigitRunOfDigits(mid: string)
    requires mid != [] && AllDigits(mid)
    ensures Strip(mid) == mid && FirstDigitRun(mid) == Some(mid)
  {
    assert IsDigit(mid[0]) && IsDigit(mid[|mid| - 1]);
    StripOfStripped(mid);
    assert FirstDigitRunFrom(mid, 0) == Some(0);
    assert RunEnd(mid, 0, IsDigit) == |mid|;
    assert mid[0..|mid|] == mid;
  }

  /**
   * A row with a label and a recid of digits, such as `A paper;1234`, is
   * an entry: its stripped label and the recid.
   */
  lemma EntryRowExample(name: string, mid: string)
    requires !StartsWith(name, "#")
    requires mid != [] && AllDigits(mid)
    ensures ClassifyRow([name, mid], "#", 0, 1) == Entry(Strip(name), mid)
  {
    FirstDigitRunOfDigits(mid);
    var row := [name, mid];
    assert row[0] == name && !StartsWith(row[0], "#");
    assert Cell(row, 0) == Some(name) && Cell(row, 1) == Some(mid);
    assert FirstDigitRun(Strip(row[1])) == Some(mid);
  }

  /** A row with a single cell, such as `A paper`, misses the id column. */
  lemma ShortRowExample(name: string)
    requires !StartsWith(name, "#")
    ensures ClassifyRow([name], "#", 0, 1) == ColumnMissing
  {
  }
}
