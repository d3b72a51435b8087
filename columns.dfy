/** A1 cell addresses as `backend/rush.js` builds them for single-cell
    writes: a column name followed by the 1-based row number. Column names
    run A..Z, AA..AZ, BA.. (bijective base 26). */
module Columns {
  import opened Wrappers
  import opened Text

  predicate IsUpper(c: char) { 'A' <= c <= 'Z' }

  /** A column letter as the service reads it: either case. */
  predicate IsLetter(c: char) { 'A' <= c <= 'Z' || 'a' <= c <= 'z' }

  /** The base-26 digit of a letter, ignoring case (A = a = 1). */
  function LetterDigit(c: char): (d: nat)
    requires IsLetter(c)
    ensures 1 <= d <= 26
  {
    if IsUpper(c) then c as int - 'A' as int + 1 else c as int - 'a' as int + 1
  }

  /** The letter of a digit in base 26. */
  function Letter(d: nat): (c: char)
    requires d < 26
    ensures IsUpper(c) && c as int - 'A' as int == d
  {
    ('A' as int + d) as char
  }

  /** The name of zero-based column `c`: A for 0, Z for 25, AA for 26. */
  function ColumnName(c: nat): (s: string)
    ensures |s| >= 1 && forall i :: 0 <= i < |s| ==> IsUpper(s[i])
    decreases c
  {
    if c < 26 then [Letter(c)] else ColumnName(c / 26 - 1) + [Letter(c % 26)]
  }

  /** The bijective base-26 value of a run of letters (A = 1), ignoring
      case. */
  function LettersValue(s: string): nat
    requires forall i :: 0 <= i < |s| ==> IsLetter(s[i])
    decreases |s|
  {
    if s == [] then 0
    else
      assert IsLetter(s[|s| - 1]);
      LettersValue(s[..|s| - 1]) * 26 + LetterDigit(s[|s| - 1])
  }

  /** Zero-based column of a name; `None` for anything that is not a
      non-empty run of capital letters. */
  function ColumnIndex(s: string): (r: Option<nat>)
    ensures r.Some? ==> s != []
  {
    if s != [] && forall i :: 0 <= i < |s| ==> IsUpper(s[i]) then Some(LettersValue(s) - 1) else None
  }

  /** Every column name reads back as its column. */
  lemma {:induction false} ColumnIndexOfName(c: nat)
    ensures ColumnIndex(ColumnName(c)) == Some(c)
    decreases c
  {
    var s := ColumnName(c);
    if c >= 26 {
      ColumnIndexOfName(c / 26 - 1);
      assert s[..|s| - 1] == ColumnName(c / 26 - 1);
      assert LettersValue(s) == (c / 26) * 26 + c % 26 + 1;
    } else {
      assert s[..0] == [];
    }
  }

  /** Distinct columns have distinct names. */
  lemma ColumnNameInjective(a: nat, b: nat)
    requires ColumnName(a) == ColumnName(b)
    ensures a == b
  {
    ColumnIndexOfName(a);
    ColumnIndexOfName(b);
  }

  /** A cell address: zero-based column and zero-based row. */
  datatype Address = Address(col: nat, row: nat)

  /** The A1 text of a zero-based cell: data index `i` is sheet row `i + 1`. */
  function CellRef(col: nat, row: nat): string {
    ColumnName(col) + NatToString(row + 1)
  }

  /** How many letters `s` starts with. */
  function LetterRun(s: string): (k: nat)
    ensures k <= |s| && forall i :: 0 <= i < k ==> IsLetter(s[i])
    ensures k < |s| ==> !IsLetter(s[k])
    decreases |s|
  {
    if s != [] && IsLetter(s[0]) then 1 + LetterRun(s[1..]) else 0
  }

  /** How the service reads an A1 cell address: column letters in either
      case, then the 1-based row; `None` is a range it rejects. */
  function ParseCellRef(s: string): (r: Option<Address>)
    ensures r.Some? ==> LetterRun(s) > 0
  {
    var k := LetterRun(s);
    if k == 0 then None
    else match ParseNat(s[k..])
      case Some(n) => if n >= 1 then Some(Address(LettersValue(s[..k]) - 1, n - 1)) else None
      case None => None
  }

  /** The letters of a name followed by digits are exactly the name. */
  lemma {:induction false} LetterRunOf(a: string, b: string)
    requires forall i :: 0 <= i < |a| ==> IsLetter(a[i])
    requires b == [] || !IsLetter(b[0])
    ensures LetterRun(a + b) == |a|
    decreases |a|
  {
    if a != [] {
      assert (a + b)[1..] == a[1..] + b;
      LetterRunOf(a[1..], b);
    }
  }

  /** An address built by `CellRef` reads back as the cell it names. */
  lemma ParseCellRefOf(col: nat, row: nat)
    ensures ParseCellRef(CellRef(col, row)) == Some(Address(col, row))
  {
    var a := ColumnName(col);
    var d := NatToString(row + 1);
    var s := a + d;
    assert !IsLetter(d[0]);
    LetterRunOf(a, d);
    assert s[..|a|] == a && s[|a|..] == d;
    ParseNatToString(row + 1);
    ColumnIndexOfName(col);
  }

  /** The column letter as `backend/rush.js` writes it:
      `String.fromCharCode(65 + c)`, one character whatever the column. */
  function ColumnLetter(c: nat): (s: string)
    requires c < 0xD800 - 65
    ensures |s| == 1
  {
    [(65 + c) as char]
  }

  /** For the first 26 columns the one-character letter is the column name. */
  lemma ColumnLetterAgrees(c: nat)
    requires c < 26
    ensures ColumnLetter(c) == ColumnName(c)
  {
  }

  /** From the 27th column on, outside the 32..57 stretch, the
      one-character letter is no letter at all, so the address it builds
      names no cell and the write is rejected; the column name reaches the
      intended cell. */
  lemma ColumnLetterFails(c: nat, row: nat)
    requires 26 <= c < 32 || 57 < c < 0xD800 - 65
    ensures ParseCellRef(ColumnLetter(c) + NatToString(row + 1)) == None
    ensures ParseCellRef(CellRef(c, row)) == Some(Address(c, row))
  {
    var s := ColumnLetter(c) + NatToString(row + 1);
    assert !IsLetter(s[0]);
    ParseCellRefOf(c, row);
  }

  /** For columns 32..57 the one-character letter is a lower-case 'a'..'z',
      which the service reads as column `c - 32`: the write lands in the
      wrong column instead of failing. */
  lemma ColumnLetterWrongColumn(c: nat, row: nat)
    requires 32 <= c <= 57
    ensures ParseCellRef(ColumnLetter(c) + NatToString(row + 1)) == Some(Address(c - 32, row))
    ensures ParseCellRef(CellRef(c, row)) == Some(Address(c, row))
  {
    var a := ColumnLetter(c);
    var d := NatToString(row + 1);
    var s := a + d;
    assert IsLetter(a[0]) && !IsLetter(d[0]);
    LetterRunOf(a, d);
    assert s[..1] == a && s[1..] == d;
    assert a[..0] == [];
    assert LettersValue(a) == c - 32 + 1;
    ParseNatToString(row + 1);
    ParseCellRefOf(c, row);
  }

  /** The concrete cases: column index 26 gives "[" where "AA" was meant,
      and column index 32 gives "a", which is column A, where "AG" was
      meant. */
  lemma ColumnLetterExample()
    ensures ColumnLetter(26) == "["
    ensures ColumnName(26) == "AA"
    ensures ColumnLetter(32) == "a"
    ensures ColumnName(32) == "AG"
  {
  }
}
