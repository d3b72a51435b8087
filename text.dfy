/** The string operations the backend leans on: `String.prototype.trim`,
    `toLowerCase`, `split`, `includes`, `replace` with a string pattern, and the
    decimal rendering and parsing of whole numbers. */
module Text {
  import opened Wrappers

  /** The characters `String.prototype.trim` removes (ECMAScript WhiteSpace and
      LineTerminator). */
  predicate IsSpace(c: char) {
    c == ' ' || c == '\t' || c == '\n' || c == '\r' || c == '\U{000B}' || c == '\U{000C}'
    || c == '\U{00A0}' || c == '\U{1680}' || ('\U{2000}' <= c <= '\U{200A}')
    || c == '\U{2028}' || c == '\U{2029}' || c == '\U{202F}' || c == '\U{205F}'
    || c == '\U{3000}' || c == '\U{FEFF}'
  }

  function TrimStart(s: string): (r: string)
    ensures |r| <= |s|
    decreases |s|
  {
    if s != [] && IsSpace(s[0]) then TrimStart(s[1..]) else s
  }

  /** `TrimStart` keeps a suffix that does not start with white space. */
  lemma {:induction false} TrimStartShape(s: string)
    ensures var r := TrimStart(s); r == s[|s| - |r|..] && (r != [] ==> !IsSpace(r[0]))
    decreases |s|
  {
    if s != [] && IsSpace(s[0]) {
      TrimStartShape(s[1..]);
    }
  }

  /** What `TrimStart` drops is white space. */
  lemma {:induction false} TrimStartDrops(s: string)
    ensures forall i :: 0 <= i < |s| - |TrimStart(s)| ==> IsSpace(s[i])
    decreases |s|
  {
    if s != [] && IsSpace(s[0]) {
      TrimStartDrops(s[1..]);
      assert forall i :: 1 <= i < |s| ==> s[i] == s[1..][i - 1];
    }
  }

  function TrimEnd(s: string): (r: string)
    ensures |r| <= |s|
    decreases |s|
  {
    if s != [] && IsSpace(s[|s| - 1]) then TrimEnd(s[..|s| - 1]) else s
  }

  /** `TrimEnd` keeps a prefix that does not end with white space. */
  lemma {:induction false} TrimEndShape(s: string)
    ensures var r := TrimEnd(s); r == s[..|r|] && (r != [] ==> !IsSpace(r[|r| - 1]))
    decreases |s|
  {
    if s != [] && IsSpace(s[|s| - 1]) {
      TrimEndShape(s[..|s| - 1]);
    }
  }

  /** What `TrimEnd` drops is white space. */
  lemma {:induction false} TrimEndDrops(s: string)
    ensures forall i :: |TrimEnd(s)| <= i < |s| ==> IsSpace(s[i])
    decreases |s|
  {
    if s != [] && IsSpace(s[|s| - 1]) {
      TrimEndDrops(s[..|s| - 1]);
    }
  }

  /** How many white-space characters `trim` drops at the front. */
  function Lead(s: string): nat {
    |s| - |TrimStart(s)|
  }

  /** `s.trim()`: the longest run of `s` that neither starts nor ends with white space. */
  function Trim(s: string): (r: string)
    ensures |r| <= |s|
  {
    TrimEnd(TrimStart(s))
  }

  /** `trim` keeps a stretch of `s` that neither starts nor ends with white
      space. */
  lemma TrimShape(s: string)
    ensures var r := Trim(s);
      Lead(s) + |r| <= |s| && r == s[Lead(s)..Lead(s) + |r|]
      && (r != [] ==> !IsSpace(r[0]) && !IsSpace(r[|r| - 1]))
  {
    var t := TrimStart(s);
    TrimStartShape(s);
    TrimEndShape(t);
  }

  /** Everything `trim` drops, at either end, is white space. */
  lemma TrimDrops(s: string)
    ensures forall i :: 0 <= i < Lead(s) ==> IsSpace(s[i])
    ensures forall i :: Lead(s) + |Trim(s)| <= i < |s| ==> IsSpace(s[i])
  {
    TrimStartDrops(s);
    var t := TrimStart(s);
    TrimEndDrops(t);
    TrimStartShape(s);
    assert forall i :: Lead(s) <= i < |s| ==> s[i] == t[i - Lead(s)];
  }

  lemma {:induction false} TrimStartOfTrimmed(s: string)
    requires s == [] || !IsSpace(s[0])
    ensures TrimStart(s) == s
  {
  }

  lemma {:induction false} TrimEndOfTrimmed(s: string)
    requires s == [] || !IsSpace(s[|s| - 1])
    ensures TrimEnd(s) == s
  {
  }

  /** Trimming twice is trimming once. */
  lemma TrimIdempotent(s: string)
    ensures Trim(Trim(s)) == Trim(s)
  {
    var r := Trim(s);
    TrimShape(s);
    TrimStartOfTrimmed(r);
    TrimEndOfTrimmed(r);
  }

  /** `toLowerCase` on one character, for the capitals of Basic Latin,
      Latin-1, Greek and Cyrillic; every other character is kept. */
  function Lower(c: char): char {
    if 'A' <= c <= 'Z' || ('\U{00C0}' <= c <= '\U{00DE}' && c != '\U{00D7}')
       || ('\U{0391}' <= c <= '\U{03A9}' && c != '\U{03A2}') || ('\U{0410}' <= c <= '\U{042F}')
    then (c as int + 32) as char
    else if '\U{0400}' <= c <= '\U{040F}' then (c as int + 80) as char
    else c
  }

  function ToLower(s: string): (r: string)
    ensures |r| == |s|
    decreases |s|
  {
    if s == [] then [] else [Lower(s[0])] + ToLower(s[1..])
  }

  /** `ToLower` works character by character. */
  lemma {:induction false} ToLowerAt(s: string)
    ensures forall i :: 0 <= i < |s| ==> ToLower(s)[i] == Lower(s[i])
    decreases |s|
  {
    if s != [] {
      ToLowerAt(s[1..]);
    }
  }

  lemma {:induction false} ToLowerSlice(s: string, a: int, b: int)
    requires 0 <= a <= b <= |s|
    ensures ToLower(s)[a..b] == ToLower(s[a..b])
  {
    ToLowerAt(s);
    ToLowerAt(s[a..b]);
  }

  lemma LowerSpace(c: char)
    ensures IsSpace(Lower(c)) == IsSpace(c)
  {
  }

  lemma {:induction false} TrimStartLower(s: string)
    ensures TrimStart(ToLower(s)) == ToLower(TrimStart(s))
    decreases |s|
  {
    if s != [] {
      var t := ToLower(s);
      assert t == [Lower(s[0])] + ToLower(s[1..]);
      assert t[1..] == ToLower(s[1..]);
      LowerSpace(s[0]);
      if IsSpace(s[0]) {
        TrimStartLower(s[1..]);
      }
    }
  }

  lemma {:induction false} TrimEndLower(s: string)
    ensures TrimEnd(ToLower(s)) == ToLower(TrimEnd(s))
    decreases |s|
  {
    if s != [] {
      ToLowerSlice(s, 0, |s| - 1);
      ToLowerAt(s);
      LowerSpace(s[|s| - 1]);
      if IsSpace(s[|s| - 1]) {
        TrimEndLower(s[..|s| - 1]);
      }
    }
  }

  /** Lower-casing never creates or removes white space, so it commutes with trimming. */
  lemma TrimLowerCommute(s: string)
    ensures Trim(ToLower(s)) == ToLower(Trim(s))
  {
    TrimStartLower(s);
    TrimEndLower(TrimStart(s));
  }

  lemma ToLowerIdempotent(s: string)
    ensures ToLower(ToLower(s)) == ToLower(s)
  {
  }

  /** The lookup key every module uses: `(s || '').trim().toLowerCase()`. */
  function Normalize(s: string): (r: string)
    ensures |r| == |Trim(s)| <= |s|
  {
    ToLower(Trim(s))
  }

  /** Normalizing is idempotent, and insensitive to an earlier trim. */
  lemma NormalizeIdempotent(s: string)
    ensures Normalize(Normalize(s)) == Normalize(s)
    ensures Normalize(Trim(s)) == Normalize(s)
  {
    TrimIdempotent(s);
    TrimLowerCommute(Trim(s));
    ToLowerIdempotent(Trim(s));
  }

  /** The normal form is empty exactly when the string is blank. */
  lemma NormalizeEmpty(s: string)
    ensures Normalize(s) == "" <==> forall i :: 0 <= i < |s| ==> IsSpace(s[i])
  {
    TrimDrops(s);
    TrimShape(s);
    if Normalize(s) == "" {
      assert Trim(s) == "";
    } else {
      var r := Trim(s);
      assert r != [] && !IsSpace(r[0]);
      assert s[Lead(s)] == r[0];
    }
  }

  /** `s.split(sep)` with a one-character separator. */
  function Split(s: string, sep: char): (parts: seq<string>)
    ensures |parts| >= 1
    ensures forall i :: 0 <= i < |parts| ==> sep !in parts[i]
    decreases |s|
  {
    if s == [] then [""]
    else
      var rest := Split(s[1..], sep);
      if s[0] == sep then [""] + rest else [[s[0]] + rest[0]] + rest[1..]
  }

  /** `parts.join(sep)`. */
  function Join(parts: seq<string>, sep: char): string
    decreases |parts|
  {
    if parts == [] then ""
    else if |parts| == 1 then parts[0]
    else parts[0] + [sep] + Join(parts[1..], sep)
  }

  /** Splitting loses nothing: joining the pieces gives the string back. */
  lemma {:induction false} SplitJoin(s: string, sep: char)
    ensures Join(Split(s, sep), sep) == s
    decreases |s|
  {
    if s != [] {
      SplitJoin(s[1..], sep);
      var rest := Split(s[1..], sep);
      if s[0] != sep && |rest| > 1 {
        assert ([[s[0]] + rest[0]] + rest[1..])[1..] == rest[1..];
      }
    }
  }

  /** A string without the separator is one piece. */
  lemma {:induction false} SplitNone(s: string, sep: char)
    requires sep !in s
    ensures Split(s, sep) == [s]
    decreases |s|
  {
    if s != [] {
      SplitNone(s[1..], sep);
      assert [s[0]] + s[1..] == s;
    }
  }

  /** The text before the first separator is the first piece; the rest is
      split on its own. */
  lemma {:induction false} SplitFirst(a: string, sep: char, b: string)
    requires sep !in a
    ensures Split(a + [sep] + b, sep) == [a] + Split(b, sep)
    decreases |a|
  {
    if a == [] {
      assert a + [sep] + b == [sep] + b;
      assert ([sep] + b)[1..] == b;
    } else {
      SplitFirst(a[1..], sep, b);
      var s := a + [sep] + b;
      assert s[0] == a[0] && s[1..] == a[1..] + [sep] + b;
      assert [a[0]] + a[1..] == a;
    }
  }

  /** Pieces of a split, trimmed, empty ones dropped: `split(sep).map(p => p.trim()).filter(Boolean)`. */
  function TrimmedPieces(s: string, sep: char): (r: seq<string>)
    ensures forall x :: x in r <==> x != "" && x in TrimAll(Split(s, sep))
  {
    NonEmpty(TrimAll(Split(s, sep)))
  }

  function TrimAll(ps: seq<string>): (r: seq<string>)
    ensures |r| == |ps| && forall i :: 0 <= i < |ps| ==> r[i] == Trim(ps[i])
    decreases |ps|
  {
    if ps == [] then [] else [Trim(ps[0])] + TrimAll(ps[1..])
  }

  /** `filter(Boolean)` on strings. */
  function NonEmpty(ps: seq<string>): (r: seq<string>)
    ensures forall x :: x in r <==> x in ps && x != ""
    decreases |ps|
  {
    if ps == [] then []
    else if ps[0] == "" then NonEmpty(ps[1..])
    else [ps[0]] + NonEmpty(ps[1..])
  }

  /** Joining pieces that hold no separator and splitting again gives the
      pieces back. */
  lemma {:induction false} JoinSplit(ps: seq<string>, sep: char)
    requires |ps| >= 1 && forall i :: 0 <= i < |ps| ==> sep !in ps[i]
    ensures Split(Join(ps, sep), sep) == ps
    decreases |ps|
  {
    if |ps| == 1 {
      SplitNone(ps[0], sep);
    } else {
      JoinSplit(ps[1..], sep);
      SplitFirst(ps[0], sep, Join(ps[1..], sep));
    }
  }

  /** Pieces that are already trimmed and non-empty survive the trim and
      the filter unchanged. */
  lemma {:induction false} CleanPieces(ps: seq<string>)
    requires forall i :: 0 <= i < |ps| ==> ps[i] != "" && Trim(ps[i]) == ps[i]
    ensures NonEmpty(TrimAll(ps)) == ps
    decreases |ps|
  {
    if ps != [] {
      CleanPieces(ps[1..]);
      assert TrimAll(ps) == [ps[0]] + TrimAll(ps[1..]);
      assert TrimAll(ps)[1..] == TrimAll(ps[1..]);
    }
  }

  /** `join(sep)` then `split(sep).map(trim).filter(Boolean)` is the
      identity on trimmed, non-empty pieces without the separator. */
  lemma TrimmedPiecesJoin(ps: seq<string>, sep: char)
    requires forall i :: 0 <= i < |ps| ==> ps[i] != "" && Trim(ps[i]) == ps[i] && sep !in ps[i]
    ensures TrimmedPieces(Join(ps, sep), sep) == ps
  {
    if ps == [] {
      assert Split("", sep) == [""];
      assert Trim("") == "";
      assert TrimAll([""]) == [""];
    } else {
      JoinSplit(ps, sep);
      CleanPieces(ps);
    }
  }

  /** `s || fallback` on a string: the empty string is falsy. */
  function Or(s: string, fallback: string): string {
    if s != "" then s else fallback
  }

  predicate StartsWith(s: string, prefix: string) {
    |prefix| <= |s| && s[..|prefix|] == prefix
  }

  /** `s.includes(sub)`. */
  predicate Contains(s: string, sub: string)
    decreases |s|
  {
    StartsWith(s, sub) || (s != [] && Contains(s[1..], sub))
  }

  /** `sub` occurs at position `i`, so `s` contains it. */
  lemma {:induction false} ContainsAt(s: string, sub: string, i: nat)
    requires i <= |s| && StartsWith(s[i..], sub)
    ensures Contains(s, sub)
    decreases i
  {
    if i > 0 {
      assert s[1..][i - 1..] == s[i..];
      ContainsAt(s[1..], sub, i - 1);
    }
  }

  /** `includes` holds exactly when some position starts an occurrence. */
  lemma ContainsIff(s: string, sub: string)
    ensures Contains(s, sub) <==> exists i :: 0 <= i <= |s| - |sub| && StartsWith(s[i..], sub)
  {
    if Contains(s, sub) {
      var k := IndexOf(s, sub);
      assert 0 <= k <= |s| - |sub| && StartsWith(s[k..], sub);
    } else {
      forall i | 0 <= i <= |s| - |sub|
        ensures !StartsWith(s[i..], sub)
      {
        if StartsWith(s[i..], sub) {
          ContainsAt(s, sub, i);
        }
      }
    }
  }

  /** `s.indexOf(sub)`: the first position where `sub` occurs, or -1. */
  function IndexOf(s: string, sub: string): (k: int)
    ensures k == -1 || 0 <= k <= |s| - |sub|
    ensures k >= 0 ==> StartsWith(s[k..], sub)
    ensures k < 0 <==> !Contains(s, sub)
    decreases |s|
  {
    if StartsWith(s, sub) then 0
    else if s == [] then -1
    else
      var k := IndexOf(s[1..], sub);
      if k < 0 then -1 else k + 1
  }

  /** No earlier position holds an occurrence. */
  lemma {:induction false} IndexOfFirst(s: string, sub: string, j: int)
    requires 0 <= j < IndexOf(s, sub)
    ensures !StartsWith(s[j..], sub)
    decreases |s|
  {
    if j > 0 {
      IndexOfFirst(s[1..], sub, j - 1);
      assert s[j..] == s[1..][j - 1..];
    }
  }

  /** The replacement text of `s.replace(pat, rep)` for a string pattern:
      `$$` stands for `$`, `$&` for the matched text, `` $` `` for the text
      before the match and `$'` for the text after it; any other `$` is
      kept as it is. */
  function Expand(rep: string, matched: string, before: string, after: string): (r: string)
    ensures '$' !in rep ==> r == rep
    decreases |rep|
  {
    if |rep| >= 2 && rep[0] == '$' && rep[1] == '$' then "$" + Expand(rep[2..], matched, before, after)
    else if |rep| >= 2 && rep[0] == '$' && rep[1] == '&' then matched + Expand(rep[2..], matched, before, after)
    else if |rep| >= 2 && rep[0] == '$' && rep[1] == '`' then before + Expand(rep[2..], matched, before, after)
    else if |rep| >= 2 && rep[0] == '$' && rep[1] == '\'' then after + Expand(rep[2..], matched, before, after)
    else if rep == [] then []
    else
      assert [rep[0]] + rep[1..] == rep;
      [rep[0]] + Expand(rep[1..], matched, before, after)
  }

  /** Every `c` doubled: `s.replace(/"/g, '""')` for a quote, and for `$`
      the form of a text that `replace` inserts literally. */
  function Doubled(s: string, c: char): (r: string)
    ensures |r| >= |s|
    decreases |s|
  {
    if s == [] then [] else (if s[0] == c then [c, c] else [s[0]]) + Doubled(s[1..], c)
  }

  /** Expanding a text whose `$` are doubled gives the text back. */
  lemma {:induction false} ExpandEscaped(s: string, matched: string, before: string, after: string)
    ensures Expand(Doubled(s, '$'), matched, before, after) == s
    decreases |s|
  {
    if s != [] {
      ExpandEscaped(s[1..], matched, before, after);
      var e := Doubled(s, '$');
      if s[0] == '$' {
        assert e == "$$" + Doubled(s[1..], '$');
        assert e[2..] == Doubled(s[1..], '$');
      } else {
        assert e == [s[0]] + Doubled(s[1..], '$');
        assert e[1..] == Doubled(s[1..], '$');
      }
      assert [s[0]] + s[1..] == s;
    }
  }

  /** `s.replace(pat, rep)` with a string pattern: only the first
      occurrence is replaced, by the expansion of `rep`. */
  function ReplaceFirst(s: string, pat: string, rep: string): (r: string)
    ensures !Contains(s, pat) ==> r == s
  {
    var k := IndexOf(s, pat);
    if k < 0 then s else s[..k] + Expand(rep, pat, s[..k], s[k + |pat|..]) + s[k + |pat|..]
  }

  /** A replacement without `$` takes the place of exactly the first
      occurrence: what precedes it holds no occurrence, and the rest of the
      string follows unchanged. */
  lemma ReplaceFirstPresent(s: string, pat: string, rep: string)
    requires Contains(s, pat) && '$' !in rep
    ensures 0 <= IndexOf(s, pat) && StartsWith(s[IndexOf(s, pat)..], pat)
    ensures forall j :: 0 <= j < IndexOf(s, pat) ==> !StartsWith(s[j..], pat)
    ensures ReplaceFirst(s, pat, rep) == s[..IndexOf(s, pat)] + rep + s[IndexOf(s, pat) + |pat|..]
  {
    var k := IndexOf(s, pat);
    NoEarlierOccurrence(s, pat);
    ReplaceFirstAt(s, pat, rep, k);
  }

  lemma ReplaceFirstAt(s: string, pat: string, rep: string, k: int)
    requires k == IndexOf(s, pat) && 0 <= k
    ensures k + |pat| <= |s|
    ensures ReplaceFirst(s, pat, rep) == s[..k] + Expand(rep, pat, s[..k], s[k + |pat|..]) + s[k + |pat|..]
  {
  }

  lemma NoEarlierOccurrence(s: string, pat: string)
    ensures forall j :: 0 <= j < IndexOf(s, pat) ==> !StartsWith(s[j..], pat)
  {
    forall j | 0 <= j < IndexOf(s, pat)
      ensures !StartsWith(s[j..], pat)
    {
      IndexOfFirst(s, pat, j);
    }
  }

  /** The code units `length` counts for one character: two for a
      character outside the Basic Multilingual Plane. */
  function Utf16Units(c: char): nat {
    if c as int > 0xFFFF then 2 else 1
  }

  /** `s.length`, which counts UTF-16 code units rather than characters. */
  function Utf16Length(s: string): (n: nat)
    ensures |s| <= n <= 2 * |s|
    decreases |s|
  {
    if s == [] then 0 else Utf16Units(s[0]) + Utf16Length(s[1..])
  }

  /** Lengths add up over a concatenation. */
  lemma {:induction false} Utf16LengthAppend(a: string, b: string)
    ensures Utf16Length(a + b) == Utf16Length(a) + Utf16Length(b)
    decreases |a|
  {
    if a != [] {
      assert (a + b)[0] == a[0];
      assert (a + b)[1..] == a[1..] + b;
      Utf16LengthAppend(a[1..], b);
      assert Utf16Length(a + b) == Utf16Units(a[0]) + Utf16Length(a[1..] + b);
    } else {
      assert a + b == b;
    }
  }

  /** For text of the Basic Multilingual Plane `length` counts characters. */
  lemma {:induction false} Utf16LengthBmp(s: string)
    requires forall i :: 0 <= i < |s| ==> s[i] as int <= 0xFFFF
    ensures Utf16Length(s) == |s|
    decreases |s|
  {
    if s != [] {
      Utf16LengthBmp(s[1..]);
    }
  }

  lemma Regroup(a: string, b: string, c: string, d: string)
    ensures a + (b + c + d) == a + b + c + d
  {
  }

  predicate IsDigit(c: char) { '0' <= c <= '9' }

  function DigitChar(d: nat): (c: char)
    requires d < 10
    ensures IsDigit(c) && c as int - '0' as int == d
  {
    ('0' as int + d) as char
  }

  /** The decimal rendering of a whole number, as in `${n}`. */
  function NatToString(n: nat): (s: string)
    ensures |s| >= 1 && forall i :: 0 <= i < |s| ==> IsDigit(s[i])
    decreases n
  {
    if n < 10 then [DigitChar(n)] else NatToString(n / 10) + [DigitChar(n % 10)]
  }

  function DigitValue(c: char): nat
    requires IsDigit(c)
  {
    c as int - '0' as int
  }

  function DigitsValue(s: string): nat
    requires forall i :: 0 <= i < |s| ==> IsDigit(s[i])
    decreases |s|
  {
    if s == [] then 0 else DigitsValue(s[..|s| - 1]) * 10 + DigitValue(s[|s| - 1])
  }

  /** A non-empty run of decimal digits read as a whole number; anything else is `None`. */
  function ParseNat(s: string): Option<nat> {
    if s != [] && forall i :: 0 <= i < |s| ==> IsDigit(s[i]) then Some(DigitsValue(s)) else None
  }

  /** Rendering then parsing gives the number back. */
  lemma {:induction false} ParseNatToString(n: nat)
    ensures ParseNat(NatToString(n)) == Some(n)
    decreases n
  {
    var s := NatToString(n);
    if n >= 10 {
      ParseNatToString(n / 10);
      assert s[..|s| - 1] == NatToString(n / 10);
      assert DigitsValue(s) == (n / 10) * 10 + n % 10;
    } else {
      assert s[..0] == [];
      assert DigitsValue(s) == n;
    }
  }

  /** `Number(s)` on the strings the model reads: white space around the
      number is ignored, a blank string is 0, and a run of decimal digits is
      its value. Every other string is `None`: `NaN`, or a numeric form
      (sign, fraction, exponent, hexadecimal) the model leaves out. */
  function NumberOf(s: string): (r: Option<nat>)
    ensures Trim(s) == "" ==> r == Some(0)
    ensures Trim(s) != "" && !IsDigit(Trim(s)[0]) ==> r.None?
    ensures Trim(s) != "" && !IsDigit(Trim(s)[|Trim(s)| - 1]) ==> r.None?
  {
    var t := Trim(s);
    if t == "" then Some(0) else ParseNat(t)
  }

  /** A rendered whole number reads back as itself. */
  lemma NumberOfNatToString(n: nat)
    ensures NumberOf(NatToString(n)) == Some(n)
  {
    var s := NatToString(n);
    assert !IsSpace(s[0]) && !IsSpace(s[|s| - 1]);
    TrimStartOfTrimmed(s);
    TrimEndOfTrimmed(s);
    ParseNatToString(n);
  }

  /** White space around the text does not change the number. */
  lemma NumberOfTrim(s: string)
    ensures NumberOf(Trim(s)) == NumberOf(s)
  {
    TrimIdempotent(s);
  }

  /** A leading zero does not change the value of a run of digits. */
  lemma {:induction false} DigitsLeadingZero(t: string)
    requires forall i :: 0 <= i < |t| ==> IsDigit(t[i])
    ensures forall i :: 0 <= i < |"0" + t| ==> IsDigit(("0" + t)[i])
    ensures DigitsValue("0" + t) == DigitsValue(t)
    decreases |t|
  {
    var z := "0" + t;
    assert forall i :: 0 <= i < |z| ==> IsDigit(z[i]);
    if t == [] {
      assert z[..0] == [];
    } else {
      DigitsLeadingZero(t[..|t| - 1]);
      assert z[..|z| - 1] == "0" + t[..|t| - 1];
    }
  }

  /** `Number("007")` is 7: leading zeros are ignored. */
  lemma NumberOfLeadingZero(t: string)
    requires t != [] && forall i :: 0 <= i < |t| ==> IsDigit(t[i])
    ensures NumberOf("0" + t) == NumberOf(t)
  {
    var z := "0" + t;
    DigitsLeadingZero(t);
    assert !IsSpace(z[0]) && !IsSpace(z[|z| - 1]) && !IsSpace(t[0]) && !IsSpace(t[|t| - 1]);
    TrimStartOfTrimmed(z);
    TrimEndOfTrimmed(z);
    TrimStartOfTrimmed(t);
    TrimEndOfTrimmed(t);
  }
}
