/** The two JSON shapes the backend keeps inside single sheet cells: an array of
    strings (a recruit's Likes, Dislikes and Met lists, poll options, a button's
    access list) and an object from voter name to ranking (poll votes).
    `EncodeNames`/`EncodeVotes` write what `JSON.stringify` writes for those
    values; `DecodeNames`/`DecodeVotes` are `JSON.parse` on exactly that
    output, with `None` standing for a parse failure. */
module Json {
  import opened Wrappers
  import opened Dicts

  /** The second character of the two-character escape `JSON.stringify` uses
      for `c`, if it uses one. */
  function ShortEscape(c: char): Option<char> {
    if c == '"' then Some('"')
    else if c == '\\' then Some('\\')
    else if c == '\n' then Some('n')
    else if c == '\r' then Some('r')
    else if c == '\t' then Some('t')
    else if c == '\U{0008}' then Some('b')
    else if c == '\U{000C}' then Some('f')
    else None
  }

  /** The character a two-character escape stands for, as `JSON.parse` reads it. */
  function Unescape(e: char): Option<char> {
    if e == '"' then Some('"')
    else if e == '\\' then Some('\\')
    else if e == '/' then Some('/')
    else if e == 'n' then Some('\n')
    else if e == 'r' then Some('\r')
    else if e == 't' then Some('\t')
    else if e == 'b' then Some('\U{0008}')
    else if e == 'f' then Some('\U{000C}')
    else None
  }

  function HexDigit(d: nat): char
    requires d < 16
  {
    if d < 10 then ('0' as int + d) as char else ('a' as int + d - 10) as char
  }

  function HexValue(c: char): Option<nat> {
    if '0' <= c <= '9' then Some(c as int - '0' as int)
    else if 'a' <= c <= 'f' then Some(c as int - 'a' as int + 10)
    else if 'A' <= c <= 'F' then Some(c as int - 'A' as int + 10)
    else None
  }

  /** The code unit of a `\uXXXX` escape. */
  function Hex4(s: string): Option<nat>
    requires |s| == 4
  {
    match (HexValue(s[0]), HexValue(s[1]), HexValue(s[2]), HexValue(s[3]))
    case (Some(a), Some(b), Some(c), Some(d)) => Some(((a * 16 + b) * 16 + c) * 16 + d)
    case _ => None
  }

  /** How `JSON.stringify` writes one character inside a string literal:
      the short escapes, `\u00XX` for the remaining control characters, and
      the character itself otherwise. */
  function EscapeChar(c: char): string {
    match ShortEscape(c)
    case Some(e) => ['\\', e]
    case None =>
      if c < ' ' then ['\\', 'u', '0', '0', HexDigit(c as int / 16), HexDigit(c as int % 16)]
      else [c]
  }

  function Escape(s: string): string
    decreases |s|
  {
    if s == [] then [] else EscapeChar(s[0]) + Escape(s[1..])
  }

  /** `JSON.stringify(s)` for a string `s`. */
  function Quote(s: string): string {
    ['"'] + Escape(s) + ['"']
  }

  /** Reads the inside of a string literal, up to and including its closing
      quote; gives the decoded text and what follows the quote. */
  function ParseBody(s: string): (r: Option<(string, string)>)
    ensures r.Some? ==> |r.value.1| < |s|
    decreases |s|
  {
    if s == [] then None
    else if s[0] == '"' then Some(([], s[1..]))
    else if s[0] == '\\' then
      if |s| < 2 then None
      else if s[1] == 'u' then
        if |s| < 6 then None
        else match Hex4(s[2..6])
          case None => None
          case Some(code) =>
            if code < 0xD800 || 0xE000 <= code then
              match ParseBody(s[6..])
              case None => None
              case Some((t, rest)) => Some(([code as char] + t, rest))
            else None
      else match Unescape(s[1])
        case None => None
        case Some(c) =>
          match ParseBody(s[2..])
          case None => None
          case Some((t, rest)) => Some(([c] + t, rest))
    else if s[0] < ' ' then None
    else match ParseBody(s[1..])
      case None => None
      case Some((t, rest)) => Some(([s[0]] + t, rest))
  }

  lemma {:induction false} ParseEscapedChar(c: char, tail: string)
    requires ParseBody(tail).Some?
    ensures ParseBody(EscapeChar(c) + tail)
         == Some(([c] + ParseBody(tail).value.0, ParseBody(tail).value.1))
  {
    var s := EscapeChar(c) + tail;
    match ShortEscape(c)
    case Some(e) =>
      assert s[2..] == tail;
    case None =>
      if c < ' ' {
        var h := s[2..6];
        assert h == ['0', '0', HexDigit(c as int / 16), HexDigit(c as int % 16)];
        assert Hex4(h) == Some(c as int);
        assert s[6..] == tail;
      } else {
        assert s[1..] == tail;
      }
  }

  /** A quoted string reads back as itself, whatever follows it. */
  lemma {:induction false} ParseBodyEscape(x: string, rest: string)
    ensures ParseBody(Escape(x) + ['"'] + rest) == Some((x, rest))
    decreases |x|
  {
    if x == [] {
      assert Escape(x) + ['"'] + rest == ['"'] + rest;
      assert (['"'] + rest)[1..] == rest;
    } else {
      var tail := Escape(x[1..]) + ['"'] + rest;
      ParseBodyEscape(x[1..], rest);
      ParseEscapedChar(x[0], tail);
      assert Escape(x) + ['"'] + rest == EscapeChar(x[0]) + tail;
      assert [x[0]] + x[1..] == x;
    }
  }

  // ---------------------------------------------------------------------------
  // Arrays of strings
  // ---------------------------------------------------------------------------

  /** The elements of a non-empty array, comma separated. */
  function Elems(xs: seq<string>): string
    requires xs != []
    decreases |xs|
  {
    if |xs| == 1 then Quote(xs[0]) else Quote(xs[0]) + [','] + Elems(xs[1..])
  }

  /** `JSON.stringify(xs)` for an array of strings. */
  function EncodeNames(xs: seq<string>): (r: string)
    ensures |r| >= 2 && r[0] == '[' && r[|r| - 1] == ']'
  {
    if xs == [] then "[]" else ['['] + Elems(xs) + [']']
  }

  /** Reads string elements up to the closing bracket of their array. */
  function ParseElems(s: string): (r: Option<(seq<string>, string)>)
    ensures r.Some? ==> |r.value.1| < |s|
    decreases |s|
  {
    if s == [] || s[0] != '"' then None
    else match ParseBody(s[1..])
      case None => None
      case Some((x, r1)) =>
        if r1 == [] then None
        else if r1[0] == ']' then Some(([x], r1[1..]))
        else if r1[0] == ',' then
          match ParseElems(r1[1..])
          case None => None
          case Some((xs, r2)) => Some(([x] + xs, r2))
        else None
  }

  /** Reads an array of strings at the front of `s`. */
  function ParseArray(s: string): (r: Option<(seq<string>, string)>)
    ensures r.Some? ==> |r.value.1| < |s|
  {
    if s == [] || s[0] != '[' then None
    else if |s| >= 2 && s[1] == ']' then Some(([], s[2..]))
    else ParseElems(s[1..])
  }

  /** `JSON.parse(s)` when `s` holds an array of strings; `None` otherwise. */
  function DecodeNames(s: string): (r: Option<seq<string>>)
    ensures r.Some? ==> |s| >= 2 && s[0] == '['
    ensures s == "[]" ==> r == Some([])
  {
    match ParseArray(s)
    case Some((xs, rest)) => if rest == [] then Some(xs) else None
    case None => None
  }

  /** A quoted string at the front of the input: its opening quote, then its text. */
  lemma ParseQuoted(x: string, r1: string)
    ensures |Quote(x) + r1| > 0 && (Quote(x) + r1)[0] == '"'
    ensures ParseBody((Quote(x) + r1)[1..]) == Some((x, r1))
  {
    assert (Quote(x) + r1)[1..] == Escape(x) + ['"'] + r1;
    ParseBodyEscape(x, r1);
  }

  /** One element of an array, then either its end or a comma. */
  lemma ParseElemsStep(s: string, x: string, r1: string)
    requires s != [] && s[0] == '"' && ParseBody(s[1..]) == Some((x, r1))
    ensures r1 != [] && r1[0] == ']' ==> ParseElems(s) == Some(([x], r1[1..]))
    ensures r1 != [] && r1[0] == ',' && ParseElems(r1[1..]).Some? ==>
      ParseElems(s) == Some(([x] + ParseElems(r1[1..]).value.0, ParseElems(r1[1..]).value.1))
  {
  }

  lemma {:induction false} ParseElemsRoundTrip(xs: seq<string>, rest: string)
    requires xs != []
    ensures ParseElems(Elems(xs) + [']'] + rest) == Some((xs, rest))
    decreases |xs|
  {
    if |xs| == 1 {
      ParseLastElem(xs, rest);
    } else {
      ParseElemsRoundTrip(xs[1..], rest);
      ParseElemsCons(xs, rest);
    }
  }

  /** A one-element array's element, then its closing bracket. */
  lemma ParseLastElem(xs: seq<string>, rest: string)
    requires |xs| == 1
    ensures ParseElems(Elems(xs) + [']'] + rest) == Some((xs, rest))
  {
    var x := xs[0];
    var r1 := [']'] + rest;
    assert Elems(xs) + [']'] + rest == Quote(x) + r1;
    ParseQuoted(x, r1);
    ParseElemsStep(Quote(x) + r1, x, r1);
    assert r1[1..] == rest;
    assert [x] == xs;
  }

  /** One more element in front of elements that read back. */
  lemma ParseElemsCons(xs: seq<string>, rest: string)
    requires |xs| > 1
    requires ParseElems(Elems(xs[1..]) + [']'] + rest) == Some((xs[1..], rest))
    ensures ParseElems(Elems(xs) + [']'] + rest) == Some((xs, rest))
  {
    ElemsSplit(xs, rest);
    ParseElemAfter(xs, Elems(xs[1..]) + [']'] + rest, rest, Elems(xs) + [']'] + rest);
  }

  lemma ElemsSplit(xs: seq<string>, rest: string)
    requires |xs| > 1
    ensures Elems(xs) + [']'] + rest == Quote(xs[0]) + ([','] + (Elems(xs[1..]) + [']'] + rest))
  {
    assert Elems(xs) == Quote(xs[0]) + [','] + Elems(xs[1..]);
    Regroup(Quote(xs[0]), [','], Elems(xs[1..]), [']'], rest);
  }

  /** An element and a comma in front of elements that read back. */
  lemma ParseElemAfter(xs: seq<string>, more: string, rest: string, whole: string)
    requires |xs| > 1 && ParseElems(more) == Some((xs[1..], rest))
    requires whole == Quote(xs[0]) + ([','] + more)
    ensures ParseElems(whole) == Some((xs, rest))
  {
    var r1 := [','] + more;
    ParseQuoted(xs[0], r1);
    assert r1[1..] == more;
    ParseElemsStep(whole, xs[0], r1);
    assert [xs[0]] + xs[1..] == xs;
  }

  /** An encoded array reads back as itself, whatever follows it. */
  lemma ParseArrayRoundTrip(xs: seq<string>, rest: string)
    ensures ParseArray(EncodeNames(xs) + rest) == Some((xs, rest))
  {
    if xs == [] {
      ParseEmptyArray(rest);
    } else {
      ParseFullArray(xs, rest);
    }
  }

  lemma ParseEmptyArray(rest: string)
    ensures ParseArray(EncodeNames([]) + rest) == Some(([], rest))
  {
    var s := EncodeNames([]) + rest;
    assert s == ['[', ']'] + rest;
    assert s[2..] == rest;
  }

  lemma ParseFullArray(xs: seq<string>, rest: string)
    requires xs != []
    ensures ParseArray(EncodeNames(xs) + rest) == Some((xs, rest))
  {
    var body := Elems(xs) + [']'] + rest;
    ArrayFront(xs, rest);
    ParseArrayOpen(EncodeNames(xs) + rest, body);
    ParseElemsRoundTrip(xs, rest);
  }

  /** An encoded non-empty array: its bracket, then its elements. */
  lemma ArrayFront(xs: seq<string>, rest: string)
    requires xs != []
    ensures EncodeNames(xs) + rest == ['['] + (Elems(xs) + [']'] + rest)
    ensures (Elems(xs) + [']'] + rest)[0] == '"'
  {
    ElemsStart(xs);
  }

  /** An opening bracket followed by a string element. */
  lemma ParseArrayOpen(s: string, body: string)
    requires s == ['['] + body && body != [] && body[0] == '"'
    ensures ParseArray(s) == ParseElems(body)
  {
    assert s[1..] == body;
  }

  /** Every element list opens with a quote. */
  lemma ElemsStart(xs: seq<string>)
    requires xs != []
    ensures |Elems(xs)| > 1 && Elems(xs)[0] == '"'
  {
    assert Elems(xs) == Quote(xs[0]) || Elems(xs) == Quote(xs[0]) + [','] + Elems(xs[1..]);
  }

  /** `JSON.parse(JSON.stringify(xs))` gives `xs` back. */
  lemma DecodeEncodeNames(xs: seq<string>)
    ensures DecodeNames(EncodeNames(xs)) == Some(xs)
  {
    ParseArrayRoundTrip(xs, []);
    assert EncodeNames(xs) + [] == EncodeNames(xs);
  }

  // ---------------------------------------------------------------------------
  // Objects from names to rankings
  // ---------------------------------------------------------------------------

  /** A JavaScript object from names to string arrays, in key insertion order. */
  type Votes = Dict<seq<string>>

  function Member(p: (string, seq<string>)): string {
    Quote(p.0) + [':'] + EncodeNames(p.1)
  }

  function Members(v: Votes): string
    requires v != []
    decreases |v|
  {
    if |v| == 1 then Member(v[0]) else Member(v[0]) + [','] + Members(v[1..])
  }

  /** `JSON.stringify(v)` for an object from names to string arrays. */
  function EncodeVotes(v: Votes): string {
    if v == [] then "{}" else ['{'] + Members(v) + ['}']
  }

  /** Reads `"key":[...]` members up to the closing brace of their object. */
  function ParseMembers(s: string): (r: Option<(Votes, string)>)
    ensures r.Some? ==> |r.value.1| < |s|
    decreases |s|
  {
    if s == [] || s[0] != '"' then None
    else match ParseBody(s[1..])
      case None => None
      case Some((k, r1)) =>
        if r1 == [] || r1[0] != ':' then None
        else match ParseArray(r1[1..])
          case None => None
          case Some((xs, r2)) =>
            if r2 == [] then None
            else if r2[0] == '}' then Some(([(k, xs)], r2[1..]))
            else if r2[0] == ',' then
              match ParseMembers(r2[1..])
              case None => None
              case Some((ps, r3)) => Some(([(k, xs)] + ps, r3))
            else None
  }

  /** `JSON.parse(s)` when `s` holds an object from names to string arrays. */
  function DecodeVotes(s: string): Option<Votes> {
    if s == "{}" then Some([])
    else if s == [] || s[0] != '{' then None
    else match ParseMembers(s[1..])
      case Some((ps, rest)) => if rest == [] then Some(FromPairs(ps)) else None
      case None => None
  }

  /** One `"key":[...]` member of an object, then either its end or a comma. */
  lemma ParseMembersStep(s: string, k: string, r1: string, xs: seq<string>, r2: string)
    requires s != [] && s[0] == '"' && ParseBody(s[1..]) == Some((k, r1))
    requires r1 != [] && r1[0] == ':' && ParseArray(r1[1..]) == Some((xs, r2))
    ensures r2 != [] && r2[0] == '}' ==> ParseMembers(s) == Some(([(k, xs)], r2[1..]))
    ensures r2 != [] && r2[0] == ',' && ParseMembers(r2[1..]).Some? ==>
      ParseMembers(s) == Some(([(k, xs)] + ParseMembers(r2[1..]).value.0, ParseMembers(r2[1..]).value.1))
  {
  }

  /** A member followed by `tail`: its key, its colon, then its array and `tail`. */
  lemma ParseMember(p: (string, seq<string>), tail: string)
    ensures var s := Member(p) + tail;
      var r1 := [':'] + (EncodeNames(p.1) + tail);
      s != [] && s[0] == '"' && ParseBody(s[1..]) == Some((p.0, r1))
      && ParseArray(r1[1..]) == Some((p.1, tail))
  {
    var r1 := [':'] + (EncodeNames(p.1) + tail);
    assert Member(p) + tail == Quote(p.0) + r1;
    ParseQuoted(p.0, r1);
    assert r1[1..] == EncodeNames(p.1) + tail;
    ParseArrayRoundTrip(p.1, tail);
  }

  lemma ParseLastMember(p: (string, seq<string>), rest: string)
    ensures ParseMembers(Member(p) + ['}'] + rest) == Some(([p], rest))
  {
    var s := Member(p) + ['}'] + rest;
    var tail := ['}'] + rest;
    assert s == Member(p) + tail;
    ParseMember(p, tail);
    ParseMembersStep(s, p.0, [':'] + (EncodeNames(p.1) + tail), p.1, tail);
    assert tail[1..] == rest;
  }

  lemma {:induction false} ParseMembersRoundTrip(v: Votes, rest: string)
    requires v != []
    ensures ParseMembers(Members(v) + ['}'] + rest) == Some((v, rest))
    decreases |v|
  {
    if |v| == 1 {
      ParseLastMember(v[0], rest);
      assert [v[0]] == v;
    } else {
      ParseMembersRoundTrip(v[1..], rest);
      ParseMembersCons(v, rest);
    }
  }

  /** One more member in front of members that read back. */
  lemma ParseMembersCons(v: Votes, rest: string)
    requires |v| > 1
    requires ParseMembers(Members(v[1..]) + ['}'] + rest) == Some((v[1..], rest))
    ensures ParseMembers(Members(v) + ['}'] + rest) == Some((v, rest))
  {
    MembersSplit(v, rest);
    ParseAfter(v, Members(v[1..]) + ['}'] + rest, rest, Members(v) + ['}'] + rest);
  }

  /** A member and a comma in front of members that read back. */
  lemma ParseAfter(v: Votes, more: string, rest: string, whole: string)
    requires |v| > 1 && ParseMembers(more) == Some((v[1..], rest))
    requires whole == Member(v[0]) + ([','] + more)
    ensures ParseMembers(whole) == Some((v, rest))
  {
    ParseMemberThen(v[0], more);
    assert [v[0]] + v[1..] == v;
  }

  lemma MembersSplit(v: Votes, rest: string)
    requires |v| > 1
    ensures Members(v) + ['}'] + rest == Member(v[0]) + ([','] + (Members(v[1..]) + ['}'] + rest))
  {
    assert Members(v) == Member(v[0]) + [','] + Members(v[1..]);
    Regroup(Member(v[0]), [','], Members(v[1..]), ['}'], rest);
  }

  lemma Regroup(a: string, b: string, c: string, d: string, e: string)
    ensures a + b + c + d + e == a + (b + (c + d + e))
  {
  }

  /** A member, a comma, then members that read back. */
  lemma ParseMemberThen(p: (string, seq<string>), more: string)
    requires ParseMembers(more).Some?
    ensures ParseMembers(Member(p) + ([','] + more))
         == Some(([p] + ParseMembers(more).value.0, ParseMembers(more).value.1))
  {
    var tail := [','] + more;
    ParseMember(p, tail);
    assert tail[1..] == more;
    ParseMembersStep(Member(p) + tail, p.0, [':'] + (EncodeNames(p.1) + tail), p.1, tail);
  }

  /** The text of a non-empty object starts with a quote after its brace. */
  lemma MembersStart(v: Votes)
    requires v != []
    ensures |Members(v)| > 0 && Members(v)[0] == '"'
  {
    var q := Quote(v[0].0);
    assert q == ['"'] + (Escape(v[0].0) + ['"']);
    var m := Member(v[0]);
    assert m == q + ([':'] + EncodeNames(v[0].1));
    assert m[0] == '"';
    if |v| > 1 {
      assert Members(v) == m + ([','] + Members(v[1..]));
    }
  }

  /** The members of an encoded object read back in order. */
  lemma EncodeVotesParses(v: Votes)
    requires v != []
    ensures var s := EncodeVotes(v);
      |s| > 1 && s[0] == '{' && s[1] == '"' && ParseMembers(s[1..]) == Some((v, []))
  {
    var s := EncodeVotes(v);
    var body := Members(v) + ['}'] + [];
    MembersStart(v);
    assert s == ['{'] + body;
    assert s[1..] == body;
    assert body[0] == '"';
    ParseMembersRoundTrip(v, []);
  }

  lemma DecodeMembers(s: string, v: Votes)
    requires |s| > 1 && s[0] == '{' && s[1] == '"' && ParseMembers(s[1..]) == Some((v, []))
    ensures DecodeVotes(s) == Some(FromPairs(v))
  {
    assert s != "{}";
  }

  /** `JSON.parse(JSON.stringify(v))` gives `v` back when its keys are distinct,
      as the keys of an object always are. */
  lemma DecodeEncodeVotes(v: Votes)
    requires UniqueKeys(v)
    ensures DecodeVotes(EncodeVotes(v)) == Some(v)
  {
    if v != [] {
      EncodeVotesParses(v);
      DecodeMembers(EncodeVotes(v), v);
      FromPairsUnique(v);
    }
  }
}
