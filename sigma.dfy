/** Read-only views of the Sigma roster from `backend/sigma.js`: the list of
    brother names, the full roster, the document links and the welcome
    line. Column 4 holds the email, 5 the name and 6 the position. */
module Sigma {
  import opened Wrappers
  import opened Text
  import opened Sheets
  import Auth

  // ---------------------------------------------------------------------------
  // Names
  // ---------------------------------------------------------------------------

  /** The trimmed name of a row longer than five cells whose name cell is
      set; "" for any other row. */
  function NameIn(row: Row): (n: string)
    ensures |row| <= 5 ==> n == ""
    ensures |row| > 5 ==> n == Trim(row[5])
    ensures Trim(n) == n
  {
    if |row| > 5 && row[5] != "" then TrimIdempotent(row[5]); Trim(row[5]) else ""
  }

  /** The non-empty names of the rows from `from` on (the
      `map` then `filter(Boolean)`). */
  function Names(data: Table, from: nat): (r: seq<string>)
    ensures forall x :: x in r <==> x != "" && exists i :: from <= i < |data| && NameIn(data[i]) == x
    decreases |data| - from
  {
    if from >= |data| then []
    else
      var rest := Names(data, from + 1);
      var n := NameIn(data[from]);
      if n != "" then [n] + rest else rest
  }

  predicate Distinct(s: seq<string>) {
    forall i, j :: 0 <= i < j < |s| ==> s[i] != s[j]
  }

  /** `[...new Set(xs)]`: each value once, at the place it first occurs. */
  function Dedupe(xs: seq<string>): (r: seq<string>)
    ensures forall x :: x in r <==> x in xs
    ensures Distinct(r)
    decreases |xs|
  {
    if xs == [] then []
    else
      var init := xs[..|xs| - 1];
      var r := Dedupe(init);
      assert xs == init + [xs[|xs| - 1]];
      if xs[|xs| - 1] in r then r else r + [xs[|xs| - 1]]
  }

  /** Where a value first occurs. */
  function First(xs: seq<string>, x: string): (k: nat)
    requires x in xs
    ensures k < |xs| && xs[k] == x && forall j :: 0 <= j < k ==> xs[j] != x
    decreases |xs|
  {
    if xs[0] == x then 0 else 1 + First(xs[1..], x)
  }

  /** First occurrences in a prefix are first occurrences in the whole. */
  lemma FirstPrefix(xs: seq<string>, n: nat, x: string)
    requires n <= |xs| && x in xs[..n]
    ensures First(xs, x) == First(xs[..n], x)
  {
    var k := First(xs[..n], x);
    assert xs[k] == x;
  }

  /** The values come out in the order of their first occurrences. */
  lemma {:induction false} DedupeOrder(xs: seq<string>)
    ensures forall i, j :: 0 <= i < j < |Dedupe(xs)| ==> First(xs, Dedupe(xs)[i]) < First(xs, Dedupe(xs)[j])
    decreases |xs|
  {
    if xs != [] {
      var n := |xs| - 1;
      DedupeOrder(xs[..n]);
      FirstsInPrefix(xs, n, Dedupe(xs[..n]));
      if xs[n] !in Dedupe(xs[..n]) {
        DedupeOrderNew(xs, n, Dedupe(xs[..n]));
      } else {
        DedupeOrderOld(xs, n, Dedupe(xs[..n]));
      }
    }
  }

  /** The values kept from a prefix occur first inside it. */
  lemma FirstsInPrefix(xs: seq<string>, n: nat, r: seq<string>)
    requires n <= |xs| && forall y :: y in r ==> y in xs[..n]
    ensures forall y :: y in r ==> y in xs && First(xs, y) == First(xs[..n], y) < n
  {
    forall y | y in r
      ensures y in xs && First(xs, y) == First(xs[..n], y) < n
    {
      FirstPrefix(xs, n, y);
    }
  }

  /** A last value not seen before goes last, after every earlier one. */
  lemma DedupeOrderNew(xs: seq<string>, n: nat, r: seq<string>)
    requires n == |xs| - 1 && r == Dedupe(xs[..n]) && xs[n] !in r
    requires forall y :: y in r ==> y in xs && First(xs, y) == First(xs[..n], y) < n
    requires forall i, j :: 0 <= i < j < |r| ==> First(xs[..n], r[i]) < First(xs[..n], r[j])
    ensures forall i, j :: 0 <= i < j < |Dedupe(xs)| ==> First(xs, Dedupe(xs)[i]) < First(xs, Dedupe(xs)[j])
  {
    var init := xs[..n];
    assert xs == init + [xs[n]];
    assert xs[n] !in init;
    assert First(xs, xs[n]) == n by {
      forall j | 0 <= j < n
        ensures xs[j] != xs[n]
      {
        assert xs[j] == init[j];
      }
    }
    var d := r + [xs[n]];
    assert Dedupe(xs) == d;
    forall i, j | 0 <= i < j < |d|
      ensures First(xs, d[i]) < First(xs, d[j])
    {
      assert d[i] == r[i] && d[i] in r;
      if j < |r| {
        assert d[j] == r[j] && d[j] in r;
      }
    }
  }

  /** A last value seen before changes nothing. */
  lemma DedupeOrderOld(xs: seq<string>, n: nat, r: seq<string>)
    requires n == |xs| - 1 && r == Dedupe(xs[..n]) && xs[n] in r
    requires forall y :: y in r ==> y in xs && First(xs, y) == First(xs[..n], y) < n
    requires forall i, j :: 0 <= i < j < |r| ==> First(xs[..n], r[i]) < First(xs[..n], r[j])
    ensures forall i, j :: 0 <= i < j < |Dedupe(xs)| ==> First(xs, Dedupe(xs)[i]) < First(xs, Dedupe(xs)[j])
  {
    assert xs == xs[..n] + [xs[n]];
    assert Dedupe(xs) == r;
    forall i, j | 0 <= i < j < |r|
      ensures First(xs, r[i]) < First(xs, r[j])
    {
      assert r[i] in r && r[j] in r;
    }
  }

  /** `getListOfBrothers`: the distinct trimmed names of the data rows, in
      the order they first appear; nothing without a data row. */
  function ListOfBrothers(data: Table): (r: seq<string>)
    ensures |data| < 2 ==> r == []
    ensures forall x :: x in r <==> x != "" && exists i :: 1 <= i < |data| && NameIn(data[i]) == x
    ensures Distinct(r)
    ensures forall x :: x in r ==> Trim(x) == x
  {
    if |data| < 2 then []
    else
      var r := Dedupe(Names(data, 1));
      assert forall x :: x in r ==> Trim(x) == x by {
        forall x | x in r
          ensures Trim(x) == x
        {
          var i :| 1 <= i < |data| && NameIn(data[i]) == x;
          TrimIdempotent(data[i][5]);
        }
      }
      r
  }

  /** The brothers' order is that of their first rows. */
  lemma ListOfBrothersOrder(data: Table)
    requires |data| >= 2
    ensures var r := ListOfBrothers(data);
      forall i, j :: 0 <= i < j < |r| ==> First(Names(data, 1), r[i]) < First(Names(data, 1), r[j])
  {
    DedupeOrder(Names(data, 1));
  }

  // ---------------------------------------------------------------------------
  // The full roster
  // ---------------------------------------------------------------------------

  datatype Member = Member(email: string, name: string, position: string)

  /** The roster entry of a row longer than five cells whose trimmed email
      is not empty. */
  function RosterRow(row: Row): (m: Option<Member>)
    ensures m.Some? ==> m.value.email != "" && m.value.name != "" && m.value.position != ""
    ensures m.Some? ==> Trim(m.value.email) == m.value.email
    ensures m.Some? <==> |row| > 5 && Trim(row[4]) != ""
    ensures m.Some? ==> m.value.email == Trim(row[4])
    ensures m.Some? && Trim(row[5]) != "" ==> m.value.name == Trim(row[5])
    ensures m.Some? && Trim(row[5]) == "" ==> m.value.name == "Unknown"
    ensures m.Some? && Trim(CellOr(row, 6, "")) != "" ==> m.value.position == Trim(CellOr(row, 6, ""))
    ensures m.Some? && Trim(CellOr(row, 6, "")) == "" ==> m.value.position == "None"
  {
    if |row| > 5 && row[4] != "" && Trim(row[4]) != "" then
      TrimIdempotent(row[4]);
      Some(Member(Trim(row[4]), Or(Trim(row[5]), "Unknown"), Or(Trim(CellOr(row, 6, "")), "None")))
    else None
  }

  /** The entries of the rows from `from` on. */
  function Entries(data: Table, from: nat): (r: seq<Member>)
    ensures |r| <= |data| - from || from > |data|
    ensures forall m :: m in r <==> exists i :: from <= i < |data| && RosterRow(data[i]) == Some(m)
    decreases |data| - from
  {
    if from >= |data| then []
    else
      var rest := Entries(data, from + 1);
      match RosterRow(data[from])
      case Some(m) => [m] + rest
      case None => rest
  }

  /** `getFullRoster`: the entries of the data rows with an email, never
      an empty email, name or position. */
  function FullRoster(data: Table): (r: seq<Member>)
    ensures |data| < 2 ==> r == []
    ensures forall m :: m in r <==> exists i :: 1 <= i < |data| && RosterRow(data[i]) == Some(m)
    ensures forall m :: m in r ==> m.email != "" && m.name != "" && m.position != ""
  {
    if |data| < 2 then [] else Entries(data, 1)
  }

  // ---------------------------------------------------------------------------
  // Document links
  // ---------------------------------------------------------------------------

  /** `getBylaws`: column 1 of the first row named "Bylaws". */
  method GetBylaws(sigma: Table) returns (r: Option<string>)
    ensures FirstMatch(sigma, NonEmpty, 0, "Bylaws", 1).None? ==> r == Some("")
    ensures FirstMatch(sigma, NonEmpty, 0, "Bylaws", 1).Some? ==>
      r == Cell(sigma[FirstMatch(sigma, NonEmpty, 0, "Bylaws", 1).value], 1)
  {
    r := SearchByDoc(sigma, "Bylaws", 1);
  }

  /** `getMeetingMinutes`: column 1 of the first row named "Meeting Minutes". */
  method GetMeetingMinutes(sigma: Table) returns (r: Option<string>)
    ensures FirstMatch(sigma, NonEmpty, 0, "Meeting Minutes", 1).None? ==> r == Some("")
    ensures FirstMatch(sigma, NonEmpty, 0, "Meeting Minutes", 1).Some? ==>
      r == Cell(sigma[FirstMatch(sigma, NonEmpty, 0, "Meeting Minutes", 1).value], 1)
  {
    r := SearchByDoc(sigma, "Meeting Minutes", 1);
  }

  /** `getRMP`: column 1 of the first row of the Theta sheet named "Risk Policy". */
  method GetRiskPolicy(theta: Table) returns (r: Option<string>)
    ensures FirstMatch(theta, NonEmpty, 0, "Risk Policy", 1).None? ==> r == Some("")
    ensures FirstMatch(theta, NonEmpty, 0, "Risk Policy", 1).Some? ==>
      r == Cell(theta[FirstMatch(theta, NonEmpty, 0, "Risk Policy", 1).value], 1)
  {
    r := SearchByDoc(theta, "Risk Policy", 1);
  }

  /** `getPKSFolder`: column 1 of the first row named "PKS". */
  method GetPksFolder(sigma: Table) returns (r: Option<string>)
    ensures FirstMatch(sigma, NonEmpty, 0, "PKS", 1).None? ==> r == Some("")
    ensures FirstMatch(sigma, NonEmpty, 0, "PKS", 1).Some? ==>
      r == Cell(sigma[FirstMatch(sigma, NonEmpty, 0, "PKS", 1).value], 1)
  {
    r := SearchByDoc(sigma, "PKS", 1);
  }

  // ---------------------------------------------------------------------------
  // The welcome line
  // ---------------------------------------------------------------------------

  /** The greeting's first words: pledges are greeted as such when the
      position mentions "Pledge" (case matters). */
  function Salutation(position: string): (r: string)
    ensures StartsWith(r, "Welcome ")
    ensures r == "Welcome Pledge " <==> Contains(position, "Pledge")
  {
    if Contains(position, "Pledge") then "Welcome Pledge " else "Welcome brother "
  }

  /** `fullName.split(' ')[1]` as written: a name of one word has no second
      piece, and the template prints it as "undefined". */
  function SecondWordAsWritten(name: Option<string>): (w: string)
    ensures name.Some? && |Split(name.value, ' ')| <= 1 ==> w == "undefined"
    ensures w != "undefined" ==> w == SecondWord(name)
  {
    match name
    case None => ""
    case Some(n) => var ps := Split(n, ' '); if |ps| > 1 then ps[1] else "undefined"
  }

  /** The second word of the name, or nothing. */
  function SecondWord(name: Option<string>): (w: string)
    ensures ' ' !in w
    ensures name.Some? && |Split(name.value, ' ')| > 1 ==> w == Split(name.value, ' ')[1]
    ensures name.None? || |Split(name.value, ' ')| <= 1 ==> w == ""
  {
    match name
    case None => ""
    case Some(n) => var ps := Split(n, ' '); if |ps| > 1 then ps[1] else ""
  }

  /** `getWelcomeMessage` as written. */
  function WelcomeMessageAsWritten(isDev: bool, sigma: Table, email: string, position: string): (r: string)
    ensures isDev ==> r == "Welcome Admin"
    ensures !isDev ==> StartsWith(r, Salutation(position)) && r[|r| - 1] == '!'
    ensures r != WelcomeMessage(isDev, sigma, email, position) ==>
      !isDev && SecondWordAsWritten(Auth.NameOf(sigma, email)) == "undefined"
  {
    if isDev then "Welcome Admin"
    else Salutation(position) + SecondWordAsWritten(Auth.NameOf(sigma, email)) + "!"
  }

  /** `getWelcomeMessage`: the second word of the roster name, or nothing
      when the name has one word or there is none. */
  function WelcomeMessage(isDev: bool, sigma: Table, email: string, position: string): (r: string)
    ensures isDev ==> r == "Welcome Admin"
  {
    if isDev then "Welcome Admin"
    else Salutation(position) + SecondWord(Auth.NameOf(sigma, email)) + "!"
  }

  /** A brother listed under a one-word name, "Alex", is greeted as
      "undefined". */
  lemma OneWordNameGreetsUndefined(sigma: Table, email: string, position: string)
    requires Auth.NameOf(sigma, email) == Some("Alex") && !Contains(position, "Pledge")
    ensures WelcomeMessageAsWritten(false, sigma, email, position) == "Welcome brother " + "undefined" + "!"
    ensures WelcomeMessage(false, sigma, email, position) == "Welcome brother " + "!"
  {
    OneWordHasNoSecond("Alex");
    assert Salutation(position) == "Welcome brother ";
  }

  /** A name without a space splits into itself alone. */
  lemma OneWordHasNoSecond(n: string)
    requires ' ' !in n
    ensures SecondWordAsWritten(Some(n)) == "undefined" && SecondWord(Some(n)) == ""
  {
    SplitNone(n, ' ');
  }

  /** The greeting ends with a word of the roster name and never with text
      the name does not hold: a one-word name is greeted with nothing after
      the salutation. */
  lemma WelcomeNamesSecondWord(sigma: Table, email: string, position: string)
    ensures var n := Auth.NameOf(sigma, email);
      var w := SecondWord(n);
      WelcomeMessage(false, sigma, email, position) == Salutation(position) + w + "!"
      && (w != "" ==> n.Some? && w in Split(n.value, ' '))
      && (n.Some? && ' ' !in n.value ==> w == "")
  {
    var n := Auth.NameOf(sigma, email);
    if n.Some? && ' ' !in n.value {
      SplitNone(n.value, ' ');
    }
  }
}
