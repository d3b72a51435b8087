/** Roster administration of `backend/admin.js`: the brother list and its CSV
    export, adding and deleting one brother, removing every alumnus, and the
    in-memory audit log with its CSV export. Column 4 of the Sigma sheet
    holds the email, 5 the name and 6 the position. */
module Admin {
  import opened Wrappers
  import opened Text
  import opened Sheets
  import opened Seqs
  import Roster
  import Auth

  // ---------------------------------------------------------------------------
  // The brother list
  // ---------------------------------------------------------------------------

  datatype Brother = Brother(email: string, name: string, position: string)

  /** A data row with an email and a name cell set, as a brother with its
      cells trimmed; the position defaults to "". */
  function BrotherOf(row: Row): (b: Option<Brother>)
    ensures b.Some? <==> 5 < |row| && row[4] != "" && row[5] != ""
    ensures b.Some? ==> Trim(b.value.email) == b.value.email && Trim(b.value.name) == b.value.name
                        && Trim(b.value.position) == b.value.position
  {
    if 5 < |row| && row[4] != "" && row[5] != "" then
      TrimIdempotent(row[4]);
      TrimIdempotent(row[5]);
      TrimIdempotent(CellOr(row, 6, ""));
      Some(Brother(Trim(row[4]), Trim(row[5]), Trim(CellOr(row, 6, ""))))
    else None
  }

  /** The brothers of the rows from `from` on. */
  function Brothers(data: Table, from: nat): (r: seq<Brother>)
    ensures forall b :: b in r <==> exists i :: from <= i < |data| && BrotherOf(data[i]) == Some(b)
    decreases |data| - from
  {
    if from >= |data| then []
    else
      var rest := Brothers(data, from + 1);
      match BrotherOf(data[from])
      case Some(b) => [b] + rest
      case None => rest
  }

  /** `getAllBrothers` on the Sigma sheet's rows: every data row with both
      an email and a name, never the header. */
  function AllBrothers(data: Table): (r: seq<Brother>)
    ensures forall b :: b in r <==> exists i :: 1 <= i < |data| && BrotherOf(data[i]) == Some(b)
  {
    Brothers(data, 1)
  }

  /** `"` + s + `"`. */
  function Quoted(s: string): string {
    ['"'] + s + ['"']
  }

  const BrothersHeader := "Email,Name,Position"

  /** One line of `exportBrothers`: the three fields quoted, not escaped. */
  function BrotherLine(b: Brother): string {
    Quoted(b.email) + [','] + Quoted(b.name) + [','] + Quoted(b.position)
  }

  function BrotherLines(bs: seq<Brother>): (r: seq<string>)
    ensures |r| == |bs| && forall i :: 0 <= i < |bs| ==> r[i] == BrotherLine(bs[i])
  {
    seq(|bs|, i requires 0 <= i < |bs| => BrotherLine(bs[i]))
  }

  /** `exportBrothers`: the header, then one line per brother. */
  function ExportBrothers(bs: seq<Brother>): (r: string)
    ensures bs == [] ==> r == BrothersHeader
    ensures StartsWith(r, BrothersHeader)
    ensures bs != [] ==> |BrothersHeader| < |r| && r[|BrothersHeader|] == '\n'
  {
    Join([BrothersHeader] + BrotherLines(bs), '\n')
  }

  /** Split at line breaks, the export gives back its header and one line
      per brother, as long as no field holds a line break. */
  lemma ExportBrothersLines(bs: seq<Brother>)
    requires forall b :: b in bs ==> '\n' !in b.email && '\n' !in b.name && '\n' !in b.position
    ensures Split(ExportBrothers(bs), '\n') == [BrothersHeader] + BrotherLines(bs)
    ensures |Split(ExportBrothers(bs), '\n')| == |bs| + 1
  {
    var ps := [BrothersHeader] + BrotherLines(bs);
    forall i | 0 <= i < |ps|
      ensures '\n' !in ps[i]
    {
      if i > 0 {
        assert ps[i] == BrotherLine(bs[i - 1]);
        assert bs[i - 1] in bs;
      }
    }
    JoinSplit(ps, '\n');
  }

  // ---------------------------------------------------------------------------
  // Adding and deleting one brother
  // ---------------------------------------------------------------------------


  const Required := "Email and name are required"
  const Duplicate := "A brother with this email already exists"
  const AddedMessage := "Brother added successfully"
  const EmailRequired := "Email is required"
  const BrotherNotFound := "Brother not found"
  const SigmaMissing := "Sigma sheet not found"
  const DeletedMessage := "Brother deleted successfully"

  /** The width of a new row: the header's, but at least seven cells. */
  function NewRowWidth(data: Table): (w: nat)
    ensures w >= 7 && (|data| > 0 ==> w >= |data[0]|)
  {
    if |data| > 0 then Max(|data[0]|, 7) else 7
  }

  /** The row `addBrother` appends: empty but for the trimmed email, name
      and position. */
  function BrotherRow(data: Table, email: string, name: string, position: string): (row: Row)
    ensures |row| == NewRowWidth(data)
  {
    Roster.NewRow(NewRowWidth(data), Roster.Fields(Trim(email), Trim(name), Trim(position)))
  }

  /** The duplicate scan of `addBrother`: some data row's email, trimmed and
      lower-cased, equals the given one's. */
  method FindBrother(data: Table, email: string) returns (found: bool)
    ensures found == FirstMatch(data, NonEmpty, 4, email, 1).Some?
  {
    TrimLowerCommute(email);
    var i := 1;
    while i < |data|
      invariant 1 <= i
      invariant FirstMatch(data, NonEmpty, 4, email, i) == FirstMatch(data, NonEmpty, 4, email, 1)
      decreases |data| - i
    {
      var row := data[i];
      if 4 < |row| && row[4] != "" {
        TrimLowerCommute(row[4]);
        if Trim(ToLower(row[4])) == Trim(ToLower(email)) {
          return true;
        }
      }
      i := i + 1;
    }
    return false;
  }

  /** `addBrother`: an empty email or name is refused, as is an email
      already on a data row (trimmed, either case); otherwise the new row
      goes last. The position "" stands for an absent one. */
  method AddBrother(book: Workbook, cache: Cache, email: string, name: string, position: string)
    returns (r: Result<Reply>)
    requires Coherent(book, cache)
    modifies book`tables, cache`sheetData
    ensures Coherent(book, cache)
    ensures old(FlagsListed(book, cache)) ==> FlagsListed(book, cache)
    ensures email == "" || name == "" ==> r == Ok(Reply(false, Required)) && book.tables == old(book.tables)
    ensures var data := old(Contents(book, "Sigma"));
      email != "" && name != "" && FirstMatch(data, NonEmpty, 4, email, 1).Some? ==>
        r == Ok(Reply(false, Duplicate)) && book.tables == old(book.tables)
    ensures var data := old(Contents(book, "Sigma"));
      email != "" && name != "" && FirstMatch(data, NonEmpty, 4, email, 1).None? ==>
        ("Sigma" in old(book.tables) ==>
           r == Ok(Reply(true, AddedMessage))
           && book.tables == old(book.tables)["Sigma" := data + [BrotherRow(data, email, name, position)]])
        && ("Sigma" !in old(book.tables) ==> r == Err(ServiceError) && book.tables == old(book.tables))
  {
    if email == "" || name == "" {
      return Ok(Reply(false, Required));
    }
    var data := GetParentSheet(book, cache, "Sigma");
    var found := FindBrother(data, email);
    if found {
      return Ok(Reply(false, Duplicate));
    }
    var row := BrotherRow(data, email, name, position);
    AppendKeepsKeys(data, row);
    var ok := AppendRow(book, cache, "Sigma", row);
    if !ok {
      return Err(ServiceError);
    }
    return Ok(Reply(true, AddedMessage));
  }

  /** Appending a row keeps every email key of the table. */
  lemma AppendKeepsKeys(t: Table, row: Row)
    ensures EmailKeys(t) <= EmailKeys(t + [row])
  {
    forall k | k in EmailKeys(t)
      ensures k in EmailKeys(t + [row])
    {
      var i :| 1 <= i < |t| && 4 < |t[i]| && t[i][4] != "" && Normalize(t[i][4]) == k;
      assert (t + [row])[i] == t[i];
    }
  }

  /** Once added, the brother is found by email: a second `addBrother`
      with the same email, in either case or with other surrounding white
      space, is refused as a duplicate. */
  lemma AddedIsFound(data: Table, email: string, name: string, position: string, again: string)
    requires |data| >= 1 && Trim(email) != "" && Normalize(again) == Normalize(email)
    ensures FirstMatch(data + [BrotherRow(data, email, name, position)], NonEmpty, 4, again, 1).Some?
  {
    var u := data + [BrotherRow(data, email, name, position)];
    var row := u[|data|];
    assert row[4] == Trim(email);
    NormalizeIdempotent(email);
    assert Matches(NonEmpty, u[|data|], 4, again);
  }

  /** Deleting a row whose email key is `key` loses no other key. */
  lemma DeleteKeepsKeys(t: Table, i: nat, key: string)
    requires 1 <= i < |t| && 4 < |t[i]| && t[i][4] != "" && Normalize(t[i][4]) == key
    ensures EmailKeys(t) - {key} <= EmailKeys(DeleteRange(t, i, i + 1)) <= EmailKeys(t)
  {
    var u := DeleteRange(t, i, i + 1);
    forall k | k in EmailKeys(t) - {key}
      ensures k in EmailKeys(u)
    {
      var j :| 1 <= j < |t| && 4 < |t[j]| && t[j][4] != "" && Normalize(t[j][4]) == k;
      assert j != i;
      if j < i {
        assert u[j] == t[j];
      } else {
        assert u[j - 1] == t[j];
      }
    }
    forall k | k in EmailKeys(u)
      ensures k in EmailKeys(t)
    {
      var j :| 1 <= j < |u| && 4 < |u[j]| && u[j][4] != "" && Normalize(u[j][4]) == k;
      if j < i {
        assert u[j] == t[j];
      } else {
        assert u[j] == t[j + 1];
      }
    }
  }

  /** `deleteBrother`: the first data row holding the email (trimmed,
      either case) goes, through the Sigma tab's id, and the email's
      `validEmail` flag is dropped. */
  method DeleteBrother(book: Workbook, cache: Cache, email: string) returns (r: Result<Reply>)
    requires Coherent(book, cache) && DistinctIds(book.tabs)
    modifies book`tables, cache`sheetData, cache`validEmail
    ensures Coherent(book, cache)
    ensures old(FlagsListed(book, cache)) ==> FlagsListed(book, cache)
    ensures email == "" ==>
      r == Ok(Reply(false, EmailRequired)) && book.tables == old(book.tables) && cache.validEmail == old(cache.validEmail)
    ensures var data := old(Contents(book, "Sigma"));
      email != "" && FirstMatch(data, NonEmpty, 4, email, 1).None? ==>
        r == Ok(Reply(false, BrotherNotFound)) && book.tables == old(book.tables)
        && cache.validEmail == old(cache.validEmail)
    ensures var data := old(Contents(book, "Sigma"));
      email != "" && FirstMatch(data, NonEmpty, 4, email, 1).Some? && IdOfTitle(book.tabs, "Sigma").None? ==>
        r == Ok(Reply(false, SigmaMissing)) && book.tables == old(book.tables)
        && cache.validEmail == old(cache.validEmail)
    ensures var data := old(Contents(book, "Sigma"));
      var k := FirstMatch(data, NonEmpty, 4, email, 1);
      email != "" && k.Some? && IdOfTitle(book.tabs, "Sigma").Some? ==>
        r == Ok(Reply(true, DeletedMessage))
        && book.tables == old(book.tables)["Sigma" := DeleteRange(data, k.value, k.value + 1)]
        && cache.validEmail == old(cache.validEmail) - {Normalize(email)}
  {
    if email == "" {
      return Ok(Reply(false, EmailRequired));
    }
    var data := GetParentSheet(book, cache, "Sigma");
    var k := FirstMatch(data, NonEmpty, 4, email, 1);
    if k.None? {
      return Ok(Reply(false, BrotherNotFound));
    }
    var id := IdOfTitle(book.tabs, "Sigma");
    if id.None? {
      return Ok(Reply(false, SigmaMissing));
    }
    TitleOfIdOfTitle(book.tabs, "Sigma");
    RemoveBrotherRow(book, cache, id.value, data, k.value, Normalize(email));
    return Ok(Reply(true, DeletedMessage));
  }

  /** The deletion of `deleteBrother` once the row is found: the row goes,
      the Sigma sheet's cache entry is cleared and the email's flag dropped. */
  method RemoveBrotherRow(book: Workbook, cache: Cache, id: int, data: Table, k: nat, key: string)
    requires Coherent(book, cache)
    requires TitleOfId(book.tabs, id) == Some("Sigma") && "Sigma" in book.tables && book.tables["Sigma"] == data
    requires 1 <= k < |data| && 4 < |data[k]| && data[k][4] != "" && Normalize(data[k][4]) == key
    modifies book`tables, cache`sheetData, cache`validEmail
    ensures Coherent(book, cache)
    ensures old(FlagsListed(book, cache)) ==> FlagsListed(book, cache)
    ensures book.tables == old(book.tables)["Sigma" := DeleteRange(data, k, k + 1)]
    ensures cache.validEmail == old(cache.validEmail) - {key}
  {
    DeleteKeepsKeys(data, k, key);
    CoherentAfterChange(cache.sheetData, book.tables, "Sigma", DeleteRange(data, k, k + 1));
    var _ := book.DeleteRows(id, k, k + 1);
    ClearSheetCache(cache, "Sigma");
    cache.validEmail := cache.validEmail - {key};
  }

  // ---------------------------------------------------------------------------
  // Removing the alumni
  // ---------------------------------------------------------------------------

  /** The position cell, lower-cased, mentions "alumni". */
  predicate Alumnus(row: Row) {
    Contains(ToLower(CellOr(row, 6, "")), "alumni")
  }

  /** `alumniRows` after the scan of rows [1, n): the alumni's indices, in
      increasing order. */
  function AlumniQueue(t: Table, n: nat): (q: seq<nat>)
    requires n <= |t|
    ensures forall a :: 0 <= a < |q| ==> 1 <= q[a] < n
    ensures Increasing(q)
    ensures forall x :: x in q <==> 1 <= x < n && Alumnus(t[x])
    decreases n
  {
    if n <= 1 then []
    else
      var init := AlumniQueue(t, n - 1);
      if Alumnus(t[n - 1]) then
        SnocIncreasing(init, n - 1);
        init + [n - 1]
      else init
  }

  /** The scan of `deactivateAlumni`. */
  method CollectAlumni(data: Table) returns (q: seq<nat>)
    ensures q == AlumniQueue(data, |data|)
  {
    q := [];
    if |data| <= 1 {
      return;
    }
    var i := 1;
    while i < |data|
      invariant 1 <= i <= |data|
      invariant q == AlumniQueue(data, i)
      decreases |data| - i
    {
      ghost var next := AlumniQueue(data, i + 1);
      if Alumnus(data[i]) {
        assert next == q + [i];
        q := q + [i];
      } else {
        assert next == q;
      }
      i := i + 1;
    }
  }

  /** The batch of `deactivateAlumni`: the queued rows are deleted from the
      last one down, so the indices still to come stay valid. */
  method DeleteAlumniRows(book: Workbook, id: int, data: Table, q: seq<nat>)
    requires TitleOfId(book.tabs, id) == Some("Sigma") && "Sigma" in book.tables && book.tables["Sigma"] == data
    requires Increasing(q) && forall a :: 0 <= a < |q| ==> q[a] < |data|
    modifies book`tables
    ensures book.tables == old(book.tables)["Sigma" := Roster.Keep(data, 0, q)]
  {
    var j := |q|;
    Roster.RemainingEnds(data, q);
    assert old(book.tables)["Sigma" := data] == old(book.tables);
    while j > 0
      invariant 0 <= j <= |q|
      invariant book.tables == old(book.tables)["Sigma" := Roster.Remaining(data, q, j)]
      decreases j
    {
      Roster.RemainingStep(data, q, j);
      var _ := book.DeleteRows(id, q[j - 1], q[j - 1] + 1);
      j := j - 1;
    }
  }

  /** `deactivateAlumni` as written: every alumnus's row goes in one batch
      whose deletions run from the highest index down, so the indices still
      to come stay valid, and the count of rows removed is returned. Only
      the Sigma tab's cached copy is dropped: the alumni's `validEmail:`
      flags stay cached. */
  method DeactivateAlumniAsWritten(book: Workbook, cache: Cache) returns (r: Result<nat>)
    requires Coherent(book, cache) && DistinctIds(book.tabs)
    modifies book`tables, cache`sheetData
    ensures Coherent(book, cache)
    ensures r.Ok?
    ensures var data := old(Contents(book, "Sigma"));
      var q := AlumniQueue(data, |data|);
      (q == [] || IdOfTitle(book.tabs, "Sigma").None?) ==> r == Ok(0) && book.tables == old(book.tables)
    ensures var data := old(Contents(book, "Sigma"));
      var q := AlumniQueue(data, |data|);
      q != [] && IdOfTitle(book.tabs, "Sigma").Some? ==>
        r == Ok(|q|) && book.tables == old(book.tables)["Sigma" := Roster.Keep(data, 0, q)]
  {
    var data := GetParentSheet(book, cache, "Sigma");
    var q := CollectAlumni(data);
    if |q| == 0 {
      return Ok(0);
    }
    var id := IdOfTitle(book.tabs, "Sigma");
    if id.None? {
      return Ok(0);
    }
    TitleOfIdOfTitle(book.tabs, "Sigma");
    DeleteAlumniRows(book, id.value, data, q);
    ClearSheetCache(cache, "Sigma");
    return Ok(|q|);
  }

  /** The roster keys of the alumni's rows. */
  function AlumniKeys(t: Table): set<string> {
    set i | 1 <= i < |t| && 4 < |t[i]| && t[i][4] != "" && Alumnus(t[i]) :: Normalize(t[i][4])
  }

  /** The roster keys of the other data rows. */
  function MemberKeys(t: Table): set<string> {
    set i | 1 <= i < |t| && 4 < |t[i]| && t[i][4] != "" && !Alumnus(t[i]) :: Normalize(t[i][4])
  }

  /** Every roster key belongs to an alumnus's row or to another row. */
  lemma KeysSplit(t: Table)
    ensures EmailKeys(t) == AlumniKeys(t) + MemberKeys(t)
  {
    forall k | k in EmailKeys(t)
      ensures k in AlumniKeys(t) + MemberKeys(t)
    {
      var i :| 1 <= i < |t| && 4 < |t[i]| && t[i][4] != "" && Normalize(t[i][4]) == k;
      if Alumnus(t[i]) {
        assert k in AlumniKeys(t);
      } else {
        assert k in MemberKeys(t);
      }
    }
  }

  /** A queue holding exactly the alumni's data rows. */
  ghost predicate QueuesAlumni(data: Table, q: seq<nat>) {
    forall x :: x in q <==> 1 <= x < |data| && Alumnus(data[x])
  }

  /** The rows kept after the header are not the alumni's. */
  lemma KeptKeysMembers(data: Table, q: seq<nat>)
    requires QueuesAlumni(data, q)
    ensures EmailKeys(Roster.Keep(data, 0, q)) <= MemberKeys(data)
  {
    var u := Roster.Keep(data, 0, q);
    if |data| == 0 {
      return;
    }
    var rest := Roster.Keep(data, 1, q);
    assert u == [data[0]] + rest;
    forall k | k in EmailKeys(u)
      ensures k in MemberKeys(data)
    {
      var j :| 1 <= j < |u| && 4 < |u[j]| && u[j][4] != "" && Normalize(u[j][4]) == k;
      assert u[j] == rest[j - 1];
      Roster.KeepFrom(data, 1, q, u[j]);
      var i :| 1 <= i < |data| && i !in q && data[i] == u[j];
      assert Normalize(data[i][4]) in MemberKeys(data);
    }
  }

  /** Every row that is not an alumnus's keeps its key. */
  lemma MemberKeysKept(data: Table, q: seq<nat>)
    requires QueuesAlumni(data, q)
    ensures MemberKeys(data) <= EmailKeys(Roster.Keep(data, 0, q))
  {
    var u := Roster.Keep(data, 0, q);
    if |data| == 0 {
      return;
    }
    var rest := Roster.Keep(data, 1, q);
    assert u == [data[0]] + rest;
    forall k | k in MemberKeys(data)
      ensures k in EmailKeys(u)
    {
      var i :| 1 <= i < |data| && 4 < |data[i]| && data[i][4] != "" && !Alumnus(data[i]) && Normalize(data[i][4]) == k;
      Roster.KeepHas(data, 1, q, i);
      var j :| 0 <= j < |rest| && rest[j] == data[i];
      assert u[j + 1] == data[i];
      assert Normalize(u[j + 1][4]) in EmailKeys(u);
    }
  }

  /** After the batch, the roster keys are exactly those of the rows that
      are not an alumnus's. */
  lemma AlumniGoneKeys(data: Table)
    ensures EmailKeys(Roster.Keep(data, 0, AlumniQueue(data, |data|))) == MemberKeys(data)
  {
    var q := AlumniQueue(data, |data|);
    assert QueuesAlumni(data, q);
    KeptKeysMembers(data, q);
    MemberKeysKept(data, q);
  }

  /** `deactivateAlumni` as intended: the batch of the source, and then the
      alumni's `validEmail:` flags are dropped, as `deleteBrother` drops the
      flag of the brother it removes. The flags then stay drawn from the
      roster. */
  method DeactivateAlumni(book: Workbook, cache: Cache) returns (r: Result<nat>)
    requires Coherent(book, cache) && DistinctIds(book.tabs)
    modifies book`tables, cache`sheetData, cache`validEmail
    ensures Coherent(book, cache)
    ensures old(FlagsListed(book, cache)) ==> FlagsListed(book, cache)
    ensures var data := old(Contents(book, "Sigma"));
      var q := AlumniQueue(data, |data|);
      (q == [] || IdOfTitle(book.tabs, "Sigma").None?) ==>
        r == Ok(0) && book.tables == old(book.tables) && cache.validEmail == old(cache.validEmail)
    ensures var data := old(Contents(book, "Sigma"));
      var q := AlumniQueue(data, |data|);
      q != [] && IdOfTitle(book.tabs, "Sigma").Some? ==>
        r == Ok(|q|) && book.tables == old(book.tables)["Sigma" := Roster.Keep(data, 0, q)]
        && cache.validEmail == old(cache.validEmail) - AlumniKeys(data)
  {
    var data := Contents(book, "Sigma");
    r := DeactivateAlumniAsWritten(book, cache);
    if r.value > 0 {
      cache.validEmail := cache.validEmail - AlumniKeys(data);
      KeysSplit(data);
      AlumniGoneKeys(data);
    }
  }

  /** The stale flag of `deactivateAlumni` as written: an alumnus whose flag
      was cached, and whose email no remaining row holds, is still admitted
      by `isValidEmail` after their row is deleted. */
  method AlumnusStillAdmittedAsWritten(book: Workbook, cache: Cache, email: string) returns (ok: bool)
    requires Coherent(book, cache) && DistinctIds(book.tabs)
    requires Normalize(email) in cache.validEmail && Normalize(email) !in MemberKeys(Contents(book, "Sigma"))
    requires AlumniQueue(Contents(book, "Sigma"), |Contents(book, "Sigma")|) != []
    requires IdOfTitle(book.tabs, "Sigma").Some?
    modifies book`tables, cache`sheetData, cache`validEmail
    ensures ok && !Auth.OnRoster(book, email)
  {
    ghost var data := Contents(book, "Sigma");
    var _ := DeactivateAlumniAsWritten(book, cache);
    AlumniGoneKeys(data);
    var _, admitted := Auth.CheckRoster(book, cache, email);
    ok := admitted;
  }

  /** After the batch, the header stays, every other row stays exactly
      when it is not an alumnus's, and the sheet is shorter by the count. */
  lemma AlumniGone(data: Table)
    ensures var q := AlumniQueue(data, |data|);
      var u := Roster.Keep(data, 0, q);
      |u| == |data| - |q|
      && (|data| > 0 ==> |u| > 0 && u[0] == data[0])
      && (forall i :: 1 <= i < |data| && !Alumnus(data[i]) ==> data[i] in u)
      && (forall row :: row in u ==> exists i :: 0 <= i < |data| && data[i] == row && (i == 0 || !Alumnus(data[i])))
  {
    var q := AlumniQueue(data, |data|);
    var u := Roster.Keep(data, 0, q);
    Roster.KeepLength(data, 0, q);
    if |data| > 0 {
      assert 0 !in q;
      assert u == [data[0]] + Roster.Keep(data, 1, q);
    }
    forall i | 1 <= i < |data| && !Alumnus(data[i])
      ensures data[i] in u
    {
      Roster.KeepHas(data, 0, q, i);
    }
    forall row | row in u
      ensures exists i :: 0 <= i < |data| && data[i] == row && (i == 0 || !Alumnus(data[i]))
    {
      Roster.KeepFrom(data, 0, q, row);
    }
  }

  // ---------------------------------------------------------------------------
  // The audit log
  // ---------------------------------------------------------------------------

  datatype AuditEntry = AuditEntry(timestamp: string, action: string, email: string, details: string)

  const MaxAudit := 500

  /** The most recent entries, at most 500 of them. */
  function Recent(log: seq<AuditEntry>): (r: seq<AuditEntry>)
    ensures |r| <= MaxAudit
    ensures |r| == if |log| > MaxAudit then MaxAudit else |log|
    ensures r == log[|log| - |r|..]
  {
    if |log| > MaxAudit then log[|log| - MaxAudit..] else log
  }

  /** The audit log kept under the cache key `auditLog`. */
  class AuditLog {
    var entries: seq<AuditEntry>

    predicate Valid()
      reads this
    {
      |entries| <= MaxAudit
    }

    constructor ()
      ensures entries == [] && Valid()
    {
      entries := [];
    }

    /** `getAuditLog`. */
    function Entries(): (r: seq<AuditEntry>)
      reads this
      ensures Valid() ==> |r| <= MaxAudit
    {
      entries
    }

    /** `logAudit` with the clock's reading: the entry goes last and the
        oldest entries beyond 500 are dropped. */
    method LogAudit(action: string, email: string, details: string, timestamp: string)
      modifies this
      ensures entries == Recent(old(entries) + [AuditEntry(timestamp, action, email, details)])
      ensures Valid()
      ensures entries[|entries| - 1] == AuditEntry(timestamp, action, email, details)
      ensures old(|entries|) < MaxAudit ==> entries == old(entries) + [AuditEntry(timestamp, action, email, details)]
    {
      var log := entries + [AuditEntry(timestamp, action, email, details)];
      if |log| > MaxAudit {
        log := log[|log| - MaxAudit..];
      }
      entries := log;
    }
  }

  /** A full log drops exactly its oldest entry. */
  lemma RecentDropsOldest(log: seq<AuditEntry>, e: AuditEntry)
    requires |log| == MaxAudit
    ensures Recent(log + [e]) == log[1..] + [e]
  {
    assert (log + [e])[1..] == log[1..] + [e];
  }

  const AuditHeader := "Timestamp,Action,Email,Details"

  /** How a CSV reader takes a doubled quote back to one. */
  function UndoubleQuotes(s: string): string
    decreases |s|
  {
    if |s| >= 2 && s[0] == '"' && s[1] == '"' then "\"" + UndoubleQuotes(s[2..])
    else if s == [] then []
    else [s[0]] + UndoubleQuotes(s[1..])
  }

  /** The escaped details read back as the details. */
  lemma {:induction false} UndoubleDoubled(s: string)
    ensures UndoubleQuotes(Doubled(s, '\"')) == s
    decreases |s|
  {
    if s != [] {
      UndoubleDoubled(s[1..]);
      var d := Doubled(s, '\"');
      if s[0] == '"' {
        assert d == "\"\"" + Doubled(s[1..], '\"');
        assert d[2..] == Doubled(s[1..], '\"');
      } else {
        assert d == [s[0]] + Doubled(s[1..], '\"');
        assert d[1..] == Doubled(s[1..], '\"');
        assert !(|d| >= 2 && d[0] == '"');
      }
      assert [s[0]] + s[1..] == s;
    }
  }

  /** One line of `exportAuditLog`: every field quoted, quotes doubled in
      the details only. */
  function AuditLine(e: AuditEntry): string {
    Quoted(e.timestamp) + [','] + Quoted(e.action) + [','] + Quoted(e.email) + [','] + Quoted(Doubled(e.details, '\"'))
  }

  function AuditLines(log: seq<AuditEntry>): (r: seq<string>)
    ensures |r| == |log| && forall i :: 0 <= i < |log| ==> r[i] == AuditLine(log[i])
  {
    seq(|log|, i requires 0 <= i < |log| => AuditLine(log[i]))
  }

  /** `exportAuditLog`: the header, then one line per entry. */
  function ExportAuditLog(log: seq<AuditEntry>): (r: string)
    ensures log == [] ==> r == AuditHeader
    ensures StartsWith(r, AuditHeader)
    ensures log != [] ==> |AuditHeader| < |r| && r[|AuditHeader|] == '\n'
  {
    Join([AuditHeader] + AuditLines(log), '\n')
  }

  /** Doubling quotes adds no line break. */
  lemma {:induction false} DoubleQuotesNoBreak(s: string)
    requires '\n' !in s
    ensures '\n' !in Doubled(s, '\"')
    decreases |s|
  {
    if s != [] {
      DoubleQuotesNoBreak(s[1..]);
    }
  }

  /** Split at line breaks, the export gives back its header and one line
      per entry, as long as no field holds a line break. */
  lemma ExportAuditLogLines(log: seq<AuditEntry>)
    requires forall e :: e in log ==> '\n' !in e.timestamp && '\n' !in e.action && '\n' !in e.email && '\n' !in e.details
    ensures Split(ExportAuditLog(log), '\n') == [AuditHeader] + AuditLines(log)
  {
    var ps := [AuditHeader] + AuditLines(log);
    forall i | 0 <= i < |ps|
      ensures '\n' !in ps[i]
    {
      if i > 0 {
        assert log[i - 1] in log;
        AuditLineNoBreak(log[i - 1]);
      }
    }
    JoinSplit(ps, '\n');
  }

  /** A line of an entry with no line break in its fields has none either. */
  lemma AuditLineNoBreak(e: AuditEntry)
    requires '\n' !in e.timestamp && '\n' !in e.action && '\n' !in e.email && '\n' !in e.details
    ensures '\n' !in AuditLine(e)
  {
    DoubleQuotesNoBreak(e.details);
  }
}
