/** Ranked-choice polls of `backend/polls.js`. Every poll is one row of the
    `RankedChoicePolls` tab: id, question, options (a JSON array), votes (a
    JSON object from voter to ranking), creator, creation time, status,
    threshold and the anonymity flag. Poll ids and creation times come from
    the random-id source and the clock, so they are parameters. */
module Polls {
  import opened Wrappers
  import opened Dicts
  import opened Json
  import opened Sheets
  import Auth

  const PollSheet := "RankedChoicePolls"
  const PollHeader: Row := ["Poll ID", "Question", "Options (JSON)", "Votes (JSON)", "Creator",
                            "Created At", "Status", "Threshold", "Anonymous"]
  const Active := "active"
  const Closed := "closed"
  const DefaultThreshold := "0.5"

  const NotFoundOrClosed := "Poll not found or closed"
  const NotFound := "Poll not found"
  const OnlyClosedDeleted := "Only closed polls can be deleted"
  const OnlyCreatorDeletes := "Only the poll creator can delete this poll"
  const OnlyActiveReset := "Only active polls can be reset"
  const OnlyCreatorResets := "Only the poll creator can reset votes"
  /** What `JSON.parse` throws on a cell that is not the JSON expected. */
  const InvalidJson := "SyntaxError: Unexpected token in JSON"

  // ---------------------------------------------------------------------------
  // Rows
  // ---------------------------------------------------------------------------

  /** A poll as `parsePollRow` returns it; `None` is a cell past the end of
      the row. */
  datatype Poll = Poll(id: Option<string>, question: Option<string>, options: seq<string>, votes: Votes,
                       creator: Option<string>, createdAt: Option<string>, status: Option<string>,
                       threshold: string, anonymous: string)

  /** `parsePollRow`: options and votes are read as JSON, an empty cell
      standing for `[]` and `{}`; a falsy threshold is 0.5; the anonymity
      flag is `true` only when the cell is missing altogether. */
  function ParsePollRow(row: Row): (r: Result<Poll>)
    ensures r.Ok? <==> DecodeNames(CellOr(row, 2, "[]")).Some? && DecodeVotes(CellOr(row, 3, "{}")).Some?
    ensures r.Ok? && CellOr(row, 2, "") == "" ==> r.value.options == []
    ensures r.Ok? && CellOr(row, 3, "") == "" ==> r.value.votes == []
    ensures r.Ok? ==> r.value.id == Cell(row, 0) && r.value.status == Cell(row, 6) && r.value.creator == Cell(row, 4)
    ensures r.Ok? ==> (r.value.threshold == DefaultThreshold <==> CellOr(row, 7, "") in {"", DefaultThreshold})
    ensures r.Ok? ==> (8 < |row| ==> r.value.anonymous == row[8]) && (|row| <= 8 ==> r.value.anonymous == BoolText(true))
  {
    match (DecodeNames(CellOr(row, 2, "[]")), DecodeVotes(CellOr(row, 3, "{}")))
    case (Some(options), Some(votes)) =>
      Ok(Poll(Cell(row, 0), Cell(row, 1), options, votes, Cell(row, 4), Cell(row, 5), Cell(row, 6),
              CellOr(row, 7, DefaultThreshold), if 8 < |row| then row[8] else BoolText(true)))
    case _ => Err(InvalidJson)
  }

  /** The row `createRankedChoicePoll` appends. A threshold of "" stands for
      an absent or zero threshold; an anonymity flag of `None` for an absent
      one. */
  function NewPollRow(pollId: string, question: string, options: seq<string>, creatorName: string,
                      now: string, threshold: string, isAnonymous: Option<bool>): (row: Row)
    ensures |row| == |PollHeader|
  {
    [pollId, question, EncodeNames(options), EncodeVotes([]), creatorName, now, Active,
     if threshold != "" then threshold else DefaultThreshold,
     BoolText(if isAnonymous.Some? then isAnonymous.value else true)]
  }

  /** A new poll reads back as an open poll with no votes, the 0.5 default
      threshold and the anonymous default. */
  lemma ParseNewPoll(pollId: string, question: string, options: seq<string>, creatorName: string,
                     now: string, threshold: string, isAnonymous: Option<bool>)
    ensures ParsePollRow(NewPollRow(pollId, question, options, creatorName, now, threshold, isAnonymous))
         == Ok(Poll(Some(pollId), Some(question), options, [], Some(creatorName), Some(now), Some(Active),
                    if threshold != "" then threshold else DefaultThreshold,
                    BoolText(isAnonymous != Some(false))))
  {
    var row := NewPollRow(pollId, question, options, creatorName, now, threshold, isAnonymous);
    DecodeEncodeNames(options);
    assert CellOr(row, 2, "[]") == EncodeNames(options);
    ParseFreshRow(row, options);
    assert row[8] == BoolText(isAnonymous != Some(false));
  }

  /** A full row whose votes cell is the empty object parses with no votes. */
  lemma ParseFreshRow(row: Row, options: seq<string>)
    requires |row| == |PollHeader| && row[3] == "{}" && DecodeNames(CellOr(row, 2, "[]")) == Some(options)
    ensures ParsePollRow(row) == Ok(Poll(Cell(row, 0), Cell(row, 1), options, [], Cell(row, 4), Cell(row, 5),
                                         Cell(row, 6), CellOr(row, 7, DefaultThreshold), row[8]))
  {
    assert CellOr(row, 3, "{}") == "{}";
  }

  // ---------------------------------------------------------------------------
  // Finding a poll
  // ---------------------------------------------------------------------------

  /** The row holds the poll: its id cell equals `pollId` exactly and, when
      only open polls count, its status cell is "active". */
  predicate IsPoll(row: Row, pollId: string, activeOnly: bool) {
    Cell(row, 0) == Some(pollId) && (activeOnly ==> Cell(row, 6) == Some(Active))
  }

  /** The first row at or after `from` that holds the poll. */
  function FindPoll(data: Table, pollId: string, activeOnly: bool, from: nat): (r: Option<nat>)
    ensures r.Some? ==> from <= r.value < |data| && IsPoll(data[r.value], pollId, activeOnly)
    ensures r.Some? ==> forall j :: from <= j < r.value ==> !IsPoll(data[j], pollId, activeOnly)
    ensures r.None? ==> forall j :: from <= j < |data| ==> !IsPoll(data[j], pollId, activeOnly)
    decreases |data| - from
  {
    if from >= |data| then None
    else if IsPoll(data[from], pollId, activeOnly) then Some(from)
    else FindPoll(data, pollId, activeOnly, from + 1)
  }

  /** The scan every poll operation runs over the data rows. */
  method FindPollRow(data: Table, pollId: string, activeOnly: bool) returns (k: Option<nat>)
    ensures k == FindPoll(data, pollId, activeOnly, 1)
  {
    var i := 1;
    while i < |data|
      invariant 1 <= i
      invariant FindPoll(data, pollId, activeOnly, i) == FindPoll(data, pollId, activeOnly, 1)
      decreases |data| - i
    {
      if IsPoll(data[i], pollId, activeOnly) {
        return Some(i);
      }
      i := i + 1;
    }
    return None;
  }

  /** `getName(...) || fallback`. */
  function NameOr(sigma: Table, email: string, fallback: string): string {
    var n := Auth.NameOf(sigma, email);
    if n.Some? then n.value else fallback
  }

  /** The poll tab read after `clearSheetCache`: always the service's copy. */
  method ReadPolls(book: Workbook, cache: Cache) returns (data: Table)
    requires Coherent(book, cache)
    modifies cache`sheetData
    ensures Coherent(book, cache) && data == Contents(book, PollSheet)
  {
    ClearSheetCache(cache, PollSheet);
    data := GetParentSheet(book, cache, PollSheet);
  }

  /** One cell of the poll tab written, then the tab's cache entry dropped. */
  method WritePollCell(book: Workbook, cache: Cache, i: nat, c: nat, value: string)
    requires Coherent(book, cache) && PollSheet in book.tables
    modifies book`tables, cache`sheetData
    ensures book.tables == old(book.tables)[PollSheet := WriteRow(old(book.tables)[PollSheet], i, c, [value])]
    ensures Coherent(book, cache)
  {
    var _ := book.Update(PollSheet, i, c, [value]);
    ClearSheetCache(cache, PollSheet);
  }

  // ---------------------------------------------------------------------------
  // Creating
  // ---------------------------------------------------------------------------

  /** The tables once the poll tab is there: a spreadsheet without the tab
      gains it, holding the header row. */
  function WithPollTab(tabs: seq<Tab>, tables: map<string, Table>): (r: map<string, Table>)
    ensures PollSheet in tables ==> PollSheet in r
    ensures IdOfTitle(tabs, PollSheet).None? ==> PollSheet in r && r[PollSheet] == [PollHeader]
    ensures forall n :: n != PollSheet ==> (n in r <==> n in tables) && (n in r ==> r[n] == tables[n])
  {
    if IdOfTitle(tabs, PollSheet).None? then tables[PollSheet := [PollHeader]] else tables
  }

  /** `ensurePollSheet`: a spreadsheet without the poll tab gets one, with
      the new tab id the service hands out, holding the header row. */
  method EnsurePollSheet(book: Workbook, newTabId: int)
    modifies book`tabs, book`tables
    ensures book.tables == old(WithPollTab(book.tabs, book.tables))
    ensures old(IdOfTitle(book.tabs, PollSheet)).Some? ==> book.tabs == old(book.tabs)
    ensures old(IdOfTitle(book.tabs, PollSheet)).None? ==> book.tabs == old(book.tabs) + [Tab(PollSheet, newTabId)]
    ensures IdOfTitle(book.tabs, PollSheet).Some?
    ensures DistinctIds(old(book.tabs)) && (forall i :: 0 <= i < |old(book.tabs)| ==> old(book.tabs)[i].id != newTabId) ==>
      DistinctIds(book.tabs)
  {
    if IdOfTitle(book.tabs, PollSheet).None? {
      book.tabs := book.tabs + [Tab(PollSheet, newTabId)];
      book.tables := book.tables[PollSheet := [PollHeader]];
      assert book.tabs[|book.tabs| - 1] == Tab(PollSheet, newTabId);
    }
  }

  /** A cache that agreed with the tables still agrees once the entry of
      the only tab that changed is dropped. */
  lemma CoherentMaps(t0: map<string, Table>, t1: map<string, Table>, s0: map<string, Table>, name: string)
    requires forall n :: n in s0 ==> n in t0 && s0[n] == t0[n]
    requires forall n :: n != name ==> (n in t1 <==> n in t0) && (n in t1 ==> t1[n] == t0[n])
    ensures forall n :: n in s0 - {name} ==> n in t1 && (s0 - {name})[n] == t1[n]
  {
  }

  /** `createRankedChoicePoll`: the poll tab is made if missing, the
      creator's roster name (or "Admin") is looked up, and the new row goes
      last; the poll's id is returned. */
  method CreatePoll(book: Workbook, cache: Cache, question: string, options: seq<string>, creatorEmail: string,
                    threshold: string, isAnonymous: Option<bool>, pollId: string, now: string, newTabId: int)
    returns (r: Result<string>)
    requires Coherent(book, cache)
    modifies book`tabs, book`tables, cache`sheetData
    ensures Coherent(book, cache)
    ensures IdOfTitle(book.tabs, PollSheet).Some?
    ensures var t := old(WithPollTab(book.tabs, book.tables));
      var row := NewPollRow(pollId, question, options, NameOr(old(Contents(book, "Sigma")), creatorEmail, "Admin"),
                            now, threshold, isAnonymous);
      (PollSheet in t ==> r == Ok(pollId) && book.tables == t[PollSheet := t[PollSheet] + [row]])
      && (PollSheet !in t ==> r == Err(ServiceError) && book.tables == t)
  {
    var sigma := GetParentSheet(book, cache, "Sigma");
    var row := NewPollRow(pollId, question, options, NameOr(sigma, creatorEmail, "Admin"), now, threshold, isAnonymous);
    ghost var t0 := book.tables;
    ghost var s0 := cache.sheetData;
    EnsurePollSheet(book, newTabId);
    var ok := book.Append(PollSheet, [row]);
    if !ok {
      return Err(ServiceError);
    }
    ClearSheetCache(cache, PollSheet);
    CoherentMaps(t0, book.tables, s0, PollSheet);
    return Ok(pollId);
  }

  // ---------------------------------------------------------------------------
  // Voting, closing, deleting, resetting
  // ---------------------------------------------------------------------------

  /** The votes object of a poll row. */
  function VotesOf(row: Row): Option<Votes> {
    DecodeVotes(CellOr(row, 3, "{}"))
  }

  /** A votes object read from a cell has distinct voters. */
  lemma VotesUnique(row: Row)
    requires VotesOf(row).Some?
    ensures UniqueKeys(VotesOf(row).value)
  {
    var s := CellOr(row, 3, "{}");
    if s != "{}" {
      var ps :| ParseMembers(s[1..]) == Some(ps) && VotesOf(row) == Some(FromPairs(ps.0));
      FromPairsUniqueKeys(ps.0);
    }
  }

  /** `submitRankedChoiceVote`: in the first open poll with the id, the
      voter's ranking (under the voter's roster name, or the email) replaces
      any earlier one. */
  method SubmitVote(book: Workbook, cache: Cache, pollId: string, voterEmail: string, ranking: seq<string>)
    returns (r: Result<()>)
    requires Coherent(book, cache)
    modifies book`tables, cache`sheetData
    ensures Coherent(book, cache)
    ensures var data := old(Contents(book, PollSheet));
      FindPoll(data, pollId, true, 1).None? ==> r == Err(NotFoundOrClosed) && book.tables == old(book.tables)
    ensures var data := old(Contents(book, PollSheet));
      var k := FindPoll(data, pollId, true, 1);
      k.Some? && VotesOf(data[k.value]).None? ==> r == Err(InvalidJson) && book.tables == old(book.tables)
    ensures var data := old(Contents(book, PollSheet));
      var k := FindPoll(data, pollId, true, 1);
      var name := NameOr(old(Contents(book, "Sigma")), voterEmail, voterEmail);
      k.Some? && VotesOf(data[k.value]).Some? ==>
        r == Ok(()) && book.tables == old(book.tables)[PollSheet :=
          WriteRow(data, k.value, 3, [EncodeVotes(Put(VotesOf(data[k.value]).value, name, ranking))])]
  {
    var sigma := GetParentSheet(book, cache, "Sigma");
    var name := NameOr(sigma, voterEmail, voterEmail);
    var data := ReadPolls(book, cache);
    var k := FindPollRow(data, pollId, true);
    if k.None? {
      return Err(NotFoundOrClosed);
    }
    var votes := VotesOf(data[k.value]);
    if votes.None? {
      return Err(InvalidJson);
    }
    WritePollCell(book, cache, k.value, 3, EncodeVotes(Put(votes.value, name, ranking)));
    return Ok(());
  }

  /** After a vote the poll row is still the open poll found first, the
      voter's ranking reads back, every other voter's ranking and every
      other row is unchanged. */
  lemma VoteReadsBack(data: Table, pollId: string, name: string, ranking: seq<string>)
    requires FindPoll(data, pollId, true, 1).Some?
    requires VotesOf(data[FindPoll(data, pollId, true, 1).value]).Some?
    ensures var k := FindPoll(data, pollId, true, 1).value;
      var v := VotesOf(data[k]).value;
      var u := WriteRow(data, k, 3, [EncodeVotes(Put(v, name, ranking))]);
      |u| == |data| && (forall j :: 0 <= j < |u| && j != k ==> u[j] == data[j])
      && FindPoll(u, pollId, true, 1) == Some(k)
      && VotesOf(u[k]).Some? && Lookup(VotesOf(u[k]).value, name) == Some(ranking)
      && (forall other :: other != name ==> Lookup(VotesOf(u[k]).value, other) == Lookup(v, other))
  {
    var k := FindPoll(data, pollId, true, 1).value;
    var v := VotesOf(data[k]).value;
    var w := Put(v, name, ranking);
    var u := WriteRow(data, k, 3, [EncodeVotes(w)]);
    VotesUnique(data[k]);
    PutUnique(v, name, ranking);
    DecodeEncodeVotes(w);
    assert u[k][3] == EncodeVotes(w);
    assert EncodeVotes(w) != "";
    assert IsPoll(u[k], pollId, true);
    FindPollSame(data, u, pollId, true, k, 1);
  }

  /** Two tables that agree on the rows before `k` and both hold the poll
      at `k` find it at the same place. */
  lemma {:induction false} FindPollSame(data: Table, u: Table, pollId: string, activeOnly: bool, k: nat, from: nat)
    requires from <= k < |data| && k < |u|
    requires FindPoll(data, pollId, activeOnly, from) == Some(k)
    requires IsPoll(u[k], pollId, activeOnly)
    requires forall j :: from <= j < k ==> u[j] == data[j]
    ensures FindPoll(u, pollId, activeOnly, from) == Some(k)
    decreases k - from
  {
    if from < k {
      assert u[from] == data[from];
      FindPollSame(data, u, pollId, activeOnly, k, from + 1);
    }
  }

  /** `closeRankedChoicePoll`: the first poll with the id, whatever its
      status, is marked closed. */
  method ClosePoll(book: Workbook, cache: Cache, pollId: string) returns (r: Result<()>)
    requires Coherent(book, cache)
    modifies book`tables, cache`sheetData
    ensures Coherent(book, cache)
    ensures var data := old(Contents(book, PollSheet));
      var k := FindPoll(data, pollId, false, 1);
      (k.None? ==> r == Err(NotFound) && book.tables == old(book.tables))
      && (k.Some? ==> r == Ok(()) && book.tables == old(book.tables)[PollSheet := WriteRow(data, k.value, 6, [Closed])])
  {
    var data := ReadPolls(book, cache);
    var k := FindPollRow(data, pollId, false);
    if k.None? {
      return Err(NotFound);
    }
    WritePollCell(book, cache, k.value, 6, Closed);
    return Ok(());
  }

  /** Closing is idempotent: the closed row is still the one found, its
      status reads "closed", and closing it again changes nothing. */
  lemma CloseIdempotent(data: Table, pollId: string)
    requires FindPoll(data, pollId, false, 1).Some?
    ensures var k := FindPoll(data, pollId, false, 1).value;
      var u := WriteRow(data, k, 6, [Closed]);
      FindPoll(u, pollId, false, 1) == Some(k) && Cell(u[k], 6) == Some(Closed)
      && WriteRow(u, k, 6, [Closed]) == u
  {
    var k := FindPoll(data, pollId, false, 1).value;
    var u := WriteRow(data, k, 6, [Closed]);
    assert u[k][6] == Closed;
    assert IsPoll(u[k], pollId, false);
    FindPollSame(data, u, pollId, false, k, 1);
    WriteRowTwice(data, k, 6, [Closed]);
  }

  /** `deleteRankedChoicePoll`: only a closed poll, and outside development
      only by its creator (compared by roster name, or email), is removed;
      the row goes through the tab's id, and nothing goes when the
      spreadsheet has no such tab. */
  method DeletePoll(book: Workbook, cache: Cache, isDev: bool, pollId: string, userEmail: string)
    returns (r: Result<()>)
    requires Coherent(book, cache)
    modifies book`tables, cache`sheetData
    ensures DistinctIds(book.tabs) ==> Coherent(book, cache)
    ensures var data := old(Contents(book, PollSheet));
      FindPoll(data, pollId, false, 1).None? ==> r == Err(NotFound) && book.tables == old(book.tables)
    ensures var data := old(Contents(book, PollSheet));
      var k := FindPoll(data, pollId, false, 1);
      k.Some? && Cell(data[k.value], 6) != Some(Closed) ==>
        r == Err(OnlyClosedDeleted) && book.tables == old(book.tables)
    ensures var data := old(Contents(book, PollSheet));
      var k := FindPoll(data, pollId, false, 1);
      var name := NameOr(old(Contents(book, "Sigma")), userEmail, userEmail);
      k.Some? && Cell(data[k.value], 6) == Some(Closed) && !isDev && Cell(data[k.value], 4) != Some(name) ==>
        r == Err(OnlyCreatorDeletes) && book.tables == old(book.tables)
    ensures var data := old(Contents(book, PollSheet));
      var k := FindPoll(data, pollId, false, 1);
      var name := NameOr(old(Contents(book, "Sigma")), userEmail, userEmail);
      k.Some? && Cell(data[k.value], 6) == Some(Closed) && (isDev || Cell(data[k.value], 4) == Some(name)) ==>
        r == Ok(())
        && (IdOfTitle(book.tabs, PollSheet).None? ==> book.tables == old(book.tables))
        && (IdOfTitle(book.tabs, PollSheet).Some? && DistinctIds(book.tabs) ==>
              book.tables == old(book.tables)[PollSheet := DeleteRange(data, k.value, k.value + 1)])
  {
    var sigma := GetParentSheet(book, cache, "Sigma");
    var name := NameOr(sigma, userEmail, userEmail);
    var data := ReadPolls(book, cache);
    var k := FindPollRow(data, pollId, false);
    if k.None? {
      return Err(NotFound);
    }
    var i := k.value;
    if Cell(data[i], 6) != Some(Closed) {
      return Err(OnlyClosedDeleted);
    }
    if !isDev && Cell(data[i], 4) != Some(name) {
      return Err(OnlyCreatorDeletes);
    }
    var id := IdOfTitle(book.tabs, PollSheet);
    if id.Some? {
      if DistinctIds(book.tabs) {
        TitleOfIdOfTitle(book.tabs, PollSheet);
      }
      var _ := book.DeleteRows(id.value, i, i + 1);
    }
    ClearSheetCache(cache, PollSheet);
    return Ok(());
  }

  /** How many data rows from `from` on hold the poll. */
  function Count(data: Table, pollId: string, from: nat): nat
    decreases |data| - from
  {
    if from >= |data| then 0
    else (if IsPoll(data[from], pollId, false) then 1 else 0) + Count(data, pollId, from + 1)
  }

  /** Deleting the row of a poll at `k` leaves one row fewer holding it and
      the rows before it in place. */
  lemma {:induction false} DeleteDropsOne(data: Table, pollId: string, k: nat, from: nat)
    requires from <= k < |data| && IsPoll(data[k], pollId, false)
    ensures Count(DeleteRange(data, k, k + 1), pollId, from) == Count(data, pollId, from) - 1
    decreases |data| - from
  {
    var u := DeleteRange(data, k, k + 1);
    if from < k {
      assert u[from] == data[from];
      DeleteDropsOne(data, pollId, k, from + 1);
    } else {
      CountShift(data, u, pollId, k);
    }
  }

  /** Past the deleted row, the rows of the new table are those of the old
      one moved up by one. */
  lemma {:induction false} CountShift(data: Table, u: Table, pollId: string, from: nat)
    requires 0 <= from < |data| && |u| == |data| - 1
    requires forall i :: from <= i < |u| ==> u[i] == data[i + 1]
    ensures Count(u, pollId, from) == Count(data, pollId, from + 1)
    decreases |data| - from
  {
    if from < |u| {
      CountShift(data, u, pollId, from + 1);
    }
  }

  /** A poll whose id is on one row only is gone after its deletion. */
  lemma DeleteRemovesPoll(data: Table, pollId: string)
    requires FindPoll(data, pollId, false, 1).Some? && Count(data, pollId, 1) == 1
    ensures var k := FindPoll(data, pollId, false, 1).value;
      FindPoll(DeleteRange(data, k, k + 1), pollId, false, 1).None?
  {
    var k := FindPoll(data, pollId, false, 1).value;
    var u := DeleteRange(data, k, k + 1);
    DeleteDropsOne(data, pollId, k, 1);
    var f := FindPoll(u, pollId, false, 1);
    if f.Some? {
      CountPositive(u, pollId, 1, f.value);
      assert false;
    }
  }

  /** A row holding the poll counts. */
  lemma {:induction false} CountPositive(data: Table, pollId: string, from: nat, j: nat)
    requires from <= j < |data| && IsPoll(data[j], pollId, false)
    ensures Count(data, pollId, from) >= 1
    decreases j - from
  {
    if from < j {
      CountPositive(data, pollId, from + 1, j);
    }
  }

  /** `resetPollVotes`: only an open poll, and outside development only by
      its creator, has its votes emptied. */
  method ResetVotes(book: Workbook, cache: Cache, isDev: bool, pollId: string, userEmail: string)
    returns (r: Result<()>)
    requires Coherent(book, cache)
    modifies book`tables, cache`sheetData
    ensures Coherent(book, cache)
    ensures var data := old(Contents(book, PollSheet));
      FindPoll(data, pollId, false, 1).None? ==> r == Err(NotFound) && book.tables == old(book.tables)
    ensures var data := old(Contents(book, PollSheet));
      var k := FindPoll(data, pollId, false, 1);
      k.Some? && Cell(data[k.value], 6) != Some(Active) ==>
        r == Err(OnlyActiveReset) && book.tables == old(book.tables)
    ensures var data := old(Contents(book, PollSheet));
      var k := FindPoll(data, pollId, false, 1);
      var name := NameOr(old(Contents(book, "Sigma")), userEmail, userEmail);
      k.Some? && Cell(data[k.value], 6) == Some(Active) && !isDev && Cell(data[k.value], 4) != Some(name) ==>
        r == Err(OnlyCreatorResets) && book.tables == old(book.tables)
    ensures var data := old(Contents(book, PollSheet));
      var k := FindPoll(data, pollId, false, 1);
      var name := NameOr(old(Contents(book, "Sigma")), userEmail, userEmail);
      k.Some? && Cell(data[k.value], 6) == Some(Active) && (isDev || Cell(data[k.value], 4) == Some(name)) ==>
        r == Ok(()) && book.tables == old(book.tables)[PollSheet := WriteRow(data, k.value, 3, [EncodeVotes([])])]
  {
    var sigma := GetParentSheet(book, cache, "Sigma");
    var name := NameOr(sigma, userEmail, userEmail);
    var data := ReadPolls(book, cache);
    var k := FindPollRow(data, pollId, false);
    if k.None? {
      return Err(NotFound);
    }
    var i := k.value;
    if Cell(data[i], 6) != Some(Active) {
      return Err(OnlyActiveReset);
    }
    if !isDev && Cell(data[i], 4) != Some(name) {
      return Err(OnlyCreatorResets);
    }
    WritePollCell(book, cache, i, 3, EncodeVotes([]));
    return Ok(());
  }

  /** After a reset the poll has no votes and is still open. */
  lemma ResetEmpties(data: Table, k: nat)
    requires 1 <= k < |data| && Cell(data[k], 6) == Some(Active)
    ensures var u := WriteRow(data, k, 3, [EncodeVotes([])]);
      VotesOf(u[k]) == Some([]) && Cell(u[k], 6) == Some(Active) && Cell(u[k], 0) == Cell(data[k], 0)
  {
    var u := WriteRow(data, k, 3, [EncodeVotes([])]);
    assert u[k][3] == "{}";
  }

  // ---------------------------------------------------------------------------
  // Listing
  // ---------------------------------------------------------------------------

  /** The data rows with an id, parsed in order; the first row that does
      not parse makes the whole listing fail. */
  function ParseAll(rows: seq<Row>): (r: Result<seq<Poll>>)
    ensures r.Ok? ==> |r.value| <= |rows|
    decreases |rows|
  {
    if rows == [] then Ok([])
    else
      var r := ParseAll(rows[..|rows| - 1]);
      var last := rows[|rows| - 1];
      if r.Err? then r
      else if CellOr(last, 0, "") == "" then r
      else match ParsePollRow(last)
        case Ok(p) => Ok(r.value + [p])
        case Err(e) => Err(e)
  }

  /** Every listed poll has an id. */
  lemma {:induction false} ParseAllIds(rows: seq<Row>)
    requires ParseAll(rows).Ok?
    ensures forall p :: p in ParseAll(rows).value ==> p.id.Some? && p.id.value != ""
    decreases |rows|
  {
    if rows != [] {
      ParseAllIds(rows[..|rows| - 1]);
    }
  }

  predicate IsActive(p: Poll) {
    p.status == Some(Active)
  }

  /** The listing's comparator: open polls first, then newer first, with
      `time` standing for `new Date(createdAt)` in milliseconds. */
  predicate Precedes(a: Poll, b: Poll, time: Option<string> -> int) {
    (IsActive(a) && !IsActive(b)) || (IsActive(a) == IsActive(b) && time(a.createdAt) > time(b.createdAt))
  }

  predicate Sorted(s: seq<Poll>, time: Option<string> -> int) {
    forall i, j :: 0 <= i < j < |s| ==> !Precedes(s[j], s[i], time)
  }

  /** Inserts `x` before the first element that does not strictly precede
      it, so equal polls keep their order. */
  function Insert(x: Poll, s: seq<Poll>, time: Option<string> -> int): (r: seq<Poll>)
    ensures multiset(r) == multiset(s) + multiset{x}
    decreases |s|
  {
    if s == [] then [x]
    else if Precedes(s[0], x, time) then
      assert s == [s[0]] + s[1..];
      [s[0]] + Insert(x, s[1..], time)
    else
      [x] + s
  }

  /** Inserting into a sorted sequence keeps it sorted. */
  lemma {:induction false} InsertSorted(x: Poll, s: seq<Poll>, time: Option<string> -> int)
    requires Sorted(s, time)
    ensures Sorted(Insert(x, s, time), time)
    decreases |s|
  {
    if s != [] && Precedes(s[0], x, time) {
      var rest := Insert(x, s[1..], time);
      InsertSorted(x, s[1..], time);
      forall j | 0 <= j < |rest|
        ensures !Precedes(rest[j], s[0], time)
      {
        assert rest[j] in multiset(rest);
        if rest[j] != x {
          assert rest[j] in multiset(s[1..]);
          var m :| 0 <= m < |s[1..]| && s[1..][m] == rest[j];
          assert s[m + 1] == rest[j];
        }
      }
    } else if s != [] {
      forall j | 0 <= j < |s|
        ensures !Precedes(s[j], x, time)
      {
        if j > 0 {
          assert !Precedes(s[j], s[0], time);
        }
      }
    }
  }

  /** `allPolls.sort(...)`, a stable sort. */
  function SortPolls(s: seq<Poll>, time: Option<string> -> int): (r: seq<Poll>)
    ensures multiset(r) == multiset(s)
    ensures Sorted(r, time)
    decreases |s|
  {
    if s == [] then []
    else
      assert s == [s[0]] + s[1..];
      var rest := SortPolls(s[1..], time);
      InsertSorted(s[0], rest, time);
      Insert(s[0], rest, time)
  }

  /** `getAllActiveRankedChoicePolls`: every poll with an id, open ones
      first and newest first within each group. */
  method ListPolls(book: Workbook, cache: Cache, time: Option<string> -> int) returns (r: Result<seq<Poll>>)
    requires Coherent(book, cache)
    modifies cache`sheetData
    ensures Coherent(book, cache)
    ensures |old(Contents(book, PollSheet))| <= 1 ==> r == Ok([])
    ensures var data := old(Contents(book, PollSheet));
      |data| > 1 ==> (r.Ok? <==> ParseAll(data[1..]).Ok?)
    ensures var data := old(Contents(book, PollSheet));
      |data| > 1 && r.Ok? ==> multiset(r.value) == multiset(ParseAll(data[1..]).value) && Sorted(r.value, time)
  {
    var data := GetParentSheet(book, cache, PollSheet);
    if |data| <= 1 {
      return Ok([]);
    }
    var all := CollectPolls(data);
    if all.Err? {
      return Err(all.msg);
    }
    return Ok(SortPolls(all.value, time));
  }

  /** The loop over the data rows: rows without an id are skipped, and the
      first row that does not parse stops the listing. */
  method CollectPolls(data: Table) returns (r: Result<seq<Poll>>)
    requires |data| > 1
    ensures r == ParseAll(data[1..])
  {
    var all: seq<Poll> := [];
    var i := 1;
    while i < |data|
      invariant 1 <= i <= |data|
      invariant ParseAll(data[1..i]) == Ok(all)
      decreases |data| - i
    {
      ParseAllNext(data, i);
      if CellOr(data[i], 0, "") != "" {
        var p := ParsePollRow(data[i]);
        if p.Err? {
          ParseAllStops(data, i);
          return Err(p.msg);
        }
        all := all + [p.value];
      }
      i := i + 1;
    }
    assert data[1..i] == data[1..];
    return Ok(all);
  }

  /** The listing of one more row. */
  lemma ParseAllNext(data: Table, i: nat)
    requires 1 <= i < |data| && ParseAll(data[1..i]).Ok?
    ensures CellOr(data[i], 0, "") == "" ==> ParseAll(data[1..i + 1]) == ParseAll(data[1..i])
    ensures CellOr(data[i], 0, "") != "" && ParsePollRow(data[i]).Err? ==>
      ParseAll(data[1..i + 1]) == Err(ParsePollRow(data[i]).msg)
    ensures CellOr(data[i], 0, "") != "" && ParsePollRow(data[i]).Ok? ==>
      ParseAll(data[1..i + 1]) == Ok(ParseAll(data[1..i]).value + [ParsePollRow(data[i]).value])
  {
    var rows := data[1..i + 1];
    assert rows[..|rows| - 1] == data[1..i];
    assert rows[|rows| - 1] == data[i];
  }

  /** A row that does not parse fails every longer listing. */
  lemma {:induction false} ParseAllStops(data: Table, i: nat)
    requires 1 <= i < |data| && ParseAll(data[1..i + 1]).Err?
    ensures ParseAll(data[1..]) == ParseAll(data[1..i + 1])
    decreases |data| - i
  {
    if i + 1 < |data| {
      assert data[1..i + 2][..i] == data[1..i + 1];
      ParseAllStops(data, i + 1);
    } else {
      assert data[1..i + 1] == data[1..];
    }
  }
}
