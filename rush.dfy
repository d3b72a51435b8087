/** The rush records of `backend/rush.js`: cached reads of the Rush Index and
    of the per-event recruits and comments tabs, the id allocator, the name
    lists of a recruit (Likes, Dislikes, Met), single-cell updates, recruit
    rows, the comment upsert, the lock flag and the admin settings.

    Every body `backend/rush.js` runs under `rushMutex` is one method here.
    A tab is named by its numeric id given as text (`tabId`), as the routes
    pass it on. */
module Rush {
  import opened Wrappers
  import opened Text
  import opened Dicts
  import opened Sheets
  import opened Json
  import opened Columns
  import opened Scoring

  const RushIndex := "Rush Index"

  const NoSheet := "Sheet not found"
  const NoRecruitsSheet := "Recruits sheet not found"
  const NoCommentsSheet := "Comments sheet not found"
  const CommentMissing := "Comment not found or already deleted."
  const Unauthorized := "UNAUTHORIZED: Only the Rho (Rush Chair) can lock or unlock rush events"
  const EventMissing := "Rush event not found"
  const AddDisabled := "Adding recruits is currently disabled by an administrator."
  const IdColumnMissing := "ID column not found."
  const RecruitMissing := "Recruit not found"
  /** The `TypeError` of reading the header row of a tab with no rows. */
  const NoHeaderRow := "Cannot read properties of undefined"
  /** The `SyntaxError` of `JSON.parse` on a cell that is not a list of names. */
  const BadJson := "Unexpected token in JSON"

  function ColumnMissing(header: string): string {
    "Column \"" + header + "\" not found."
  }

  // ---------------------------------------------------------------------------
  // Tabs and row lookups
  // ---------------------------------------------------------------------------

  /** The title of the tab whose id is `Number(tabId)`. */
  function TabTitle(tabs: seq<Tab>, tabId: string): (r: Option<string>)
    ensures r.Some? ==> exists i :: 0 <= i < |tabs| && tabs[i].title == r.value
  {
    match NumberOf(tabId)
    case Some(n) => TitleOfId(tabs, n)
    case None => None
  }

  /** How a row is found: by `String(r[col]) === String(id)`, or for a
      comment by that on the RecruitID column and `r[author] === name`. */
  datatype Key =
    | ById(col: Option<nat>, id: string)
    | ByPair(recruitCol: Option<nat>, authorCol: Option<nat>, recruitId: string, author: string)

  predicate Keyed(row: Row, k: Key) {
    match k
    case ById(col, id) => FieldText(row, col) == id
    case ByPair(rc, ac, rid, author) => FieldText(row, rc) == rid && Field(row, ac) == Some(author)
  }

  /** `data.findIndex((r, i) => i > 0 && ...)` from row `from` on. */
  function FindFrom(data: Table, k: Key, from: nat): (r: Option<nat>)
    ensures r.Some? ==> from <= r.value < |data| && Keyed(data[r.value], k)
    ensures r.Some? ==> forall j :: from <= j < r.value ==> !Keyed(data[j], k)
    ensures r.None? ==> forall j :: from <= j < |data| ==> !Keyed(data[j], k)
    decreases |data| - from
  {
    if from >= |data| then None
    else if Keyed(data[from], k) then Some(from)
    else FindFrom(data, k, from + 1)
  }

  /** The first data row (never the header) with key `k`. */
  function Find(data: Table, k: Key): (r: Option<nat>)
    ensures r.Some? ==> 1 <= r.value < |data| && Keyed(data[r.value], k)
    ensures r.Some? ==> forall j :: 1 <= j < r.value ==> !Keyed(data[j], k)
    ensures r.None? ==> forall j :: 1 <= j < |data| ==> !Keyed(data[j], k)
  {
    FindFrom(data, k, 1)
  }

  // ---------------------------------------------------------------------------
  // Cached reads
  // ---------------------------------------------------------------------------

  /** What `getRecruitsData` and `getCommentsData` give for a tab: the
      cached rows, [] when no tab has that id, or the rows of the tab. */
  function TabView(book: Workbook, cached: map<string, Table>, tabId: string): Result<Table>
    reads book
  {
    if tabId in cached then Ok(cached[tabId])
    else match TabTitle(book.tabs, tabId)
      case None => Ok([])
      case Some(title) => if title in book.tables then Ok(book.tables[title]) else Err(ServiceError)
  }

  /** The cache after such a read: a successful read of an existing tab is
      kept. */
  function AfterView(book: Workbook, cached: map<string, Table>, tabId: string): map<string, Table>
    reads book
  {
    if tabId !in cached && TabTitle(book.tabs, tabId).Some? && TabTitle(book.tabs, tabId).value in book.tables
    then cached[tabId := book.tables[TabTitle(book.tabs, tabId).value]]
    else cached
  }

  /** Every cached table of a tab is what the tab holds. */
  predicate TabsCoherent(book: Workbook, cached: map<string, Table>)
    reads book
  {
    forall k :: k in cached ==>
      TabTitle(book.tabs, k).Some? && TabTitle(book.tabs, k).value in book.tables
      && cached[k] == book.tables[TabTitle(book.tabs, k).value]
  }

  /** A coherent cache gives what a fresh read gives, and stays coherent. */
  lemma ViewCoherent(book: Workbook, cached: map<string, Table>, tabId: string)
    requires TabsCoherent(book, cached)
    ensures TabsCoherent(book, AfterView(book, cached, tabId))
    ensures TabView(book, cached, tabId) == TabView(book, map[], tabId)
  {
  }

  /** `getRecruitsData`. */
  method GetRecruitsData(rush: Workbook, cache: Cache, tabId: string) returns (r: Result<Table>)
    modifies cache`recruitsData
    ensures r == TabView(rush, old(cache.recruitsData), tabId)
    ensures cache.recruitsData == AfterView(rush, old(cache.recruitsData), tabId)
  {
    if tabId in cache.recruitsData {
      return Ok(cache.recruitsData[tabId]);
    }
    var title := TabTitle(rush.tabs, tabId);
    if title.None? {
      return Ok([]);
    }
    if title.value !in rush.tables {
      return Err(ServiceError);
    }
    var rows := rush.tables[title.value];
    cache.recruitsData := cache.recruitsData[tabId := rows];
    return Ok(rows);
  }

  /** `getCommentsData`. */
  method GetCommentsData(rush: Workbook, cache: Cache, tabId: string) returns (r: Result<Table>)
    modifies cache`commentsData
    ensures r == TabView(rush, old(cache.commentsData), tabId)
    ensures cache.commentsData == AfterView(rush, old(cache.commentsData), tabId)
  {
    if tabId in cache.commentsData {
      return Ok(cache.commentsData[tabId]);
    }
    var title := TabTitle(rush.tabs, tabId);
    if title.None? {
      return Ok([]);
    }
    if title.value !in rush.tables {
      return Err(ServiceError);
    }
    var rows := rush.tables[title.value];
    cache.commentsData := cache.commentsData[tabId := rows];
    return Ok(rows);
  }

  /** `getRushIndexData`: the cached rows, or the rows of the Rush Index,
      then cached. */
  method GetRushIndexData(rush: Workbook, cache: Cache) returns (r: Result<Table>)
    modifies cache`rushIndexData
    ensures old(cache.rushIndexData).Some? ==>
      r == Ok(old(cache.rushIndexData).value) && cache.rushIndexData == old(cache.rushIndexData)
    ensures old(cache.rushIndexData).None? && RushIndex in rush.tables ==>
      r == Ok(rush.tables[RushIndex]) && cache.rushIndexData == Some(rush.tables[RushIndex])
    ensures old(cache.rushIndexData).None? && RushIndex !in rush.tables ==>
      r == Err(ServiceError) && cache.rushIndexData.None?
  {
    if cache.rushIndexData.Some? {
      return Ok(cache.rushIndexData.value);
    }
    if RushIndex !in rush.tables {
      return Err(ServiceError);
    }
    cache.rushIndexData := Some(rush.tables[RushIndex]);
    return Ok(rush.tables[RushIndex]);
  }

  /** `getRecruitsForRush`: the recruits of the rows `getRecruitsData`
      gives. */
  method GetRecruitsForRush(rush: Workbook, cache: Cache, tabId: string) returns (r: Result<seq<Recruit>>)
    modifies cache`recruitsData
    ensures var v := TabView(rush, old(cache.recruitsData), tabId);
      r == (if v.Ok? then Ok(RecruitsOf(v.value)) else Err(v.msg))
    ensures cache.recruitsData == AfterView(rush, old(cache.recruitsData), tabId)
  {
    var data := GetRecruitsData(rush, cache, tabId);
    if data.Err? {
      return Err(data.msg);
    }
    return Ok(RecruitsOf(data.value));
  }

  // ---------------------------------------------------------------------------
  // The id allocator
  // ---------------------------------------------------------------------------

  /** `Number(r[0])` when it is a whole number. */
  function IdOf(row: Row): Option<nat> {
    NumberOf(CellText(row, 0))
  }

  /** The largest numeric id in column 0 of the data rows of `data` from row
      `from` on, 0 when there is none. */
  function MaxIdFrom(data: Table, from: nat): (m: nat)
    ensures forall i :: from <= i < |data| && IdOf(data[i]).Some? ==> IdOf(data[i]).value <= m
    ensures m == 0 || exists i :: from <= i < |data| && IdOf(data[i]) == Some(m)
    decreases |data| - from
  {
    if from >= |data| then 0
    else
      var rest := MaxIdFrom(data, from + 1);
      match IdOf(data[from])
      case Some(n) => if n > rest then n else rest
      case None => rest
  }

  /** `data.slice(1).reduce(...)`: the largest id over the data rows. */
  function MaxId(data: Table): (m: nat)
    ensures forall i :: 1 <= i < |data| && IdOf(data[i]).Some? ==> IdOf(data[i]).value <= m
    ensures m == 0 || exists i :: 1 <= i < |data| && IdOf(data[i]) == Some(m)
  {
    MaxIdFrom(data, 1)
  }

  /** The counter `lastId_<tabId>`, 0 when it is not cached. */
  function Counter(lastId: map<string, int>, tabId: string): int {
    if tabId in lastId then lastId[tabId] else 0
  }

  /** `getNextAvailableId`: the cached counter plus one; with no counter, one
      more than the largest id on the tab. The result is cached, so the next
      call returns one more. */
  method GetNextAvailableId(rush: Workbook, cache: Cache, tabId: string) returns (r: Result<int>)
    modifies cache`lastId, cache`recruitsData
    ensures var c := Counter(old(cache.lastId), tabId);
      c != 0 ==> r == Ok(c + 1) && cache.recruitsData == old(cache.recruitsData)
    ensures var c := Counter(old(cache.lastId), tabId);
      var v := TabView(rush, old(cache.recruitsData), tabId);
      c == 0 ==> (r == (if v.Ok? then Ok(MaxId(v.value) + 1) else Err(v.msg))
        && cache.recruitsData == AfterView(rush, old(cache.recruitsData), tabId))
    ensures r.Ok? ==> (r.value > Counter(old(cache.lastId), tabId)
      && cache.lastId == old(cache.lastId)[tabId := r.value])
    ensures r.Err? ==> cache.lastId == old(cache.lastId)
  {
    var last := Counter(cache.lastId, tabId);
    if last == 0 {
      var data := GetRecruitsData(rush, cache, tabId);
      if data.Err? {
        return Err(data.msg);
      }
      last := MaxId(data.value);
    }
    var next := last + 1;
    cache.lastId := cache.lastId[tabId := next];
    return Ok(next);
  }

  /** The id allocated from the tab differs, as written, from the column-0
      text of every data row on it. */
  lemma AllocatedIdFresh(data: Table, i: nat)
    requires 1 <= i < |data|
    ensures CellText(data[i], 0) != IntText(MaxId(data) + 1)
  {
    NumberOfNatToString(MaxId(data) + 1);
  }

  // ---------------------------------------------------------------------------
  // The rush mutex around adding a recruit
  // ---------------------------------------------------------------------------

  /** The state of a non-reentrant mutex. */
  datatype Mutex = Mutex(held: bool)

  /** `await mutex.acquire()`: the held lock, or `None` when the caller
      would wait for the holder to release it. */
  function Acquire(m: Mutex): (r: Option<Mutex>)
    ensures r.Some? <==> !m.held
    ensures r.Some? ==> r.value.held
  {
    if m.held then None else Some(Mutex(true))
  }

  function Release(m: Mutex): (r: Mutex)
    ensures !r.held
  {
    Mutex(false)
  }

  /** How a critical section ends: it completes with the lock in a final
      state, or waits forever on a lock it already holds. */
  datatype Run = Done(lock: Mutex) | Waiting(lock: Mutex)

  /** The lock steps of `addOrUpdateRecruitWithPhoto` as written: it takes
      `rushMutex`, and on the new-recruit path calls `getNextAvailableId`,
      which takes `rushMutex` again before either is released. */
  function AddRecruitLocksAsWritten(m: Mutex, isNew: bool): (r: Run)
    ensures m.held ==> r == Waiting(m)
    ensures !isNew && !m.held ==> r == Done(Mutex(false))
    ensures isNew ==> r.Waiting? && r.lock.held
  {
    match Acquire(m)
    case None => Waiting(m)
    case Some(outer) =>
      if !isNew then Done(Release(outer))
      else match Acquire(outer)
        case None => Waiting(outer)
        case Some(inner) => Done(Release(Release(inner)))
  }

  /** Adding a new recruit never completes, whatever the lock was, and it
      leaves the mutex held, so every later rush operation waits too. */
  lemma AddNewRecruitDeadlocks(m: Mutex)
    ensures AddRecruitLocksAsWritten(m, true).Waiting?
    ensures AddRecruitLocksAsWritten(m, true).lock.held
    ensures Acquire(AddRecruitLocksAsWritten(m, true).lock).None?
  {
  }

  /** The lock steps with the allocation running inside the section the
      caller already holds, as `AddOrUpdateRecruit` below does. */
  function AddRecruitLocks(m: Mutex): (r: Run)
    ensures r.Done? <==> !m.held
    ensures r.Done? ==> !r.lock.held
    ensures r.Waiting? ==> r.lock == m
  {
    match Acquire(m)
    case None => Waiting(m)
    case Some(outer) => Done(Release(outer))
  }

  /** With the lock free, both paths of the corrected operation complete
      and release it. */
  lemma AddRecruitCompletes(m: Mutex)
    requires !m.held
    ensures AddRecruitLocks(m) == Done(Mutex(false))
    ensures AddRecruitLocksAsWritten(m, false) == AddRecruitLocks(m)
  {
  }

  // ---------------------------------------------------------------------------
  // Single-cell writes
  // ---------------------------------------------------------------------------

  /** One cell update: zero-based row and column, and the text written. */
  datatype CellWrite = CellWrite(row: nat, col: nat, value: string)

  /** The table after the writes, in order. */
  function ApplyWrites(t: Table, ws: seq<CellWrite>): Table
    decreases |ws|
  {
    if ws == [] then t else ApplyWrites(WriteRow(t, ws[0].row, ws[0].col, [ws[0].value]), ws[1..])
  }

  lemma ApplyOne(t: Table, w: CellWrite)
    ensures ApplyWrites(t, [w]) == WriteRow(t, w.row, w.col, [w.value])
  {
    assert ApplyWrites(t, [w]) == ApplyWrites(WriteRow(t, w.row, w.col, [w.value]), []);
  }

  lemma ApplyTwo(t: Table, w: CellWrite, w2: CellWrite)
    ensures ApplyWrites(t, [w, w2]) == WriteRow(WriteRow(t, w.row, w.col, [w.value]), w2.row, w2.col, [w2.value])
  {
    assert [w, w2][1..] == [w2];
    ApplyOne(WriteRow(t, w.row, w.col, [w.value]), w2);
  }

  /** A `values.update` of the range `'<title>'!<column><row + 1>`: the
      service reads the address and writes the one cell it names. */
  method WriteCell(book: Workbook, title: string, col: nat, row: nat, value: string) returns (ok: bool)
    modifies book`tables
    ensures ok == (title in old(book.tables))
    ensures ok ==> book.tables == old(book.tables)[title := WriteRow(old(book.tables)[title], row, col, [value])]
    ensures !ok ==> book.tables == old(book.tables)
  {
    var address := ParseCellRef(CellRef(col, row));
    ParseCellRefOf(col, row);
    ok := book.Update(title, address.value.row, address.value.col, [value]);
  }

  /** The updates of one operation, one after the other. */
  method Perform(book: Workbook, title: string, ws: seq<CellWrite>)
    requires title in book.tables
    modifies book`tables
    ensures book.tables == old(book.tables)[title := ApplyWrites(old(book.tables)[title], ws)]
    decreases |ws|
  {
    if ws != [] {
      var _ := WriteCell(book, title, ws[0].col, ws[0].row, ws[0].value);
      Perform(book, title, ws[1..]);
    }
  }

  /** Writing a cell leaves every other row, and every other cell of its
      row, as it was. */
  lemma WriteRowElsewhere(t: Table, i: nat, c: nat, v: string)
    requires i < |t|
    ensures var u := WriteRow(t, i, c, [v]);
      |u| == |t| && (forall k :: 0 <= k < |t| && k != i ==> u[k] == t[k])
      && |u[i]| >= |t[i]| && c < |u[i]| && u[i][c] == v
      && (forall j :: 0 <= j < |t[i]| && j != c ==> u[i][j] == t[i][j])
  {
    var u := WriteRow(t, i, c, [v]);
    assert u[i][c + 0] == v;
  }

  // ---------------------------------------------------------------------------
  // Name lists
  // ---------------------------------------------------------------------------

  /** `arr.indexOf(user)`, then `push` when it is absent or `splice(i, 1)`:
      only the first occurrence goes. */
  function Toggle(xs: seq<string>, user: string): (r: seq<string>)
    ensures user !in xs ==> r == xs + [user]
    ensures user in xs ==> multiset(r) == multiset(xs) - multiset{user}
  {
    match FirstIndex(xs, user)
    case None => xs + [user]
    case Some(i) =>
      assert xs == xs[..i] + [user] + xs[i + 1..];
      xs[..i] + xs[i + 1..]
  }

  /** With the user listed at most once, the toggle flips whether they are
      listed and keeps every other name. */
  lemma ToggleFlips(xs: seq<string>, user: string)
    requires multiset(xs)[user] <= 1
    ensures user in Toggle(xs, user) <==> user !in xs
    ensures forall u :: u != user ==> (u in Toggle(xs, user) <==> u in xs)
    ensures multiset(Toggle(xs, user))[user] <= 1
  {
    var r := Toggle(xs, user);
    assert user in r <==> multiset(r)[user] > 0;
    forall u | u != user
      ensures u in r <==> u in xs
    {
      assert u in r <==> multiset(r)[u] > 0;
      assert u in xs <==> multiset(xs)[u] > 0;
    }
  }

  /** Toggling twice gives an unlisted user's list back. */
  lemma ToggleTwice(xs: seq<string>, user: string)
    requires user !in xs
    ensures Toggle(Toggle(xs, user), user) == xs
  {
    var ys := xs + [user];
    assert FirstIndex(ys, user) == Some(|xs|);
    assert ys[..|xs|] == xs;
  }

  /** `opposite.filter((u) => u !== user)`. */
  function Remove(xs: seq<string>, user: string): (r: seq<string>)
    ensures forall u :: u in r <==> u in xs && u != user
    ensures user !in xs ==> r == xs
    decreases |xs|
  {
    if xs == [] then []
    else (if xs[0] == user then [] else [xs[0]]) + Remove(xs[1..], user)
  }

  /** The list in column `c` of a row: `JSON.parse(row[c] || '[]')`. */
  function ListAt(row: Row, c: Option<nat>): Option<seq<string>> {
    DecodeNames(FieldOr(row, c, "[]"))
  }

  /** A list written into a cell reads back as that list. */
  lemma ListAtWritten(t: Table, i: nat, c: nat, xs: seq<string>)
    requires i < |t|
    ensures ListAt(WriteRow(t, i, c, [EncodeNames(xs)])[i], Some(c)) == Some(xs)
  {
    WriteRowElsewhere(t, i, c, EncodeNames(xs));
    ListAtEncoded(WriteRow(t, i, c, [EncodeNames(xs)])[i], c, xs);
  }

  /** A cell holding an encoded list reads as that list. */
  lemma ListAtEncoded(row: Row, c: nat, xs: seq<string>)
    requires c < |row| && row[c] == EncodeNames(xs)
    ensures ListAt(row, Some(c)) == Some(xs)
  {
    DecodeEncodeNames(xs);
  }

  /** Two cells of one row written one after the other, in different
      columns: both hold what was written, nothing else changes. */
  lemma WriteTwoCells(t: Table, i: nat, c: nat, v: string, o: nat, v2: string)
    requires i < |t| && c != o
    ensures var u := WriteRow(WriteRow(t, i, c, [v]), i, o, [v2]);
      |u| == |t| && (forall k :: 0 <= k < |t| && k != i ==> u[k] == t[k])
      && |u[i]| >= |t[i]| && c < |u[i]| && u[i][c] == v && o < |u[i]| && u[i][o] == v2
      && (forall j :: 0 <= j < |t[i]| && j != c && j != o ==> u[i][j] == t[i][j])
  {
    var t1 := WriteRow(t, i, c, [v]);
    WriteRowElsewhere(t, i, c, v);
    WriteRowElsewhere(t1, i, o, v2);
  }

  function Opposite(column: string): string {
    if column == "Likes" then "Dislikes" else "Likes"
  }

  /** The column the toggle also clears the user from: Dislikes for Likes,
      Likes for Dislikes, none for any other column. */
  function OppositeColumn(headers: Row, column: string): Option<nat> {
    if column == "Likes" || column == "Dislikes" then FirstIndex(headers, Opposite(column)) else None
  }

  /** What an operation on one recruit does: no row has the id, the cells
      it writes, or an error after the writes issued before it. */
  datatype Plan = NotFound | Writes(ws: seq<CellWrite>) | Fails(done: seq<CellWrite>, msg: string)

  function Planned(p: Plan): seq<CellWrite> {
    match p
    case NotFound => []
    case Writes(ws) => ws
    case Fails(done, _) => done
  }

  /** `{ success }` of the operation, or what it throws. */
  function Reply(p: Plan): Result<bool> {
    match p
    case NotFound => Ok(false)
    case Writes(_) => Ok(true)
    case Fails(_, msg) => Err(msg)
  }

  /** The data row of a recruit: `String(r[ID]) === String(recruitId)`. */
  function RecruitRow(data: Table, recruitId: string): Option<nat>
    requires data != []
  {
    Find(data, ById(FirstIndex(data[0], "ID"), recruitId))
  }

  /** The decisions of `toggleUserInJsonArray` on the row it found: the
      target list must parse and the target column exist; the opposite
      list, when there is one, is parsed after the target cell is written. */
  function ToggleRow(row: Row, i: nat, target: Option<nat>, opp: Option<nat>, user: string): (p: Plan)
    ensures !p.NotFound?
    ensures forall w :: w in Planned(p) ==> w.row == i
    ensures ListAt(row, target).None? ==> p == Fails([], BadJson)
    ensures p.Writes? ==> target.Some? && ListAt(row, target).Some?
    ensures p.Writes? ==> |p.ws| == (if opp.Some? then 2 else 1) && p.ws[0].col == target.value
    ensures p.Writes? && opp.Some? ==> p.ws[1].col == opp.value && ListAt(row, opp).Some?
  {
    match ListAt(row, target)
    case None => Fails([], BadJson)
    case Some(xs) =>
      if target.None? then Fails([], ServiceError)
      else
        var w := CellWrite(i, target.value, EncodeNames(Toggle(xs, user)));
        match opp
        case None => Writes([w])
        case Some(o) =>
          match ListAt(row, opp)
          case None => Fails([w], BadJson)
          case Some(ys) => Writes([w, CellWrite(i, o, EncodeNames(Remove(ys, user)))])
  }

  /** The decisions of `toggleUserInJsonArray` on the rows it read. */
  function TogglePlan(data: Table, column: string, recruitId: string, user: string): (p: Plan)
    ensures data == [] ==> p == Fails([], NoHeaderRow)
    ensures data != [] ==> (p.NotFound? <==> RecruitRow(data, recruitId).None?)
    ensures forall w :: w in Planned(p) ==>
      data != [] && RecruitRow(data, recruitId) == Some(w.row) && 1 <= w.row < |data|
  {
    if data == [] then Fails([], NoHeaderRow)
    else
      match RecruitRow(data, recruitId)
      case None => NotFound
      case Some(i) => ToggleRow(data[i], i, FirstIndex(data[0], column), OppositeColumn(data[0], column), user)
  }

  /** The opposite column is never the target column. */
  lemma OppositeDiffers(headers: Row, column: string)
    requires OppositeColumn(headers, column).Some? && FirstIndex(headers, column).Some?
    ensures OppositeColumn(headers, column).value != FirstIndex(headers, column).value
  {
  }

  /** What the write of a toggle with no opposite list leaves. */
  lemma ToggleRowOutcomeOne(data: Table, i: nat, c: nat, user: string)
    requires i < |data| && ToggleRow(data[i], i, Some(c), None, user).Writes?
    ensures var t := ApplyWrites(data, ToggleRow(data[i], i, Some(c), None, user).ws);
      |t| == |data| && (forall k :: 0 <= k < |data| && k != i ==> t[k] == data[k])
      && ListAt(data[i], Some(c)).Some?
      && ListAt(t[i], Some(c)) == Some(Toggle(ListAt(data[i], Some(c)).value, user))
      && |t[i]| >= |data[i]|
      && (forall j :: 0 <= j < |data[i]| && j != c ==> t[i][j] == data[i][j])
  {
    var xs := ListAt(data[i], Some(c)).value;
    var w := CellWrite(i, c, EncodeNames(Toggle(xs, user)));
    assert ToggleRow(data[i], i, Some(c), None, user).ws == [w];
    ApplyOne(data, w);
    WriteRowElsewhere(data, i, c, w.value);
    ListAtWritten(data, i, c, Toggle(xs, user));
  }

  /** What the two writes of a toggle with an opposite list leave. */
  lemma ToggleRowOutcomeTwo(data: Table, i: nat, c: nat, o: nat, user: string)
    requires i < |data| && ToggleRow(data[i], i, Some(c), Some(o), user).Writes? && o != c
    ensures var t := ApplyWrites(data, ToggleRow(data[i], i, Some(c), Some(o), user).ws);
      |t| == |data| && (forall k :: 0 <= k < |data| && k != i ==> t[k] == data[k])
      && ListAt(data[i], Some(c)).Some? && ListAt(data[i], Some(o)).Some?
      && ListAt(t[i], Some(c)) == Some(Toggle(ListAt(data[i], Some(c)).value, user))
      && ListAt(t[i], Some(o)) == Some(Remove(ListAt(data[i], Some(o)).value, user))
      && |t[i]| >= |data[i]|
      && (forall j :: 0 <= j < |data[i]| && j != c && j != o ==> t[i][j] == data[i][j])
  {
    var xs := ListAt(data[i], Some(c)).value;
    var ys := ListAt(data[i], Some(o)).value;
    var w := CellWrite(i, c, EncodeNames(Toggle(xs, user)));
    var w2 := CellWrite(i, o, EncodeNames(Remove(ys, user)));
    assert ToggleRow(data[i], i, Some(c), Some(o), user).ws == [w, w2];
    ApplyTwo(data, w, w2);
    var t := WriteRow(WriteRow(data, i, c, [w.value]), i, o, [w2.value]);
    WriteTwoCells(data, i, c, w.value, o, w2.value);
    ListAtEncoded(t[i], c, Toggle(xs, user));
    ListAtEncoded(t[i], o, Remove(ys, user));
  }

  /** What a successful toggle leaves: only the recruit's row changes; its
      target list is the toggled list, the opposite list (for Likes and
      Dislikes) no longer holds the user, and every other cell is kept. */
  lemma ToggleOutcome(data: Table, column: string, recruitId: string, user: string)
    requires TogglePlan(data, column, recruitId, user).Writes?
    ensures data != [] && RecruitRow(data, recruitId).Some? && FirstIndex(data[0], column).Some?
    ensures var i := RecruitRow(data, recruitId).value;
      var c := FirstIndex(data[0], column).value;
      var o := OppositeColumn(data[0], column);
      var t := ApplyWrites(data, TogglePlan(data, column, recruitId, user).ws);
      |t| == |data| && (forall k :: 0 <= k < |data| && k != i ==> t[k] == data[k])
      && ListAt(data[i], Some(c)).Some?
      && ListAt(t[i], Some(c)) == Some(Toggle(ListAt(data[i], Some(c)).value, user))
      && (o.Some? ==> ListAt(data[i], o).Some? && ListAt(t[i], o) == Some(Remove(ListAt(data[i], o).value, user)))
      && |t[i]| >= |data[i]|
      && (forall j :: 0 <= j < |data[i]| && j != c && Some(j) != o ==> t[i][j] == data[i][j])
  {
    var i := RecruitRow(data, recruitId).value;
    var o := OppositeColumn(data[0], column);
    var target := FirstIndex(data[0], column);
    assert TogglePlan(data, column, recruitId, user) == ToggleRow(data[i], i, target, o, user);
    if o.Some? {
      OppositeDiffers(data[0], column);
      ToggleRowOutcomeTwo(data, i, target.value, o.value, user);
    } else {
      ToggleRowOutcomeOne(data, i, target.value, user);
    }
  }

  /** Met has no opposite list: `addMet` is the toggle on the Met column. */
  lemma MetHasNoOpposite(headers: Row)
    ensures OppositeColumn(headers, "Met").None?
  {
  }

  /** `toggleUserInJsonArray` (and through it `addLike` and `addDislike`):
      the cache entry of the tab is dropped, the rows are read again, the
      plan's cells are written and the entry is dropped once more on
      success. An early return or a failure leaves the fresh read cached. */
  method ToggleUserInJsonArray(rush: Workbook, cache: Cache, tabId: string, recruitId: string, column: string, user: string)
    returns (r: Result<bool>)
    modifies rush`tables, cache`recruitsData
    ensures TabTitle(rush.tabs, tabId).None? ==>
      r == Err(NoSheet) && rush.tables == old(rush.tables) && cache.recruitsData == old(cache.recruitsData)
    ensures var title := TabTitle(rush.tabs, tabId);
      title.Some? && title.value !in old(rush.tables) ==>
        r == Err(ServiceError) && rush.tables == old(rush.tables)
        && cache.recruitsData == old(cache.recruitsData) - {tabId}
    ensures var title := TabTitle(rush.tabs, tabId);
      title.Some? && title.value in old(rush.tables) ==>
        var data := old(rush.tables)[title.value];
        var p := TogglePlan(data, column, recruitId, user);
        r == Reply(p)
        && rush.tables == old(rush.tables)[title.value := ApplyWrites(data, Planned(p))]
        && cache.recruitsData == (if p.Writes? then old(cache.recruitsData) - {tabId} else old(cache.recruitsData)[tabId := data])
  {
    var title := TabTitle(rush.tabs, tabId);
    if title.None? {
      return Err(NoSheet);
    }
    cache.recruitsData := cache.recruitsData - {tabId};
    var read := GetRecruitsData(rush, cache, tabId);
    if title.value !in rush.tables {
      assert read == Err(ServiceError);
      return Err(read.msg);
    }
    var data := rush.tables[title.value];
    assert read == Ok(data);
    PutAfterDrop(old(cache.recruitsData), tabId, data);
    assert cache.recruitsData == old(cache.recruitsData)[tabId := data];
    var p := TogglePlan(data, column, recruitId, user);
    Perform(rush, title.value, Planned(p));
    if p.Writes? {
      cache.recruitsData := cache.recruitsData - {tabId};
      DropAfterPut(old(cache.recruitsData), tabId, data);
    }
    r := Reply(p);
  }

  /** `addMet`: the same toggle on the Met column, with no opposite list. */
  method AddMet(rush: Workbook, cache: Cache, tabId: string, recruitId: string, user: string) returns (r: Result<bool>)
    modifies rush`tables, cache`recruitsData
    ensures TabTitle(rush.tabs, tabId).None? ==>
      r == Err(NoSheet) && rush.tables == old(rush.tables) && cache.recruitsData == old(cache.recruitsData)
    ensures var title := TabTitle(rush.tabs, tabId);
      title.Some? && title.value in old(rush.tables) ==>
        var data := old(rush.tables)[title.value];
        var p := TogglePlan(data, "Met", recruitId, user);
        r == Reply(p) && rush.tables == old(rush.tables)[title.value := ApplyWrites(data, Planned(p))]
  {
    r := ToggleUserInJsonArray(rush, cache, tabId, recruitId, "Met", user);
  }

  // ---------------------------------------------------------------------------
  // Single-cell update of a recruit
  // ---------------------------------------------------------------------------

  /** The decisions of `updateCell` on the rows it read. */
  function UpdatePlan(data: Table, column: string, recruitId: string, value: string): (p: Plan)
    ensures data == [] ==> p == Fails([], NoHeaderRow)
    ensures data != [] && FirstIndex(data[0], column).None? ==> p == Fails([], ColumnMissing(column))
    ensures p.Fails? ==> p.done == []
    ensures p.Writes? ==> data != [] && |p.ws| == 1 && p.ws[0].value == value
    ensures p.Writes? ==> RecruitRow(data, recruitId) == Some(p.ws[0].row) && FirstIndex(data[0], column) == Some(p.ws[0].col)
  {
    if data == [] then Fails([], NoHeaderRow)
    else
      match FirstIndex(data[0], column)
      case None => Fails([], ColumnMissing(column))
      case Some(c) =>
        match RecruitRow(data, recruitId)
        case None => NotFound
        case Some(i) => Writes([CellWrite(i, c, value)])
  }

  /** A successful update writes the value into the recruit's cell under
      the header and changes nothing else. */
  lemma UpdateCellOutcome(data: Table, column: string, recruitId: string, value: string)
    requires UpdatePlan(data, column, recruitId, value).Writes?
    ensures data != [] && RecruitRow(data, recruitId).Some? && FirstIndex(data[0], column).Some?
    ensures var i := RecruitRow(data, recruitId).value;
      var c := FirstIndex(data[0], column).value;
      var t := ApplyWrites(data, UpdatePlan(data, column, recruitId, value).ws);
      |t| == |data| && (forall k :: 0 <= k < |data| && k != i ==> t[k] == data[k])
      && |t[i]| >= |data[i]| && c < |t[i]| && t[i][c] == value
      && (forall j :: 0 <= j < |data[i]| && j != c ==> t[i][j] == data[i][j])
  {
    var i := RecruitRow(data, recruitId).value;
    var c := FirstIndex(data[0], column).value;
    ApplyOne(data, CellWrite(i, c, value));
    WriteRowElsewhere(data, i, c, value);
  }

  /** An update that finds no row leaves no data row with that id. */
  lemma UpdateCellNotFound(data: Table, column: string, recruitId: string, value: string)
    requires UpdatePlan(data, column, recruitId, value) == NotFound
    ensures data != [] && forall k :: 1 <= k < |data| ==> FieldText(data[k], FirstIndex(data[0], "ID")) != recruitId
  {
  }

  /** `updateCell` (and `updateRecruitTier`, its call on the Tier column). */
  method UpdateCell(rush: Workbook, cache: Cache, tabId: string, recruitId: string, column: string, value: string)
    returns (r: Result<bool>)
    modifies rush`tables, cache`recruitsData
    ensures TabTitle(rush.tabs, tabId).None? ==>
      r == Err(NoSheet) && rush.tables == old(rush.tables) && cache.recruitsData == old(cache.recruitsData)
    ensures var title := TabTitle(rush.tabs, tabId);
      title.Some? && title.value !in old(rush.tables) ==>
        r == Err(ServiceError) && rush.tables == old(rush.tables)
        && cache.recruitsData == old(cache.recruitsData) - {tabId}
    ensures var title := TabTitle(rush.tabs, tabId);
      title.Some? && title.value in old(rush.tables) ==>
        var data := old(rush.tables)[title.value];
        var p := UpdatePlan(data, column, recruitId, value);
        r == Reply(p)
        && rush.tables == old(rush.tables)[title.value := ApplyWrites(data, Planned(p))]
        && cache.recruitsData == (if p.Writes? then old(cache.recruitsData) - {tabId} else old(cache.recruitsData)[tabId := data])
  {
    var title := TabTitle(rush.tabs, tabId);
    if title.None? {
      return Err(NoSheet);
    }
    cache.recruitsData := cache.recruitsData - {tabId};
    var read := GetRecruitsData(rush, cache, tabId);
    if title.value !in rush.tables {
      assert read == Err(ServiceError);
      return Err(read.msg);
    }
    var data := rush.tables[title.value];
    assert read == Ok(data);
    PutAfterDrop(old(cache.recruitsData), tabId, data);
    assert cache.recruitsData == old(cache.recruitsData)[tabId := data];
    var p := UpdatePlan(data, column, recruitId, value);
    Perform(rush, title.value, Planned(p));
    if p.Writes? {
      cache.recruitsData := cache.recruitsData - {tabId};
      DropAfterPut(old(cache.recruitsData), tabId, data);
    }
    r := Reply(p);
  }

  // ---------------------------------------------------------------------------
  // Deleting a found row
  // ---------------------------------------------------------------------------

  /** No two data rows share the key. */
  predicate AtMostOne(t: Table, k: Key) {
    forall a, b :: 1 <= a < b < |t| && Keyed(t[a], k) ==> !Keyed(t[b], k)
  }

  /** Deleting the row found for a key that no other row holds leaves no
      row with that key; the rows before it stay and the rows after it move
      up by one. */
  lemma DeleteFound(data: Table, k: Key)
    requires AtMostOne(data, k) && Find(data, k).Some?
    ensures var i := Find(data, k).value;
      var t := DeleteRange(data, i, i + 1);
      Find(t, k).None? && |t| == |data| - 1
      && (forall j :: 0 <= j < i ==> t[j] == data[j])
      && (forall j :: i <= j < |t| ==> t[j] == data[j + 1])
  {
    var i := Find(data, k).value;
    var t := DeleteRange(data, i, i + 1);
    forall j | 1 <= j < |t|
      ensures !Keyed(t[j], k)
    {
      if j >= i {
        assert t[j] == data[j + 1];
      }
    }
  }

  /** What `deleteComment` and `deleteRecruit` return when they complete. */
  datatype Outcome = Success | Failure(error: string)

  /** The title of a tab leads to an id, and with distinct ids that id leads
      back to the title. */
  lemma TitleHasId(tabs: seq<Tab>, tabId: string)
    requires TabTitle(tabs, tabId).Some?
    ensures IdOfTitle(tabs, TabTitle(tabs, tabId).value).Some?
    ensures DistinctIds(tabs) ==>
      TitleOfId(tabs, IdOfTitle(tabs, TabTitle(tabs, tabId).value).value) == TabTitle(tabs, tabId)
  {
    if DistinctIds(tabs) {
      TitleOfIdOfTitle(tabs, TabTitle(tabs, tabId).value);
    }
  }

  /** `deleteRecruit`: the header is read through the cache, the rows again
      from the sheet, and the first data row with the id is deleted. */
  method DeleteRecruit(rush: Workbook, cache: Cache, tabId: string, recruitId: string) returns (r: Result<Outcome>)
    modifies rush`tables, cache`recruitsData
    ensures var v := old(TabView(rush, cache.recruitsData, tabId));
      v.Err? ==> r == Err(v.msg) && rush.tables == old(rush.tables)
    ensures var v := old(TabView(rush, cache.recruitsData, tabId));
      v == Ok([]) ==> r == Err(NoHeaderRow) && rush.tables == old(rush.tables)
    ensures var v := old(TabView(rush, cache.recruitsData, tabId));
      v.Ok? && v.value != [] && FirstIndex(v.value[0], "ID").None? ==>
        r == Err(IdColumnMissing) && rush.tables == old(rush.tables)
    ensures var v := old(TabView(rush, cache.recruitsData, tabId));
      var title := TabTitle(rush.tabs, tabId);
      v.Ok? && v.value != [] && FirstIndex(v.value[0], "ID").Some? && title.Some? && title.value in old(rush.tables) ==>
        var rows := old(rush.tables)[title.value];
        var found := Find(rows, ById(FirstIndex(v.value[0], "ID"), recruitId));
        (found.None? ==> r == Ok(Failure(RecruitMissing)) && rush.tables == old(rush.tables)
                         && tabId !in cache.recruitsData)
        && (found.Some? && DistinctIds(rush.tabs) ==>
              r == Ok(Success)
              && rush.tables == old(rush.tables)[title.value := DeleteRange(rows, found.value, found.value + 1)]
              && tabId !in cache.recruitsData)
    ensures var v := old(TabView(rush, cache.recruitsData, tabId));
      v.Ok? && v.value != [] && FirstIndex(v.value[0], "ID").Some? && TabTitle(rush.tabs, tabId).None? ==>
        r == Err(NoRecruitsSheet) && rush.tables == old(rush.tables)
    ensures var v := old(TabView(rush, cache.recruitsData, tabId));
      var title := TabTitle(rush.tabs, tabId);
      v.Ok? && v.value != [] && FirstIndex(v.value[0], "ID").Some? && title.Some? && title.value !in old(rush.tables) ==>
        r == Err(ServiceError) && rush.tables == old(rush.tables) && tabId !in cache.recruitsData
  {
    var read := GetRecruitsData(rush, cache, tabId);
    if read.Err? {
      return Err(read.msg);
    }
    var data := read.value;
    if data == [] {
      return Err(NoHeaderRow);
    }
    var idCol := FirstIndex(data[0], "ID");
    if idCol.None? {
      return Err(IdColumnMissing);
    }
    var title := TabTitle(rush.tabs, tabId);
    if title.None? {
      return Err(NoRecruitsSheet);
    }
    cache.recruitsData := cache.recruitsData - {tabId};
    if title.value !in rush.tables {
      return Err(ServiceError);
    }
    var rows := rush.tables[title.value];
    var found := Find(rows, ById(idCol, recruitId));
    if found.None? {
      return Ok(Failure(RecruitMissing));
    }
    TitleHasId(rush.tabs, tabId);
    var id := IdOfTitle(rush.tabs, title.value);
    var _ := rush.DeleteRows(id.value, found.value, found.value + 1);
    cache.recruitsData := cache.recruitsData - {tabId};
    return Ok(Success);
  }

  // ---------------------------------------------------------------------------
  // Comments
  // ---------------------------------------------------------------------------

  /** The key of the comment of `author` on `recruitId`, through the header
      map of `addOrUpdateComment`. */
  function CommentKey(headers: Row, recruitId: string, author: string): Key {
    ByPair(HeaderIndex(headers, "RecruitID"), HeaderIndex(headers, "Author"), recruitId, author)
  }

  /** The TimestampMs column, else the Timestamp column. */
  function TimestampColumn(headers: Row): (r: Option<nat>)
    ensures r.Some? ==> r.value < |headers| && (headers[r.value] == "TimestampMs" || headers[r.value] == "Timestamp")
  {
    if FirstIndex(headers, "TimestampMs").Some? then FirstIndex(headers, "TimestampMs") else FirstIndex(headers, "Timestamp")
  }

  /** `row[c] = v` for a header column; a missing header writes no cell. */
  function SetAt(row: Row, c: Option<nat>, v: string): (r: Row)
    ensures |r| == |row|
  {
    if c.Some? && c.value < |row| then row[c.value := v] else row
  }

  /** The row a new comment appends: empty cells, then the id, recruit,
      author, text and timestamp under their headers. */
  function NewCommentRow(headers: Row, commentId: string, recruitId: string, author: string, text: string, ts: nat): (r: Row)
    ensures |r| == |headers|
  {
    var blank := seq(|headers|, _ => "");
    var r1 := SetAt(blank, HeaderIndex(headers, "CommentID"), commentId);
    var r2 := SetAt(r1, HeaderIndex(headers, "RecruitID"), recruitId);
    var r3 := SetAt(r2, HeaderIndex(headers, "Author"), author);
    var r4 := SetAt(r3, HeaderIndex(headers, "Text"), text);
    SetAt(r4, TimestampColumn(headers), NatToString(ts))
  }

  /** What `addOrUpdateComment` does with the rows it read. */
  datatype Upsert = Appends(row: Row) | Overwrites(ws: seq<CellWrite>) | UpsertFails(msg: string)

  function UpsertPlan(data: Table, recruitId: string, author: string, text: string, ts: nat, commentId: string): (u: Upsert)
    ensures data == [] ==> u == UpsertFails(NoHeaderRow)
    ensures data != [] ==> (u.Appends? <==> Find(data, CommentKey(data[0], recruitId, author)).None?)
    ensures u.Overwrites? ==> data != [] && Find(data, CommentKey(data[0], recruitId, author)).Some?
    ensures u.Overwrites? ==> 1 <= |u.ws| <= 2 && u.ws[0].value == text
    ensures u.Overwrites? ==> forall w :: w in u.ws ==> w.row == Find(data, CommentKey(data[0], recruitId, author)).value
  {
    if data == [] then UpsertFails(NoHeaderRow)
    else
      match Find(data, CommentKey(data[0], recruitId, author))
      case None => Appends(NewCommentRow(data[0], commentId, recruitId, author, text, ts))
      case Some(i) =>
        match HeaderIndex(data[0], "Text")
        case None => UpsertFails(ServiceError)
        case Some(x) => Overwrites(StampWrites(i, x, TimestampColumn(data[0]), text, NatToString(ts)))
  }

  /** The text cell, then the timestamp cell when the sheet has one. */
  function StampWrites(i: nat, x: nat, tc: Option<nat>, text: string, stamp: string): (ws: seq<CellWrite>)
    ensures |ws| == (if tc.Some? then 2 else 1) && ws[0] == CellWrite(i, x, text)
    ensures tc.Some? ==> ws[1] == CellWrite(i, tc.value, stamp)
  {
    [CellWrite(i, x, text)] + (if tc.Some? then [CellWrite(i, tc.value, stamp)] else [])
  }

  function ApplyUpsert(data: Table, u: Upsert): Table {
    match u
    case Appends(row) => data + [row]
    case Overwrites(ws) => ApplyWrites(data, ws)
    case UpsertFails(_) => data
  }

  /** The new row holds the key and the text under their headers. */
  lemma NewCommentRowKeyed(headers: Row, commentId: string, recruitId: string, author: string, text: string, ts: nat)
    requires "RecruitID" in headers && "Author" in headers && "Text" in headers
    ensures var row := NewCommentRow(headers, commentId, recruitId, author, text, ts);
      Keyed(row, CommentKey(headers, recruitId, author)) && Field(row, HeaderIndex(headers, "Text")) == Some(text)
  {
    var rc := HeaderIndex(headers, "RecruitID").value;
    var au := HeaderIndex(headers, "Author").value;
    var tx := HeaderIndex(headers, "Text").value;
    var blank := seq(|headers|, _ => "");
    var r1 := SetAt(blank, HeaderIndex(headers, "CommentID"), commentId);
    var r2 := SetAt(r1, Some(rc), recruitId);
    var r3 := SetAt(r2, Some(au), author);
    var r4 := SetAt(r3, Some(tx), text);
    var row := SetAt(r4, TimestampColumn(headers), NatToString(ts));
    assert row == NewCommentRow(headers, commentId, recruitId, author, text, ts);
    assert rc != au && rc != tx && au != tx;
    assert TimestampColumn(headers).Some? ==> TimestampColumn(headers).value !in {rc, au, tx};
    assert r2[rc] == recruitId;
    assert r3[au] == author && r3[rc] == recruitId;
    assert r4[tx] == text && r4[au] == author && r4[rc] == recruitId;
    assert row[tx] == text && row[au] == author && row[rc] == recruitId;
  }

  /** A row that holds the key, with no data row before it holding it, is
      the row `findIndex` finds. */
  lemma FindFirst(t: Table, k: Key, i: nat)
    requires 1 <= i < |t| && Keyed(t[i], k)
    requires forall j :: 1 <= j < i ==> !Keyed(t[j], k)
    ensures Find(t, k) == Some(i)
  {
  }

  /** Changing only row `i`, which keeps the key, keeps the row found and
      keeps the key unique. */
  lemma KeepFound(t: Table, u: Table, k: Key, i: nat)
    requires |u| == |t| && Find(t, k) == Some(i) && Keyed(u[i], k)
    requires forall j :: 0 <= j < |t| && j != i ==> u[j] == t[j]
    ensures Find(u, k) == Some(i)
    ensures AtMostOne(t, k) ==> AtMostOne(u, k)
  {
    FindFirst(u, k, i);
    if AtMostOne(t, k) {
      forall a, b | 1 <= a < b < |u| && Keyed(u[a], k)
        ensures !Keyed(u[b], k)
      {
        if a == i {
          assert u[b] == t[b];
        }
      }
    }
  }

  /** Writing a cell outside the key columns of a keyed row keeps the key. */
  lemma WriteKeepsKey(t: Table, i: nat, c: nat, v: string, k: Key)
    requires i < |t| && k.ByPair? && k.recruitId != "undefined" && Keyed(t[i], k)
    requires k.recruitCol != Some(c) && k.authorCol != Some(c)
    ensures var u := WriteRow(t, i, c, [v]);
      |u| == |t| && (forall j :: 0 <= j < |t| && j != i ==> u[j] == t[j]) && Keyed(u[i], k)
      && c < |u[i]| && u[i][c] == v
      && (forall j :: 0 <= j < |t[i]| && j != c ==> u[i][j] == t[i][j])
  {
    WriteRowElsewhere(t, i, c, v);
  }

  /** When no row holds the pair, the upsert appends exactly one row, and
      it is the one a lookup of the pair then finds; the pair stays unique. */
  lemma UpsertAppends(data: Table, recruitId: string, author: string, text: string, ts: nat, commentId: string)
    requires data != [] && "RecruitID" in data[0] && "Author" in data[0] && "Text" in data[0]
    requires Find(data, CommentKey(data[0], recruitId, author)).None?
    ensures var t := ApplyUpsert(data, UpsertPlan(data, recruitId, author, text, ts, commentId));
      var k := CommentKey(data[0], recruitId, author);
      |t| == |data| + 1 && t[..|data|] == data
      && Find(t, k) == Some(|data|) && Field(t[|data|], HeaderIndex(data[0], "Text")) == Some(text)
      && AtMostOne(t, k)
  {
    var k := CommentKey(data[0], recruitId, author);
    var row := NewCommentRow(data[0], commentId, recruitId, author, text, ts);
    var t := data + [row];
    assert UpsertPlan(data, recruitId, author, text, ts, commentId) == Appends(row);
    NewCommentRowKeyed(data[0], commentId, recruitId, author, text, ts);
    assert t[..|data|] == data;
    forall j | 1 <= j < |data|
      ensures !Keyed(t[j], k)
    {
      assert t[j] == data[j];
    }
    FindFirst(t, k, |data|);
  }

  /** Writing the text and timestamp cells of the row found for a key,
      both outside the key columns, keeps every other row, keeps the row
      found and the key unique, and leaves the text in its cell. */
  lemma StampWritten(data: Table, k: Key, i: nat, x: nat, tc: Option<nat>, text: string, stamp: string)
    requires Find(data, k) == Some(i) && k.ByPair? && k.recruitId != "undefined"
    requires k.recruitCol != Some(x) && k.authorCol != Some(x)
    requires tc.Some? ==> k.recruitCol != tc && k.authorCol != tc && tc != Some(x)
    ensures var t := ApplyWrites(data, StampWrites(i, x, tc, text, stamp));
      |t| == |data| && (forall j :: 0 <= j < |data| && j != i ==> t[j] == data[j])
      && Find(t, k) == Some(i) && x < |t[i]| && t[i][x] == text
      && (AtMostOne(data, k) ==> AtMostOne(t, k))
  {
    var w := CellWrite(i, x, text);
    var t1 := WriteRow(data, i, x, [text]);
    WriteKeepsKey(data, i, x, text, k);
    KeepFound(data, t1, k, i);
    if tc.Some? {
      var w2 := CellWrite(i, tc.value, stamp);
      assert StampWrites(i, x, tc, text, stamp) == [w, w2];
      ApplyTwo(data, w, w2);
      var t := WriteRow(t1, i, tc.value, [stamp]);
      WriteKeepsKey(t1, i, tc.value, stamp, k);
      KeepFound(t1, t, k, i);
    } else {
      assert StampWrites(i, x, tc, text, stamp) == [w];
      ApplyOne(data, w);
    }
  }

  /** When a row holds the pair, the upsert writes its Text cell (and its
      timestamp cell) in place: the same row is found afterwards and holds
      the new text, no other row changes, and a unique pair stays unique. */
  lemma UpsertOverwrites(data: Table, recruitId: string, author: string, text: string, ts: nat, commentId: string)
    requires data != [] && "Text" in data[0] && recruitId != "undefined"
    requires Find(data, CommentKey(data[0], recruitId, author)).Some?
    ensures var t := ApplyUpsert(data, UpsertPlan(data, recruitId, author, text, ts, commentId));
      var k := CommentKey(data[0], recruitId, author);
      var i := Find(data, k).value;
      |t| == |data| && (forall j :: 0 <= j < |data| && j != i ==> t[j] == data[j])
      && Find(t, k) == Some(i) && Field(t[i], HeaderIndex(data[0], "Text")) == Some(text)
      && (AtMostOne(data, k) ==> AtMostOne(t, k))
  {
    var k := CommentKey(data[0], recruitId, author);
    var i := Find(data, k).value;
    var x := HeaderIndex(data[0], "Text").value;
    var tc := TimestampColumn(data[0]);
    assert data[0][x] == "Text";
    assert UpsertPlan(data, recruitId, author, text, ts, commentId) == Overwrites(StampWrites(i, x, tc, text, NatToString(ts)));
    StampWritten(data, k, i, x, tc, text, NatToString(ts));
  }

  /** `addOrUpdateComment`, with the time and the new comment id given. */
  method AddOrUpdateComment(rush: Workbook, cache: Cache, tabId: string, recruitId: string, text: string, author: string,
                            ts: nat, commentId: string) returns (r: Result<()>)
    modifies rush`tables, cache`commentsData
    ensures TabTitle(rush.tabs, tabId).None? ==>
      r == Err(NoCommentsSheet) && rush.tables == old(rush.tables) && cache.commentsData == old(cache.commentsData)
    ensures var title := TabTitle(rush.tabs, tabId);
      title.Some? && title.value !in old(rush.tables) ==>
        r == Err(ServiceError) && rush.tables == old(rush.tables)
    ensures var title := TabTitle(rush.tabs, tabId);
      title.Some? && title.value in old(rush.tables) ==>
        var data := old(rush.tables)[title.value];
        var u := UpsertPlan(data, recruitId, author, text, ts, commentId);
        rush.tables == old(rush.tables)[title.value := ApplyUpsert(data, u)]
        && (u.UpsertFails? ==> r == Err(u.msg) && cache.commentsData == old(cache.commentsData)[tabId := data])
        && (!u.UpsertFails? ==> r == Ok(()) && cache.commentsData == old(cache.commentsData) - {tabId})
  {
    var title := TabTitle(rush.tabs, tabId);
    if title.None? {
      return Err(NoCommentsSheet);
    }
    cache.commentsData := cache.commentsData - {tabId};
    var read := GetCommentsData(rush, cache, tabId);
    if title.value !in rush.tables {
      assert read == Err(ServiceError);
      return Err(read.msg);
    }
    var data := rush.tables[title.value];
    assert read == Ok(data);
    PutAfterDrop(old(cache.commentsData), tabId, data);
    assert cache.commentsData == old(cache.commentsData)[tabId := data];
    var u := UpsertPlan(data, recruitId, author, text, ts, commentId);
    if u.UpsertFails? {
      return Err(u.msg);
    }
    ApplyPlan(rush, title.value, u);
    cache.commentsData := cache.commentsData - {tabId};
    DropAfterPut(old(cache.commentsData), tabId, data);
    return Ok(());
  }

  /** Carries out an upsert that does not fail on one tab. */
  method ApplyPlan(rush: Workbook, title: string, u: Upsert)
    requires title in rush.tables && !u.UpsertFails?
    modifies rush`tables
    ensures rush.tables == old(rush.tables)[title := ApplyUpsert(old(rush.tables)[title], u)]
  {
    match u {
      case Appends(row) =>
        var _ := rush.Append(title, [row]);
      case Overwrites(ws) =>
        Perform(rush, title, ws);
    }
  }

  /** `deleteComment`: the first row holding the pair goes. */
  method DeleteComment(rush: Workbook, cache: Cache, tabId: string, recruitId: string, author: string)
    returns (r: Result<Outcome>)
    modifies rush`tables, cache`commentsData
    ensures TabTitle(rush.tabs, tabId).None? ==>
      r == Ok(Failure(NoSheet)) && rush.tables == old(rush.tables) && cache.commentsData == old(cache.commentsData)
    ensures var title := TabTitle(rush.tabs, tabId);
      title.Some? && title.value !in old(rush.tables) ==>
        r == Err(ServiceError) && rush.tables == old(rush.tables)
    ensures var title := TabTitle(rush.tabs, tabId);
      title.Some? && title.value in old(rush.tables) && old(rush.tables)[title.value] == [] ==>
        r == Err(NoHeaderRow) && rush.tables == old(rush.tables)
    ensures var title := TabTitle(rush.tabs, tabId);
      title.Some? && title.value in old(rush.tables) && old(rush.tables)[title.value] != [] ==>
        var data := old(rush.tables)[title.value];
        var found := Find(data, CommentKey(data[0], recruitId, author));
        (found.None? ==> r == Ok(Failure(CommentMissing)) && rush.tables == old(rush.tables))
        && (found.Some? && DistinctIds(rush.tabs) ==>
              r == Ok(Success)
              && rush.tables == old(rush.tables)[title.value := DeleteRange(data, found.value, found.value + 1)]
              && tabId !in cache.commentsData)
  {
    var title := TabTitle(rush.tabs, tabId);
    if title.None? {
      return Ok(Failure(NoSheet));
    }
    cache.commentsData := cache.commentsData - {tabId};
    var read := GetCommentsData(rush, cache, tabId);
    if title.value !in rush.tables {
      assert read == Err(ServiceError);
      return Err(read.msg);
    }
    var data := rush.tables[title.value];
    assert read == Ok(data);
    if data == [] {
      return Err(NoHeaderRow);
    }
    var found := Find(data, CommentKey(data[0], recruitId, author));
    if found.None? {
      return Ok(Failure(CommentMissing));
    }
    TitleHasId(rush.tabs, tabId);
    var id := IdOfTitle(rush.tabs, title.value);
    var _ := rush.DeleteRows(id.value, found.value, found.value + 1);
    cache.commentsData := cache.commentsData - {tabId};
    return Ok(Success);
  }

  // ---------------------------------------------------------------------------
  // The lock flag
  // ---------------------------------------------------------------------------

  /** Column H of the Rush Index holds the lock. */
  const LockColumn: nat := 7

  /** A lock cell counts as locked when it reads TRUE or 1; the service
      gives every cell as text, so the boolean and number forms arrive as
      these. */
  predicate IsLocked(cell: Option<string>)
    ensures cell.None? || cell == Some("") || cell == Some("FALSE") || cell == Some("0") ==> !IsLocked(cell)
    ensures IsLocked(cell) ==> cell.Some? && |cell.value| <= 4
  {
    cell == Some("TRUE") || cell == Some("1")
  }

  /** The text a boolean written with USER_ENTERED reads back as. */
  function LockCell(b: bool): (s: string)
    ensures IsLocked(Some(s)) == b
  {
    if b then "TRUE" else "FALSE"
  }

  /** What `getRushIndexData` gives. */
  function IndexView(book: Workbook, cached: Option<Table>): Result<Table>
    reads book
  {
    if cached.Some? then Ok(cached.value)
    else if RushIndex in book.tables then Ok(book.tables[RushIndex])
    else Err(ServiceError)
  }

  /** The row of a rush event: `String(r[0]) === String(id)`. */
  function EventRow(data: Table, rushId: string): Option<nat> {
    Find(data, ById(Some(0), rushId))
  }

  /** `toggleRushLock`: only a position naming Rho may toggle; the event's
      lock cell is rewritten with the negation of what the (possibly cached)
      index shows, and the index cache entry is dropped. */
  method ToggleRushLock(rush: Workbook, cache: Cache, rushId: string, position: string) returns (r: Result<bool>)
    modifies rush`tables, cache`rushIndexData
    ensures !Contains(position, "Rho") ==>
      r == Err(Unauthorized) && rush.tables == old(rush.tables) && cache.rushIndexData == old(cache.rushIndexData)
    ensures var v := old(IndexView(rush, cache.rushIndexData));
      Contains(position, "Rho") && v.Err? ==> r == Err(v.msg) && rush.tables == old(rush.tables)
    ensures var v := old(IndexView(rush, cache.rushIndexData));
      Contains(position, "Rho") && v.Ok? && EventRow(v.value, rushId).None? ==>
        r == Err(EventMissing) && rush.tables == old(rush.tables) && cache.rushIndexData == Some(v.value)
    ensures var v := old(IndexView(rush, cache.rushIndexData));
      Contains(position, "Rho") && v.Ok? && EventRow(v.value, rushId).Some? && RushIndex in old(rush.tables) ==>
        var i := EventRow(v.value, rushId).value;
        var locked := !IsLocked(Cell(v.value[i], LockColumn));
        r == Ok(locked)
        && rush.tables == old(rush.tables)[RushIndex := WriteRow(old(rush.tables)[RushIndex], i, LockColumn, [LockCell(locked)])]
        && IsLocked(Cell(rush.tables[RushIndex][i], LockColumn)) == locked
        && cache.rushIndexData.None?
  {
    if !Contains(position, "Rho") {
      return Err(Unauthorized);
    }
    var read := GetRushIndexData(rush, cache);
    if read.Err? {
      return Err(read.msg);
    }
    var data := read.value;
    var i := EventRow(data, rushId);
    if i.None? {
      return Err(EventMissing);
    }
    var locked := !IsLocked(Cell(data[i.value], LockColumn));
    var ok := WriteCell(rush, RushIndex, LockColumn, i.value, LockCell(locked));
    if !ok {
      return Err(ServiceError);
    }
    LockWritten(old(rush.tables)[RushIndex], i.value, locked);
    cache.rushIndexData := None;
    return Ok(locked);
  }

  /** The lock cell written for `b` reads back as `b`. */
  lemma LockWritten(t: Table, i: nat, b: bool)
    ensures var u := WriteRow(t, i, LockColumn, [LockCell(b)]);
      i < |u| && IsLocked(Cell(u[i], LockColumn)) == b
  {
    var u := WriteRow(t, i, LockColumn, [LockCell(b)]);
    assert u[i][LockColumn + 0] == LockCell(b);
  }

  /** The toggle applied twice to the same event row gives the lock back. */
  lemma LockTwice(t: Table, i: nat)
    requires i < |t|
    ensures var u := WriteRow(t, i, LockColumn, [LockCell(!IsLocked(Cell(t[i], LockColumn)))]);
      i < |u| &&
      var w := WriteRow(u, i, LockColumn, [LockCell(!IsLocked(Cell(u[i], LockColumn)))]);
      i < |w| && IsLocked(Cell(w[i], LockColumn)) == IsLocked(Cell(t[i], LockColumn))
  {
    var b := IsLocked(Cell(t[i], LockColumn));
    LockWritten(t, i, !b);
    var u := WriteRow(t, i, LockColumn, [LockCell(!b)]);
    LockWritten(u, i, b);
  }

  // ---------------------------------------------------------------------------
  // Administrator settings
  // ---------------------------------------------------------------------------

  /** The global switches and the per-brother switches. */
  datatype Settings = Settings(globals: map<string, bool>, brothers: map<string, map<string, bool>>)

  const DisableAdd := "globalDisableAddRecruits"
  const DisableComment := "globalDisableCommenting"

  /** What `getAdminSettings` gives before anything was stored. */
  const DefaultSettings := Settings(map[DisableAdd := false, DisableComment := false], map[])

  predicate AddingDisabled(s: Settings) {
    DisableAdd in s.globals && s.globals[DisableAdd]
  }

  /** `settings[key] = value`. */
  function WithGlobal(s: Settings, key: string, value: bool): (r: Settings)
    ensures key in r.globals && r.globals[key] == value
    ensures forall k :: k != key ==> (k in r.globals <==> k in s.globals)
    ensures forall k :: k != key && k in s.globals ==> r.globals[k] == s.globals[k]
    ensures r.brothers == s.brothers
  {
    s.(globals := s.globals[key := value])
  }

  /** `settings.disabledBrotherSettings[email] = settingsObj`. */
  function WithBrother(s: Settings, email: string, switches: map<string, bool>): (r: Settings)
    ensures email in r.brothers && r.brothers[email] == switches
    ensures forall e :: e != email ==> (e in r.brothers <==> e in s.brothers)
    ensures forall e :: e != email && e in s.brothers ==> r.brothers[e] == s.brothers[e]
    ensures r.globals == s.globals
  {
    s.(brothers := s.brothers[email := switches])
  }

  /** The settings entry of the process cache. */
  class AdminSettings {
    var stored: Option<Settings>

    constructor ()
      ensures stored.None?
    {
      stored := None;
    }

    /** `getAdminSettings`. */
    function Current(): Settings
      reads this
    {
      if stored.Some? then stored.value else DefaultSettings
    }

    /** `setGlobalSetting`: read, change one switch, store. */
    method SetGlobalSetting(key: string, value: bool)
      modifies this
      ensures stored == Some(WithGlobal(old(Current()), key, value))
      ensures key == DisableAdd ==> AddingDisabled(Current()) == value
    {
      stored := Some(WithGlobal(Current(), key, value));
    }

    /** `setBrotherSettings`: read, replace one brother's switches, store. */
    method SetBrotherSettings(email: string, switches: map<string, bool>)
      modifies this
      ensures stored == Some(WithBrother(old(Current()), email, switches))
      ensures AddingDisabled(Current()) == AddingDisabled(old(Current()))
    {
      stored := Some(WithBrother(Current(), email, switches));
    }
  }

  /** Until a switch is stored, adding recruits is allowed. */
  lemma DefaultAllowsAdding()
    ensures !AddingDisabled(DefaultSettings)
    ensures DisableComment in DefaultSettings.globals && !DefaultSettings.globals[DisableComment]
  {
  }

  // ---------------------------------------------------------------------------
  // Adding and updating a recruit
  // ---------------------------------------------------------------------------

  /** The fields of the recruit form. */
  datatype Form = Form(name: string, email: string, phone: string, instagram: string, contacts: seq<string>, photoUrl: string)

  /** `rowObj[header]` for the object the form builds: the photo URL only
      when a photo was uploaded. */
  function FormField(f: Form, header: string): Option<string> {
    if header == "Name" then Some(f.name)
    else if header == "Email" then Some(f.email)
    else if header == "Phone" then Some(f.phone)
    else if header == "Instagram" then Some(f.instagram)
    else if header == "PrimaryContacts" then Some(Join(f.contacts, ','))
    else if header == "PhotoURL" && f.photoUrl != "" then Some(f.photoUrl)
    else None
  }

  /** The text a whole number is written as. */
  function IntText(n: int): string {
    if n >= 0 then NatToString(n) else "-" + NatToString(-n)
  }

  /** `rowObj[header]` once a new recruit's fields are added: its id, tier
      0, empty like and dislike lists, and the adder as the one brother who
      met it. */
  function NewField(f: Form, n: int, addedBy: string, header: string): Option<string> {
    if header == "ID" then Some(IntText(n))
    else if header == "Tier" then Some("0")
    else if header == "Likes" || header == "Dislikes" then Some("[]")
    else if header == "Met" then Some(if addedBy != "" then EncodeNames([addedBy]) else "[]")
    else FormField(f, header)
  }

  /** `headers.map(hdr => rowObj[hdr] ?? '')`. */
  function NewRecruitRow(headers: Row, f: Form, n: int, addedBy: string): (row: Row)
    ensures |row| == |headers|
  {
    seq(|headers|, j requires 0 <= j < |headers| => match NewField(f, n, addedBy, headers[j]) case Some(v) => v case None => "")
  }

  /** The found row with every header the form sets overwritten; cells
      past the row's end read as empty. */
  function UpdatedRow(headers: Row, row: Row, f: Form): (u: Row)
    ensures |u| == Max(|row|, |headers|)
  {
    seq(Max(|row|, |headers|), j requires 0 <= j < Max(|row|, |headers|) =>
      if j < |headers| && FormField(f, headers[j]).Some? then FormField(f, headers[j]).value
      else if j < |row| then row[j] else "")
  }

  /** The row of an update and what is written there; the write fails when
      the row is wider than the header range it is written into. */
  function UpdateRecruitPlan(data: Table, id: string, f: Form): (r: Result<(nat, Row)>)
    requires data != []
    ensures r.Ok? ==> 1 <= r.value.0 < |data| && |r.value.1| == |data[0]|
  {
    match Find(data, ById(HeaderIndex(data[0], "ID"), id))
    case None => Err("Recruit ID not found: " + id)
    case Some(i) =>
      if |data[i]| > |data[0]| then Err(ServiceError)
      else Ok((i, UpdatedRow(data[0], data[i], f)))
  }

  /** `JSON.parse(contactsJson || '[]')`. */
  function Contacts(contactsJson: string): Option<seq<string>> {
    DecodeNames(if contactsJson != "" then contactsJson else "[]")
  }

  /** What `addOrUpdateRecruitWithPhoto` returns: the new id, or success. */
  datatype Added = NewId(id: int) | Updated

  /** The id the new-recruit path receives once the rows are cached: above
      the cached counter, and without one, above every numeric id on the
      tab. */
  function NextId(lastId: map<string, int>, tabId: string, data: Table): (n: int)
    ensures n > Counter(lastId, tabId)
    ensures Counter(lastId, tabId) == 0 ==> n >= 1
    ensures Counter(lastId, tabId) == 0 ==>
      forall i :: 1 <= i < |data| && IdOf(data[i]).Some? ==> IdOf(data[i]).value < n
  {
    if Counter(lastId, tabId) == 0 then MaxId(data) + 1 else Counter(lastId, tabId) + 1
  }

  /** The part of `addOrUpdateRecruitWithPhoto` after the rows are read
      into the cache: overwrite the found row, or append a new one under a
      fresh id. */
  method SaveRecruit(rush: Workbook, cache: Cache, tabId: string, title: string, data: Table, id: string, f: Form, addedBy: string)
    returns (r: Result<Added>)
    requires title in rush.tables && rush.tables[title] == data && data != []
    requires TabTitle(rush.tabs, tabId) == Some(title) && tabId in cache.recruitsData && cache.recruitsData[tabId] == data
    modifies rush`tables, cache`recruitsData, cache`lastId
    ensures id != "" ==>
      var plan := UpdateRecruitPlan(data, id, f);
      (plan.Err? ==> r == Err(plan.msg) && rush.tables == old(rush.tables))
      && (plan.Ok? ==>
            r == Ok(Updated) && tabId !in cache.recruitsData
            && rush.tables == old(rush.tables)[title := WriteRow(data, plan.value.0, 0, plan.value.1)])
    ensures id == "" ==>
      var n := NextId(old(cache.lastId), tabId, data);
      r == Ok(NewId(n)) && tabId !in cache.recruitsData && cache.lastId == old(cache.lastId)[tabId := n]
      && rush.tables == old(rush.tables)[title := data + [NewRecruitRow(data[0], f, n, addedBy)]]
  {
    if id != "" {
      var plan := UpdateRecruitPlan(data, id, f);
      if plan.Err? {
        return Err(plan.msg);
      }
      var _ := rush.Update(title, plan.value.0, 0, plan.value.1);
      cache.recruitsData := cache.recruitsData - {tabId};
      return Ok(Updated);
    }
    assert TabView(rush, cache.recruitsData, tabId) == Ok(data);
    var next := GetNextAvailableId(rush, cache, tabId);
    assert next == Ok(NextId(old(cache.lastId), tabId, data));
    var row := NewRecruitRow(data[0], f, next.value, addedBy);
    var _ := rush.Append(title, [row]);
    cache.recruitsData := cache.recruitsData - {tabId};
    return Ok(NewId(next.value));
  }

  /** `addOrUpdateRecruitWithPhoto` with the photo already uploaded to
      `photoUrl` ("" for none) and with the rush mutex taken once. */
  method AddOrUpdateRecruit(rush: Workbook, cache: Cache, settings: AdminSettings, tabId: string, id: string,
                            name: string, email: string, phone: string, instagram: string, contactsJson: string,
                            photoUrl: string, addedBy: string) returns (r: Result<Added>)
    modifies rush`tables, cache`recruitsData, cache`lastId
    ensures AddingDisabled(settings.Current()) ==>
      r == Err(AddDisabled) && rush.tables == old(rush.tables) && cache.recruitsData == old(cache.recruitsData)
    ensures !AddingDisabled(settings.Current()) && TabTitle(rush.tabs, tabId).None? ==>
      r == Err(NoRecruitsSheet) && rush.tables == old(rush.tables)
    ensures var title := TabTitle(rush.tabs, tabId);
      !AddingDisabled(settings.Current()) && title.Some? && title.value !in old(rush.tables) ==>
        r == Err(ServiceError) && rush.tables == old(rush.tables)
    ensures var title := TabTitle(rush.tabs, tabId);
      !AddingDisabled(settings.Current()) && title.Some? && title.value in old(rush.tables) ==>
        var data := old(rush.tables)[title.value];
        (data == [] ==> r == Err(NoHeaderRow) && rush.tables == old(rush.tables))
        && (data != [] && Contacts(contactsJson).None? ==> r == Err(BadJson) && rush.tables == old(rush.tables))
        && (data != [] && Contacts(contactsJson).Some? ==>
              var f := Form(name, email, phone, instagram, Contacts(contactsJson).value, photoUrl);
              var plan := UpdateRecruitPlan(data, id, f);
              (id != "" && plan.Err? ==> r == Err(plan.msg) && rush.tables == old(rush.tables))
              && (id != "" && plan.Ok? ==>
                    r == Ok(Updated) && tabId !in cache.recruitsData
                    && rush.tables == old(rush.tables)[title.value := WriteRow(data, plan.value.0, 0, plan.value.1)])
              && (id == "" ==>
                    var n := NextId(old(cache.lastId), tabId, data);
                    r == Ok(NewId(n)) && tabId !in cache.recruitsData && cache.lastId == old(cache.lastId)[tabId := n]
                    && rush.tables == old(rush.tables)[title.value := data + [NewRecruitRow(data[0], f, n, addedBy)]]))
  {
    if AddingDisabled(settings.Current()) {
      return Err(AddDisabled);
    }
    var title := TabTitle(rush.tabs, tabId);
    if title.None? {
      return Err(NoRecruitsSheet);
    }
    cache.recruitsData := cache.recruitsData - {tabId};
    var read := GetRecruitsData(rush, cache, tabId);
    if title.value !in rush.tables {
      assert read == Err(ServiceError);
      return Err(read.msg);
    }
    var data := rush.tables[title.value];
    assert read == Ok(data);
    PutAfterDrop(old(cache.recruitsData), tabId, data);
    assert cache.recruitsData == old(cache.recruitsData)[tabId := data];
    if data == [] {
      return Err(NoHeaderRow);
    }
    var contacts := Contacts(contactsJson);
    if contacts.None? {
      return Err(BadJson);
    }
    var f := Form(name, email, phone, instagram, contacts.value, photoUrl);
    r := SaveRecruit(rush, cache, tabId, title.value, data, id, f, addedBy);
  }

  /** Contacts that a comma-joined cell gives back unchanged. */
  predicate CleanContacts(cs: seq<string>) {
    forall i :: 0 <= i < |cs| ==> cs[i] != "" && Trim(cs[i]) == cs[i] && ',' !in cs[i]
  }

  /** The cell of an updated row under a header: the form's value when the
      form sets that header, else the old cell. */
  lemma UpdatedCell(headers: Row, row: Row, f: Form, name: string)
    requires name in headers
    ensures var c := HeaderIndex(headers, name).value;
      var u := UpdatedRow(headers, row, f);
      c < |u| && u[c] == (if FormField(f, name).Some? then FormField(f, name).value else if c < |row| then row[c] else "")
  {
  }

  /** The form sets its own columns. */
  lemma FormSets(f: Form)
    ensures FormField(f, "Name") == Some(f.name) && FormField(f, "Email") == Some(f.email)
    ensures FormField(f, "Phone") == Some(f.phone) && FormField(f, "Instagram") == Some(f.instagram)
    ensures FormField(f, "PrimaryContacts") == Some(Join(f.contacts, ','))
    ensures f.photoUrl != "" ==> FormField(f, "PhotoURL") == Some(f.photoUrl)
  {
  }

  /** A column the form sets reads the form's value after the update. */
  lemma SetCell(headers: Row, row: Row, f: Form, name: string)
    requires name in headers && FormField(f, name).Some?
    ensures Field(UpdatedRow(headers, row, f), HeaderIndex(headers, name)) == FormField(f, name)
  {
    UpdatedCell(headers, row, f, name);
  }

  /** After an update the recruit reads back the form's name, email,
      phone, Instagram, photo and contacts under their headers. */
  lemma UpdatedRecruitForm(headers: Row, row: Row, f: Form)
    ensures var x := RecruitOf(headers, UpdatedRow(headers, row, f));
      ("Name" in headers ==> x.name == Some(f.name))
      && ("Email" in headers ==> x.email == Some(f.email))
      && ("Phone" in headers ==> x.phone == Some(f.phone))
      && ("Instagram" in headers ==> x.instagram == Some(f.instagram))
      && ("PhotoURL" in headers && f.photoUrl != "" ==> x.photoURL == Some(f.photoUrl))
      && ("PrimaryContacts" in headers && CleanContacts(f.contacts) ==> x.primaryContacts == f.contacts)
  {
    FormSets(f);
    if "Name" in headers { SetCell(headers, row, f, "Name"); }
    if "Email" in headers { SetCell(headers, row, f, "Email"); }
    if "Phone" in headers { SetCell(headers, row, f, "Phone"); }
    if "Instagram" in headers { SetCell(headers, row, f, "Instagram"); }
    if "PhotoURL" in headers && f.photoUrl != "" { SetCell(headers, row, f, "PhotoURL"); }
    if "PrimaryContacts" in headers && CleanContacts(f.contacts) {
      UpdatedContacts(headers, row, f);
    }
  }

  /** Clean contacts written by an update read back as they were given. */
  lemma UpdatedContacts(headers: Row, row: Row, f: Form)
    requires "PrimaryContacts" in headers && CleanContacts(f.contacts)
    ensures RecruitOf(headers, UpdatedRow(headers, row, f)).primaryContacts == f.contacts
  {
    FormSets(f);
    SetCell(headers, row, f, "PrimaryContacts");
    var c := HeaderIndex(headers, "PrimaryContacts");
    assert FieldOr(UpdatedRow(headers, row, f), c, "") == Join(f.contacts, ',');
    TrimmedPiecesJoin(f.contacts, ',');
  }

  /** The form sets none of the columns the other operations own. */
  lemma FormLeavesOthers(f: Form)
    ensures FormField(f, "ID").None? && FormField(f, "Tier").None?
    ensures FormField(f, "Likes").None? && FormField(f, "Dislikes").None? && FormField(f, "Met").None?
    ensures f.photoUrl == "" ==> FormField(f, "PhotoURL").None?
  {
  }

  /** An update leaves the id, tier, like, dislike and met cells of the
      recruit as they were; only a cell the row did not reach reads as
      blank. */
  lemma UpdatedRecruitKeeps(headers: Row, row: Row, f: Form)
    ensures var x := RecruitOf(headers, UpdatedRow(headers, row, f));
      var y := RecruitOf(headers, row);
      x.likes == y.likes && x.dislikes == y.dislikes && x.met == y.met
      && (y.id.Some? ==> x.id == y.id) && (y.tier.Some? ==> x.tier == y.tier)
      && (f.photoUrl == "" && y.photoURL.Some? ==> x.photoURL == y.photoURL)
  {
    FormLeavesOthers(f);
    var u := UpdatedRow(headers, row, f);
    KeptCell(headers, row, f, "Likes");
    KeptCell(headers, row, f, "Dislikes");
    KeptCell(headers, row, f, "Met");
    KeptCell(headers, row, f, "ID");
    KeptCell(headers, row, f, "Tier");
    if f.photoUrl == "" {
      KeptCell(headers, row, f, "PhotoURL");
    }
  }

  /** A column the form does not set reads the same before and after the
      update, except that a cell the row did not reach becomes blank. */
  lemma KeptCell(headers: Row, row: Row, f: Form, name: string)
    requires FormField(f, name).None?
    ensures var c := HeaderIndex(headers, name);
      var u := UpdatedRow(headers, row, f);
      (forall d :: FieldOr(u, c, d) == FieldOr(row, c, d))
      && (Field(row, c).Some? ==> Field(u, c) == Field(row, c))
  {
    if name in headers {
      UpdatedCell(headers, row, f, name);
    }
  }

  /** The cell of a new row under a header the new fields set. */
  lemma NewCell(headers: Row, f: Form, n: int, addedBy: string, name: string, v: string)
    requires name in headers && NewField(f, n, addedBy, name) == Some(v)
    ensures Field(NewRecruitRow(headers, f, n, addedBy), HeaderIndex(headers, name)) == Some(v)
  {
  }

  /** The fields a new recruit starts with. */
  lemma NewFieldsSet(f: Form, n: int, addedBy: string)
    ensures NewField(f, n, addedBy, "ID") == Some(IntText(n)) && NewField(f, n, addedBy, "Tier") == Some("0")
    ensures NewField(f, n, addedBy, "Likes") == Some("[]") && NewField(f, n, addedBy, "Dislikes") == Some("[]")
    ensures NewField(f, n, addedBy, "Met") == Some(if addedBy != "" then EncodeNames([addedBy]) else "[]")
    ensures NewField(f, n, addedBy, "Name") == Some(f.name)
    ensures NewField(f, n, addedBy, "PrimaryContacts") == Some(Join(f.contacts, ','))
  {
  }

  /** A new recruit reads back with its id, tier 0, no likes or dislikes,
      the adder as the one brother met, and the form's name and contacts. */
  lemma NewRecruitReads(headers: Row, f: Form, n: int, addedBy: string)
    ensures var x := RecruitOf(headers, NewRecruitRow(headers, f, n, addedBy));
      ("ID" in headers ==> x.id == Some(IntText(n)))
      && ("Tier" in headers ==> x.tier == Some("0"))
      && x.likes == "[]" && x.dislikes == "[]"
      && ("Met" in headers && addedBy != "" ==> DecodeNames(x.met) == Some([addedBy]))
      && (addedBy == "" ==> x.met == "[]")
      && ("Name" in headers ==> x.name == Some(f.name))
      && ("PrimaryContacts" in headers && CleanContacts(f.contacts) ==> x.primaryContacts == f.contacts)
  {
    NewFieldsSet(f, n, addedBy);
    var row := NewRecruitRow(headers, f, n, addedBy);
    if "ID" in headers { NewCell(headers, f, n, addedBy, "ID", IntText(n)); }
    if "Tier" in headers { NewCell(headers, f, n, addedBy, "Tier", "0"); }
    NewListCell(headers, f, n, addedBy, "Likes", "[]");
    NewListCell(headers, f, n, addedBy, "Dislikes", "[]");
    NewMet(headers, f, n, addedBy);
    if "Name" in headers { NewCell(headers, f, n, addedBy, "Name", f.name); }
    if "PrimaryContacts" in headers && CleanContacts(f.contacts) {
      NewCell(headers, f, n, addedBy, "PrimaryContacts", Join(f.contacts, ','));
      assert FieldOr(row, HeaderIndex(headers, "PrimaryContacts"), "") == Join(f.contacts, ',');
      TrimmedPiecesJoin(f.contacts, ',');
    }
  }

  /** A list column of a new recruit reads back as the list it starts with,
      whether or not the sheet has the column. */
  lemma NewListCell(headers: Row, f: Form, n: int, addedBy: string, name: string, v: string)
    requires NewField(f, n, addedBy, name) == Some(v) && v == "[]"
    ensures FieldOr(NewRecruitRow(headers, f, n, addedBy), HeaderIndex(headers, name), "[]") == v
  {
    if name in headers {
      NewCell(headers, f, n, addedBy, name, v);
    }
  }

  /** The Met column of a new recruit names the adder alone, or no one. */
  lemma NewMet(headers: Row, f: Form, n: int, addedBy: string)
    ensures var met := FieldOr(NewRecruitRow(headers, f, n, addedBy), HeaderIndex(headers, "Met"), "[]");
      ("Met" in headers && addedBy != "" ==> DecodeNames(met) == Some([addedBy]))
      && (addedBy == "" ==> met == "[]")
  {
    NewFieldsSet(f, n, addedBy);
    var m := if addedBy != "" then EncodeNames([addedBy]) else "[]";
    assert m != "";
    if "Met" in headers {
      NewCell(headers, f, n, addedBy, "Met", m);
      if addedBy != "" {
        DecodeEncodeNames([addedBy]);
      }
    }
  }
}
