/** The table and cache adapter of `backend/sheets.js`, over an abstract
    spreadsheet. A sheet is a table of rows of cells with the header in row 0;
    a `Workbook` stands for one spreadsheet as the Sheets service keeps it and a
    `Cache` for the process-wide key/value cache the modules share. */
module Sheets {
  import opened Wrappers
  import opened Text

  type Row = seq<string>
  type Table = seq<Row>

  function Max(a: int, b: int): int { if a < b then b else a }
  function Min(a: int, b: int): int { if a < b then a else b }

  /** A boolean as the sheet shows it once written. */
  function BoolText(b: bool): string {
    if b then "TRUE" else "FALSE"
  }

  /** The `{success, message}` answer. */
  datatype Reply = Reply(success: bool, message: string)

  /** `row[c]`; `None` is the `undefined` of a cell past the end of the row. */
  function Cell(row: Row, c: nat): Option<string> {
    if c < |row| then Some(row[c]) else None
  }

  /** `row[c] || fallback`: a missing or empty cell gives the fallback. */
  function CellOr(row: Row, c: nat, fallback: string): (r: string)
    ensures c < |row| && row[c] != "" ==> r == row[c]
    ensures !(c < |row| && row[c] != "") ==> r == fallback
  {
    if c < |row| && row[c] != "" then row[c] else fallback
  }

  /** `String(row[c])`: a missing cell reads as "undefined". */
  function CellText(row: Row, c: nat): string {
    if c < |row| then row[c] else "undefined"
  }

  // ---------------------------------------------------------------------------
  // Scans that skip the header
  // ---------------------------------------------------------------------------

  /** How a scan tests the looked-up cell before comparing: `Present` is the
      `cell != null` of `findRowByValue`, `NonEmpty` the truthiness test of
      `searchByEmail`, `searchByDoc` and `isValidEmail`. */
  datatype Test = Present | NonEmpty

  /** The looked-up cell passes the test and equals the needle once both are
      trimmed and lower-cased. */
  predicate Matches(test: Test, row: Row, col: nat, needle: string) {
    col < |row| && (test.Present? || row[col] != "") && Normalize(row[col]) == Normalize(needle)
  }

  /** The first row at or after `from` that matches. */
  function FirstMatch(data: Table, test: Test, col: nat, needle: string, from: nat): (r: Option<nat>)
    ensures r.Some? ==> from <= r.value < |data| && Matches(test, data[r.value], col, needle)
    ensures r.Some? ==> forall j :: from <= j < r.value ==> !Matches(test, data[j], col, needle)
    ensures r.None? ==> forall j :: from <= j < |data| ==> !Matches(test, data[j], col, needle)
    decreases |data| - from
  {
    if from >= |data| then None
    else if Matches(test, data[from], col, needle) then Some(from)
    else FirstMatch(data, test, col, needle, from + 1)
  }

  /** `findRowByValue`: the first data row whose cell in `col` is present and
      equals `value` up to trimming and case, or `None`. */
  method FindRowByValue(data: Table, value: string, col: nat) returns (r: Option<Row>)
    ensures FirstMatch(data, Present, col, value, 1).None? ==> r.None?
    ensures FirstMatch(data, Present, col, value, 1).Some? ==>
      r == Some(data[FirstMatch(data, Present, col, value, 1).value])
  {
    var i := 1;
    while i < |data|
      invariant 1 <= i
      invariant FirstMatch(data, Present, col, value, i) == FirstMatch(data, Present, col, value, 1)
      decreases |data| - i
    {
      var row := data[i];
      if col < |row| && Normalize(row[col]) == Normalize(value) {
        return Some(row);
      }
      i := i + 1;
    }
    return None;
  }

  /** The shared loop of `searchByEmail` and `searchByDoc`: cell `col` of the
      first data row whose non-empty cell `keyCol` equals `needle` up to
      trimming and case (`None` when that row has no cell `col`), else "". */
  method SearchColumn(data: Table, keyCol: nat, needle: string, col: nat) returns (r: Option<string>)
    ensures FirstMatch(data, NonEmpty, keyCol, needle, 1).None? ==> r == Some("")
    ensures FirstMatch(data, NonEmpty, keyCol, needle, 1).Some? ==>
      r == Cell(data[FirstMatch(data, NonEmpty, keyCol, needle, 1).value], col)
  {
    var i := 1;
    while i < |data|
      invariant 1 <= i
      invariant FirstMatch(data, NonEmpty, keyCol, needle, i) == FirstMatch(data, NonEmpty, keyCol, needle, 1)
      decreases |data| - i
    {
      var row := data[i];
      if keyCol < |row| && row[keyCol] != "" && Normalize(row[keyCol]) == Normalize(needle) {
        return Cell(row, col);
      }
      i := i + 1;
    }
    return Some("");
  }

  /** `searchByEmail`: the email is in column 4. */
  method SearchByEmail(data: Table, email: string, col: nat) returns (r: Option<string>)
    ensures FirstMatch(data, NonEmpty, 4, email, 1).None? ==> r == Some("")
    ensures FirstMatch(data, NonEmpty, 4, email, 1).Some? ==>
      r == Cell(data[FirstMatch(data, NonEmpty, 4, email, 1).value], col)
  {
    r := SearchColumn(data, 4, email, col);
  }

  /** `searchByDoc`: the document name is in column 0. */
  method SearchByDoc(data: Table, docName: string, col: nat) returns (r: Option<string>)
    ensures FirstMatch(data, NonEmpty, 0, docName, 1).None? ==> r == Some("")
    ensures FirstMatch(data, NonEmpty, 0, docName, 1).Some? ==>
      r == Cell(data[FirstMatch(data, NonEmpty, 0, docName, 1).value], col)
  {
    r := SearchColumn(data, 0, docName, col);
  }

  /** The normalized emails of the data rows with a non-empty column 4. */
  function EmailKeys(t: Table): set<string> {
    set i | 1 <= i < |t| && 4 < |t[i]| && t[i][4] != "" :: Normalize(t[i][4])
  }

  lemma FirstMatchEmailKey(t: Table, email: string)
    requires FirstMatch(t, NonEmpty, 4, email, 1).Some?
    ensures Normalize(email) in EmailKeys(t)
  {
    var i := FirstMatch(t, NonEmpty, 4, email, 1).value;
    assert Normalize(t[i][4]) in EmailKeys(t);
  }

  /** Conversely, an email among the keys is found by the scan. */
  lemma EmailKeyFirstMatch(t: Table, email: string)
    requires Normalize(email) in EmailKeys(t)
    ensures FirstMatch(t, NonEmpty, 4, email, 1).Some?
  {
    var i :| 1 <= i < |t| && 4 < |t[i]| && t[i][4] != "" && Normalize(t[i][4]) == Normalize(email);
    assert Matches(NonEmpty, t[i], 4, email);
  }

  // ---------------------------------------------------------------------------
  // Writes as the Sheets service applies them
  // ---------------------------------------------------------------------------

  /** `row` extended with empty cells to at least `n` cells. */
  function Pad(row: Row, n: nat): (r: Row)
    ensures |r| == Max(|row|, n)
    ensures forall j :: 0 <= j < |r| ==> r[j] == (if j < |row| then row[j] else "")
  {
    if |row| >= n then row else row + seq(n - |row|, _ => "")
  }

  /** The table after writing `cells` into row `r` from column `c0` on: blank
      rows and cells in between read back empty, nothing else changes. */
  function WriteRow(t: Table, r: nat, c0: nat, cells: Row): (u: Table)
    ensures |u| == Max(|t|, r + 1)
    ensures forall i :: 0 <= i < |u| && i != r ==> u[i] == (if i < |t| then t[i] else [])
    ensures |u[r]| == Max(if r < |t| then |t[r]| else 0, c0 + |cells|)
    ensures forall j :: 0 <= j < |cells| ==> u[r][c0 + j] == cells[j]
    ensures forall j :: 0 <= j < |u[r]| && !(c0 <= j < c0 + |cells|) ==>
      u[r][j] == (if r < |t| && j < |t[r]| then t[r][j] else "")
  {
    var old_ := if r < |t| then t[r] else [];
    var padded := Pad(old_, c0 + |cells|);
    var row := padded[..c0] + cells + padded[c0 + |cells|..];
    var rows := if r < |t| then t else t + seq(r + 1 - |t|, _ => []);
    rows[r := row]
  }

  /** Writing the same cells into the same row twice is writing them once. */
  lemma WriteRowTwice(t: Table, r: nat, c0: nat, cells: Row)
    ensures WriteRow(WriteRow(t, r, c0, cells), r, c0, cells) == WriteRow(t, r, c0, cells)
  {
    var u := WriteRow(t, r, c0, cells);
    var w := WriteRow(u, r, c0, cells);
    assert |w[r]| == |u[r]|;
    assert w[r] == u[r];
    assert forall j :: 0 <= j < |w| ==> w[j] == u[j];
  }

  /** A block of rows written with its top-left corner at (`r`, `c0`). */
  function WriteBlock(t: Table, r: nat, c0: nat, rows: seq<Row>): Table
    decreases |rows|
  {
    if rows == [] then t else WriteBlock(WriteRow(t, r, c0, rows[0]), r + 1, c0, rows[1..])
  }

  /** Deleting the half-open row range [`start`, `end`): rows past the data
      are blank grid rows, so only the part inside the table goes. */
  function DeleteRange(t: Table, start: nat, end: nat): (u: Table)
    requires start <= end
    ensures |u| == |t| - (Min(end, |t|) - Min(start, |t|))
    ensures forall i :: 0 <= i < Min(start, |t|) ==> u[i] == t[i]
    ensures forall i :: Min(start, |t|) <= i < |u| ==> u[i] == t[i + Min(end, |t|) - Min(start, |t|)]
  {
    t[..Min(start, |t|)] + t[Min(end, |t|)..]
  }

  /** An entry put back into a cache and dropped again leaves the cache
      without it. */
  lemma DropAfterPut<V>(m: map<string, V>, k: string, v: V)
    ensures (m - {k})[k := v] - {k} == m - {k}
  {
    assert ((m - {k})[k := v] - {k}).Keys == (m - {k}).Keys;
  }

  /** An entry dropped from a cache and put back is the entry put. */
  lemma PutAfterDrop<V>(m: map<string, V>, k: string, v: V)
    ensures (m - {k})[k := v] == m[k := v]
  {
    assert ((m - {k})[k := v]).Keys == m[k := v].Keys;
  }

  /** A tab of a spreadsheet: its title and its numeric sheet id. */
  datatype Tab = Tab(title: string, id: int)

  /** The title of the first tab with the given id. */
  function TitleOfId(tabs: seq<Tab>, id: int): (r: Option<string>)
    ensures r.Some? ==> exists i :: 0 <= i < |tabs| && tabs[i] == Tab(r.value, id)
    ensures r.None? ==> forall i :: 0 <= i < |tabs| ==> tabs[i].id != id
    decreases |tabs|
  {
    if tabs == [] then None
    else if tabs[0].id == id then Some(tabs[0].title)
    else
      var r := TitleOfId(tabs[1..], id);
      assert forall i :: 1 <= i < |tabs| ==> tabs[i] == tabs[1..][i - 1];
      r
  }

  /** The id of the first tab with the given title. */
  function IdOfTitle(tabs: seq<Tab>, title: string): (r: Option<int>)
    ensures r.Some? ==> exists i :: 0 <= i < |tabs| && tabs[i] == Tab(title, r.value)
    ensures r.None? ==> forall i :: 0 <= i < |tabs| ==> tabs[i].title != title
    decreases |tabs|
  {
    if tabs == [] then None
    else if tabs[0].title == title then Some(tabs[0].id)
    else
      var r := IdOfTitle(tabs[1..], title);
      assert forall i :: 1 <= i < |tabs| ==> tabs[i] == tabs[1..][i - 1];
      r
  }

  /** The service gives every tab of a spreadsheet its own id. */
  predicate DistinctIds(tabs: seq<Tab>) {
    forall i, j :: 0 <= i < j < |tabs| ==> tabs[i].id != tabs[j].id
  }

  /** With distinct ids, the id found for a title leads back to that title. */
  lemma TitleOfIdOfTitle(tabs: seq<Tab>, title: string)
    requires DistinctIds(tabs) && IdOfTitle(tabs, title).Some?
    ensures TitleOfId(tabs, IdOfTitle(tabs, title).value) == Some(title)
  {
    var id := IdOfTitle(tabs, title).value;
    var i :| 0 <= i < |tabs| && tabs[i] == Tab(title, id);
    var t := TitleOfId(tabs, id);
    if t.Some? {
      var j :| 0 <= j < |tabs| && tabs[j] == Tab(t.value, id);
      assert i == j;
    }
  }

  /** One spreadsheet as the Sheets service holds it: its tabs, and the values
      of every tab by title. */
  class Workbook {
    var tabs: seq<Tab>
    var tables: map<string, Table>

    constructor (tabs: seq<Tab>, tables: map<string, Table>)
      ensures this.tabs == tabs && this.tables == tables
    {
      this.tabs := tabs;
      this.tables := tables;
    }

    /** `values.update` of one row range starting at (`r`, `c0`); a title
        the spreadsheet does not have is an error and changes nothing. */
    method Update(title: string, r: nat, c0: nat, cells: Row) returns (ok: bool)
      modifies this`tables
      ensures ok == (title in old(tables))
      ensures ok ==> tables == old(tables)[title := WriteRow(old(tables)[title], r, c0, cells)]
      ensures !ok ==> tables == old(tables)
    {
      ok := title in tables;
      if ok {
        tables := tables[title := WriteRow(tables[title], r, c0, cells)];
      }
    }

    /** `values.clear` of a whole tab followed by `values.update` of all of it. */
    method Replace(title: string, rows: Table) returns (ok: bool)
      modifies this`tables
      ensures ok == (title in old(tables))
      ensures ok ==> tables == old(tables)[title := rows]
      ensures !ok ==> tables == old(tables)
    {
      ok := title in tables;
      if ok {
        tables := tables[title := rows];
      }
    }

    /** `values.append` with `INSERT_ROWS`: the rows go after the last row. */
    method Append(title: string, rows: Table) returns (ok: bool)
      modifies this`tables
      ensures ok == (title in old(tables))
      ensures ok ==> tables == old(tables)[title := old(tables)[title] + rows]
      ensures !ok ==> tables == old(tables)
    {
      ok := title in tables;
      if ok {
        tables := tables[title := tables[title] + rows];
      }
    }

    /** `batchUpdate` with one `deleteDimension` request on the rows
        [`start`, `end`) of the tab with the given id. */
    method DeleteRows(id: int, start: nat, end: nat) returns (ok: bool)
      requires start <= end
      modifies this`tables
      ensures var t := TitleOfId(tabs, id);
        ok == (t.Some? && t.value in old(tables))
      ensures ok ==> var t := TitleOfId(tabs, id).value;
        tables == old(tables)[t := DeleteRange(old(tables)[t], start, end)]
      ensures !ok ==> tables == old(tables)
    {
      var t := TitleOfId(tabs, id);
      ok := t.Some? && t.value in tables;
      if ok {
        tables := tables[t.value := DeleteRange(tables[t.value], start, end)];
      }
    }
  }

  /** The shared cache, split by key prefix: `sheetData_<name>`,
      `validEmail:<email>`, `lastId_<tabId>`, `recruitsData_<tabId>`,
      `commentsData_<tabId>` and `rushIndexData`. `sheetIds` is the
      module-level `sheetIdCache` memo of `backend/sheets.js`, which nothing
      clears. */
  class Cache {
    var sheetData: map<string, Table>
    var validEmail: set<string>
    var lastId: map<string, int>
    var recruitsData: map<string, Table>
    var commentsData: map<string, Table>
    var rushIndexData: Option<Table>
    var sheetIds: map<string, int>

    constructor ()
      ensures sheetData == map[] && validEmail == {} && lastId == map[]
      ensures recruitsData == map[] && commentsData == map[]
      ensures rushIndexData.None? && sheetIds == map[]
    {
      sheetData := map[];
      validEmail := {};
      lastId := map[];
      recruitsData := map[];
      commentsData := map[];
      rushIndexData := None;
      sheetIds := map[];
    }
  }

  /** Every cached `sheetData_<name>` is what the spreadsheet holds. */
  predicate Coherent(book: Workbook, cache: Cache)
    reads book, cache
  {
    forall n :: n in cache.sheetData ==> n in book.tables && cache.sheetData[n] == book.tables[n]
  }

  /** Changing one tab and dropping its cache entry keeps every other
      cached table equal to its tab. */
  lemma CoherentAfterChange(cached: map<string, Table>, tables: map<string, Table>, name: string, v: Table)
    requires forall n :: n in cached ==> n in tables && cached[n] == tables[n]
    ensures forall n :: n in cached - {name} ==> n in tables[name := v] && (cached - {name})[n] == tables[name := v][n]
  {
  }

  /** What a read of a tab gives: its values, or [] when the read fails. */
  function Contents(book: Workbook, name: string): Table
    reads book
  {
    if name in book.tables then book.tables[name] else []
  }

  /** Every title the `sheetIdCache` memo holds maps to the id of the tab
      with that title. */
  predicate MemoSound(book: Workbook, cache: Cache)
    reads book, cache
  {
    forall n :: n in cache.sheetIds ==> TitleOfId(book.tabs, cache.sheetIds[n]) == Some(n)
  }

  /** Every cached `validEmail:` flag names an email of the Sigma sheet. */
  predicate FlagsListed(book: Workbook, cache: Cache)
    reads book, cache
  {
    cache.validEmail <= EmailKeys(Contents(book, "Sigma"))
  }

  /** `getParentSheet`: the cached table when there is one; otherwise a read,
      cached when it succeeds, and [] without caching when it fails. */
  method GetParentSheet(book: Workbook, cache: Cache, name: string) returns (data: Table)
    modifies cache`sheetData
    ensures name in old(cache.sheetData) ==>
      data == old(cache.sheetData)[name] && cache.sheetData == old(cache.sheetData)
    ensures name !in old(cache.sheetData) && name in book.tables ==>
      data == book.tables[name] && cache.sheetData == old(cache.sheetData)[name := data]
    ensures name !in old(cache.sheetData) && name !in book.tables ==>
      data == [] && cache.sheetData == old(cache.sheetData)
    ensures old(Coherent(book, cache)) ==> Coherent(book, cache) && data == Contents(book, name)
  {
    if name in cache.sheetData {
      return cache.sheetData[name];
    }
    if name in book.tables {
      data := book.tables[name];
      cache.sheetData := cache.sheetData[name := data];
    } else {
      data := [];
    }
  }

  /** `clearSheetCache`: drops `sheetData_<name>` and nothing else. */
  method ClearSheetCache(cache: Cache, name: string)
    modifies cache`sheetData
    ensures cache.sheetData == old(cache.sheetData) - {name}
  {
    cache.sheetData := cache.sheetData - {name};
  }

  /** `isValidEmail`: true at once when the flag is cached; otherwise a scan
      of the data rows, and a hit caches the flag. */
  method IsValidEmail(cache: Cache, sigma: Table, email: string) returns (ok: bool)
    modifies cache`validEmail
    ensures ok == (Normalize(email) in old(cache.validEmail) || FirstMatch(sigma, NonEmpty, 4, email, 1).Some?)
    ensures cache.validEmail == old(cache.validEmail) + (if ok then {Normalize(email)} else {})
    ensures old(cache.validEmail) <= EmailKeys(sigma) ==> cache.validEmail <= EmailKeys(sigma)
  {
    var key := Normalize(email);
    if key in cache.validEmail {
      return true;
    }
    var i := 1;
    while i < |sigma|
      invariant 1 <= i
      invariant FirstMatch(sigma, NonEmpty, 4, email, i) == FirstMatch(sigma, NonEmpty, 4, email, 1)
      invariant cache.validEmail == old(cache.validEmail)
      decreases |sigma| - i
    {
      var row := sigma[i];
      if 4 < |row| && row[4] != "" && Normalize(row[4]) == key {
        cache.validEmail := cache.validEmail + {key};
        FirstMatchEmailKey(sigma, email);
        return true;
      }
      i := i + 1;
    }
    return false;
  }

  /** `setValues`: a block written at (`r`, `c0`) of the named tab, then
      `sheetData_<name>` dropped. */
  method SetValues(book: Workbook, cache: Cache, name: string, r: nat, c0: nat, values: seq<Row>)
    returns (ok: bool)
    modifies book`tables, cache`sheetData
    ensures ok == (name in old(book.tables))
    ensures ok ==> book.tables == old(book.tables)[name := WriteBlock(old(book.tables)[name], r, c0, values)]
    ensures ok ==> cache.sheetData == old(cache.sheetData) - {name}
    ensures !ok ==> book.tables == old(book.tables) && cache.sheetData == old(cache.sheetData)
    ensures old(Coherent(book, cache)) ==> Coherent(book, cache)
  {
    ok := name in book.tables;
    if ok {
      book.tables := book.tables[name := WriteBlock(book.tables[name], r, c0, values)];
      cache.sheetData := cache.sheetData - {name};
    }
  }

  /** `appendRow`: one row after the last, then `sheetData_<name>` dropped. */
  method AppendRow(book: Workbook, cache: Cache, name: string, row: Row) returns (ok: bool)
    modifies book`tables, cache`sheetData
    ensures ok == (name in old(book.tables))
    ensures ok ==> book.tables == old(book.tables)[name := old(book.tables)[name] + [row]]
    ensures ok ==> cache.sheetData == old(cache.sheetData) - {name}
    ensures !ok ==> book.tables == old(book.tables) && cache.sheetData == old(cache.sheetData)
    ensures old(Coherent(book, cache)) ==> Coherent(book, cache)
  {
    ok := book.Append(name, [row]);
    if ok {
      cache.sheetData := cache.sheetData - {name};
    }
  }

  /** `getSheetId`: the memo when it has the title (it is never cleared);
      otherwise the first tab with that title, remembered; otherwise
      'Sheet "<name>" not found'. */
  method GetSheetId(book: Workbook, cache: Cache, name: string) returns (r: Result<int>)
    modifies cache`sheetIds
    ensures name in old(cache.sheetIds) ==>
      r == Ok(old(cache.sheetIds)[name]) && cache.sheetIds == old(cache.sheetIds)
    ensures name !in old(cache.sheetIds) && IdOfTitle(book.tabs, name).Some? ==>
      r == Ok(IdOfTitle(book.tabs, name).value) && cache.sheetIds == old(cache.sheetIds)[name := r.value]
    ensures name !in old(cache.sheetIds) && IdOfTitle(book.tabs, name).None? ==>
      r == Err("Sheet \"" + name + "\" not found") && cache.sheetIds == old(cache.sheetIds)
    ensures r.Ok? ==> name in cache.sheetIds && cache.sheetIds[name] == r.value
    ensures old(cache.sheetIds).Keys <= cache.sheetIds.Keys
    ensures old(MemoSound(book, cache)) && DistinctIds(book.tabs) ==> MemoSound(book, cache)
  {
    if name in cache.sheetIds {
      return Ok(cache.sheetIds[name]);
    }
    var i := 0;
    while i < |book.tabs|
      invariant 0 <= i <= |book.tabs|
      invariant IdOfTitle(book.tabs[i..], name) == IdOfTitle(book.tabs, name)
      decreases |book.tabs| - i
    {
      assert book.tabs[i..][1..] == book.tabs[i + 1..];
      if book.tabs[i].title == name {
        var id := book.tabs[i].id;
        if DistinctIds(book.tabs) {
          TitleOfIdOfTitle(book.tabs, name);
        }
        cache.sheetIds := cache.sheetIds[name := id];
        return Ok(id);
      }
      i := i + 1;
    }
    return Err("Sheet \"" + name + "\" not found");
  }

  /** Stands for the error text of a request the Sheets service rejects. */
  const ServiceError := "request rejected by the Sheets service"

  /** `deleteRow` with a 1-based row number: the id is looked up (through the
      memo), then the 0-based range [`rowIndex` - 1, `rowIndex`) of the tab
      with that id goes and `sheetData_<name>` is dropped. */
  method DeleteRow(book: Workbook, cache: Cache, name: string, rowIndex: int) returns (r: Result<()>)
    modifies book`tables, cache`sheetData, cache`sheetIds
    ensures r.Ok? ==>
      rowIndex >= 1 && name in cache.sheetIds && TitleOfId(book.tabs, cache.sheetIds[name]).Some?
    ensures r.Ok? ==>
      var t := TitleOfId(book.tabs, cache.sheetIds[name]).value;
      t in old(book.tables)
      && book.tables == old(book.tables)[t := DeleteRange(old(book.tables)[t], rowIndex - 1, rowIndex)]
      && cache.sheetData == old(cache.sheetData) - {name}
    ensures r.Err? ==> book.tables == old(book.tables) && cache.sheetData == old(cache.sheetData)
    ensures old(MemoSound(book, cache)) && DistinctIds(book.tabs) ==> MemoSound(book, cache)
    ensures old(Coherent(book, cache) && MemoSound(book, cache)) && DistinctIds(book.tabs) ==>
      Coherent(book, cache) && book.tables.Keys == old(book.tables).Keys
      && (r.Ok? ==> book.tables[name] == DeleteRange(old(book.tables)[name], rowIndex - 1, rowIndex))
  {
    var id := GetSheetId(book, cache, name);
    if id.Err? {
      return Err(id.msg);
    }
    if rowIndex < 1 {
      return Err(ServiceError);
    }
    var ok := book.DeleteRows(id.value, rowIndex - 1, rowIndex);
    if !ok {
      return Err(ServiceError);
    }
    cache.sheetData := cache.sheetData - {name};
    return Ok(());
  }

  /** `getLastRow`: the number of rows of the (possibly cached) table. */
  method GetLastRow(book: Workbook, cache: Cache, name: string) returns (n: nat)
    modifies cache`sheetData
    ensures old(Coherent(book, cache)) ==> Coherent(book, cache) && n == |Contents(book, name)|
  {
    var data := GetParentSheet(book, cache, name);
    n := |data|;
  }

  /** `getLastRow` and `appendRow` agree: after a row is appended to a tab,
      the tab reports one more row, and the new row is the last one. */
  method LastRowAfterAppend(book: Workbook, cache: Cache, name: string, row: Row) returns (before: nat, after: nat)
    requires Coherent(book, cache) && name in book.tables
    modifies book`tables, cache`sheetData
    ensures after == before + 1
    ensures after == |Contents(book, name)| && Contents(book, name)[after - 1] == row
    ensures Coherent(book, cache)
  {
    before := GetLastRow(book, cache, name);
    var _ := AppendRow(book, cache, name, row);
    after := GetLastRow(book, cache, name);
  }
}
