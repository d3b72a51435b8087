/** The custom buttons of `backend/buttons.js`: the rows of the Buttons
    sheet in their two layouts, who sees which button, the manager's list,
    and saving, updating and deleting rows.

    A new-layout row holds, by column: 0 id, 1 name, 2 description, 3 icon,
    4 color, 5 access type, 6 access list (JSON), 7 content, 8 creator,
    9 owner position, 10 exclude-pledges flag, 11 last modified. A legacy
    row holds: 0 id, 1 name, 2 access type, 3 access list, 4 content,
    5 creator, 6 owner position, 7 last modified. */
module Buttons {
  import opened Wrappers
  import opened Text
  import opened Json
  import opened Sheets

  const ButtonSheet := "Buttons"
  const DefaultColor := "#ffd700"
  const StorageHost := "storage.googleapis.com"
  const OffloadLength := 1000
  const NamePlaceholder := "{{name}}"

  const ButtonNotFound := "Button not found"
  const ButtonSheetMissing := "Button sheet not found"
  const SavedMessage := "Button saved successfully"
  const UpdatedMessage := "Button updated successfully"
  const DeletedMessage := "Button deleted successfully"

  /** `getAllOfficerPositions`, also every position of the development user. */
  const OfficerPositions: seq<string> :=
    ["Alpha", "Beta", "Sigma", "Chi", "Iota", "Tau", "Gamma", "Rho", "Theta",
     "Associate Tau", "Associate Gamma", "Associate Iota", "Associate Rho",
     "Pi", "Delta", "Associate Delta", "Psi", "Upsilon", "Gamma's Theta",
     "Phi", "Omicron", "Mu"]

  // ---------------------------------------------------------------------------
  // Reading rows
  // ---------------------------------------------------------------------------

  /** A cell that names an access type: set, and 'All' or mentioning 'Specific'. */
  predicate IsAccessType(cell: Option<string>) {
    cell.Some? && cell.value != "" && (cell.value == "All" || Contains(cell.value, "Specific"))
  }

  /** A row is in the legacy layout when column 5 holds no access type while
      column 2 does. */
  predicate IsLegacy(row: Row)
    ensures IsLegacy(row) ==> 2 < |row| && (row[2] == "All" || Contains(row[2], "Specific"))
    ensures IsLegacy(row) ==> |row| <= 5 || row[5] == "" || (row[5] != "All" && !Contains(row[5], "Specific"))
  {
    !IsAccessType(Cell(row, 5)) && IsAccessType(Cell(row, 2))
  }

  datatype Button = Button(id: string, name: Option<string>, description: string, icon: string,
                           color: string, accessType: Option<string>, accessList: seq<string>,
                           content: Option<string>, createdBy: Option<string>, ownerPosition: string,
                           excludePledges: bool, lastModified: Option<string>)

  /** `cell ? JSON.parse(cell) : []`; `None` where the parse throws. */
  function AccessList(cell: Option<string>): (r: Option<seq<string>>)
    ensures cell.None? || cell == Some("") ==> r == Some([])
  {
    if cell.Some? && cell.value != "" then DecodeNames(cell.value) else Some([])
  }

  /** The exclude-pledges flag as the sheet shows it: only "TRUE" is set. */
  predicate ExcludeFlag(cell: string) {
    cell == BoolText(true)
  }

  /** One row of `getCustomButtons` in either layout, with the defaults
      '#ffd700' for the color and '' for the description, icon and owner
      position; a legacy row never excludes pledges. */
  function ParseButton(row: Row): (r: Result<Button>)
    requires 0 < |row|
    ensures r.Ok? <==> AccessList(Cell(row, if IsLegacy(row) then 3 else 6)).Some?
    ensures r.Ok? ==> r.value.id == row[0] && r.value.name == Cell(row, 1) && r.value.color != ""
    ensures r.Ok? && IsLegacy(row) ==>
      r.value.description == "" && r.value.icon == "" && r.value.color == DefaultColor
      && r.value.accessType == Cell(row, 2) && r.value.accessList == AccessList(Cell(row, 3)).value
      && r.value.content == Cell(row, 4) && r.value.createdBy == Cell(row, 5)
      && r.value.ownerPosition == CellOr(row, 6, "") && !r.value.excludePledges
      && r.value.lastModified == Cell(row, 7)
    ensures r.Ok? && !IsLegacy(row) ==>
      r.value.description == CellOr(row, 2, "") && r.value.icon == CellOr(row, 3, "")
      && r.value.color == CellOr(row, 4, DefaultColor)
      && r.value.accessType == Cell(row, 5) && r.value.accessList == AccessList(Cell(row, 6)).value
      && r.value.content == Cell(row, 7) && r.value.createdBy == Cell(row, 8)
      && r.value.ownerPosition == CellOr(row, 9, "")
      && r.value.excludePledges == ExcludeFlag(CellOr(row, 10, ""))
      && r.value.lastModified == Cell(row, 11)
  {
    if IsLegacy(row) then
      match AccessList(Cell(row, 3))
      case None => Err(InvalidJson)
      case Some(list) =>
        Ok(Button(row[0], Cell(row, 1), "", "", DefaultColor, Cell(row, 2), list, Cell(row, 4),
                  Cell(row, 5), CellOr(row, 6, ""), false, Cell(row, 7)))
    else
      match AccessList(Cell(row, 6))
      case None => Err(InvalidJson)
      case Some(list) =>
        Ok(Button(row[0], Cell(row, 1), CellOr(row, 2, ""), CellOr(row, 3, ""), CellOr(row, 4, DefaultColor),
                  Cell(row, 5), list, Cell(row, 7), Cell(row, 8), CellOr(row, 9, ""),
                  ExcludeFlag(CellOr(row, 10, "")), Cell(row, 11)))
  }

  const InvalidJson := "access list is not a JSON array of strings"

  /** The source reads the flag as `row[10] || false`, which holds for the
      text "FALSE" the sheet shows for a saved `false`. */
  function ParseButtonAsWritten(row: Row): (r: Result<Button>)
    requires 0 < |row|
    ensures r.Ok? == ParseButton(row).Ok?
    ensures r.Ok? && !IsLegacy(row) ==> r.value.excludePledges == (CellOr(row, 10, "") != "")
  {
    match ParseButton(row)
    case Err(m) => Err(m)
    case Ok(b) => Ok(if IsLegacy(row) then b else b.(excludePledges := CellOr(row, 10, "") != ""))
  }

  /** A row with no id is skipped. */
  predicate Skipped(row: Row) {
    |row| == 0 || row[0] == ""
  }

  /** The buttons of the rows from `from` on; the first row
      whose access list does not parse makes the whole read fail. */
  function ParseButtons(data: Table, from: nat): (r: Result<seq<Button>>)
    ensures r.Ok? ==> forall b :: b in r.value ==>
      exists i :: from <= i < |data| && !Skipped(data[i]) && ParseButton(data[i]) == Ok(b)
    ensures r.Err? <==> exists i :: from <= i < |data| && !Skipped(data[i]) && ParseButton(data[i]).Err?
    decreases |data| - from
  {
    if from >= |data| then Ok([])
    else if Skipped(data[from]) then ParseButtons(data, from + 1)
    else match ParseButton(data[from])
      case Err(m) => Err(m)
      case Ok(b) =>
        match ParseButtons(data, from + 1)
        case Err(m) => Err(m)
        case Ok(bs) => Ok([b] + bs)
  }

  /** `getCustomButtons` on the Buttons sheet's rows: a failed read gives
      no buttons at all. */
  function CustomButtons(data: Table): (r: seq<Button>)
    ensures |data| <= 1 ==> r == []
    ensures forall b :: b in r ==>
      exists i :: 1 <= i < |data| && !Skipped(data[i]) && ParseButton(data[i]) == Ok(b)
    ensures (exists i :: 1 <= i < |data| && !Skipped(data[i]) && ParseButton(data[i]).Err?) ==> r == []
  {
    if |data| <= 1 then []
    else match ParseButtons(data, 1)
      case Ok(bs) => bs
      case Err(_) => []
  }

  /** Puts read buttons in front of the rest of a read. */
  function Prepend(acc: seq<Button>, r: Result<seq<Button>>): Result<seq<Button>> {
    match r
    case Ok(bs) => Ok(acc + bs)
    case Err(m) => Err(m)
  }

  lemma PrependNothing(r: Result<seq<Button>>)
    ensures Prepend([], r) == r
  {
    if r.Ok? {
      assert [] + r.value == r.value;
    }
  }

  lemma PrependStep(acc: seq<Button>, b: Button, r: Result<seq<Button>>)
    ensures Prepend(acc, Prepend([b], r)) == Prepend(acc + [b], r)
  {
    if r.Ok? {
      assert acc + ([b] + r.value) == (acc + [b]) + r.value;
    }
  }

  /** The loop of `getCustomButtons`. */
  method ReadButtons(data: Table) returns (bs: seq<Button>)
    ensures bs == CustomButtons(data)
  {
    if |data| <= 1 {
      return [];
    }
    bs := [];
    var i := 1;
    PrependNothing(ParseButtons(data, 1));
    while i < |data|
      invariant 1 <= i <= |data|
      invariant ParseButtons(data, 1) == Prepend(bs, ParseButtons(data, i))
      decreases |data| - i
    {
      var row := data[i];
      if !Skipped(row) {
        var b := ParseButton(row);
        if b.Err? {
          return [];
        }
        PrependStep(bs, b.value, ParseButtons(data, i + 1));
        bs := bs + [b.value];
      }
      i := i + 1;
    }
    assert bs + [] == bs;
  }

  // ---------------------------------------------------------------------------
  // Who sees a button
  // ---------------------------------------------------------------------------

  /** The user as the display filter knows them. */
  datatype Viewer = Viewer(name: string, positions: seq<string>)

  /** The first data row from `from` on whose email cell is set and equals
      the email once both are lower-cased (not trimmed). */
  function ViewerRow(sigma: Table, email: string, from: nat): (r: Option<nat>)
    ensures r.Some? ==> from <= r.value < |sigma| && 4 < |sigma[r.value]| && sigma[r.value][4] != ""
                        && ToLower(sigma[r.value][4]) == ToLower(email)
    ensures r.Some? ==> forall j :: from <= j < r.value ==>
      !(4 < |sigma[j]| && sigma[j][4] != "" && ToLower(sigma[j][4]) == ToLower(email))
    ensures r.None? ==> forall j :: from <= j < |sigma| ==>
      !(4 < |sigma[j]| && sigma[j][4] != "" && ToLower(sigma[j][4]) == ToLower(email))
    decreases |sigma| - from
  {
    if from >= |sigma| then None
    else if 4 < |sigma[from]| && sigma[from][4] != "" && ToLower(sigma[from][4]) == ToLower(email) then Some(from)
    else ViewerRow(sigma, email, from + 1)
  }

  /** The viewer of `getButtonsForDisplay`: the development user holds every
      officer position; otherwise the name and the comma-separated, trimmed,
      non-empty positions of the first matching row, or nobody. */
  function ViewerOf(sigma: Table, email: string, isDev: bool): Viewer {
    if isDev then Viewer("Admin", OfficerPositions)
    else match ViewerRow(sigma, email, 1)
      case None => Viewer("", [])
      case Some(i) => Viewer(CellOr(sigma[i], 5, ""), TrimmedPieces(CellOr(sigma[i], 6, ""), ','))
  }

  /** The roster scan of `getButtonsForDisplay`, which stops at the first match. */
  method FindViewer(sigma: Table, email: string, isDev: bool) returns (v: Viewer)
    ensures v == ViewerOf(sigma, email, isDev)
    ensures !isDev ==> forall p :: p in v.positions ==> p != "" && Trim(p) == p
  {
    if isDev {
      return Viewer("Admin", OfficerPositions);
    }
    var i := 1;
    while i < |sigma|
      invariant 1 <= i
      invariant ViewerRow(sigma, email, i) == ViewerRow(sigma, email, 1)
      decreases |sigma| - i
    {
      var row := sigma[i];
      if 4 < |row| && row[4] != "" && ToLower(row[4]) == ToLower(email) {
        v := Viewer(CellOr(row, 5, ""), TrimmedPieces(CellOr(row, 6, ""), ','));
        PiecesTrimmed(CellOr(row, 6, ""));
        return;
      }
      i := i + 1;
    }
    return Viewer("", []);
  }

  /** Trimmed pieces stay trimmed. */
  lemma PiecesTrimmed(s: string)
    ensures forall p :: p in TrimmedPieces(s, ',') ==> p != "" && Trim(p) == p
  {
    var ps := TrimAll(Split(s, ','));
    forall p | p in TrimmedPieces(s, ',')
      ensures Trim(p) == p
    {
      var k :| 0 <= k < |ps| && ps[k] == p;
      TrimIdempotent(Split(s, ',')[k]);
    }
  }

  /** Some position mentions 'pledge', in either case. */
  predicate IsPledge(v: Viewer) {
    exists p :: p in v.positions && Contains(ToLower(p), "pledge")
  }

  /** The display rule, in the order the source checks it. */
  predicate Shown(b: Button, v: Viewer, isAdmin: bool)
    ensures isAdmin ==> Shown(b, v, isAdmin)
    ensures !isAdmin && b.excludePledges && IsPledge(v) ==> !Shown(b, v, isAdmin)
    ensures !isAdmin && Shown(b, v, isAdmin) ==>
      b.accessType in {Some("All"), Some("Specific Bros"), Some("Specific Officers")}
  {
    if b.excludePledges && IsPledge(v) && !isAdmin then false
    else if isAdmin then true
    else if b.accessType == Some("All") then true
    else if b.accessType == Some("Specific Bros") then
      exists n :: n in b.accessList && ToLower(n) == ToLower(v.name)
    else if b.accessType == Some("Specific Officers") then
      exists p :: p in b.accessList && p in v.positions
    else false
  }

  /** A button as the page receives it. */
  datatype Display = Display(id: string, name: Option<string>, description: string, icon: string,
                             color: string, content: Option<string>, isHtml: bool)

  /** Content kept in blob storage is replaced by the page it names. */
  function Fetched(content: Option<string>, fetch: string -> string): (c: Option<string>)
    ensures content.None? ==> c.None?
    ensures content.Some? && !Contains(content.value, StorageHost) ==> c == content
  {
    if content.Some? && content.value != "" && Contains(content.value, StorageHost) then Some(fetch(content.value))
    else content
  }

  function DisplayOf(b: Button, fetch: string -> string): Display {
    var c := Fetched(b.content, fetch);
    Display(b.id, b.name, b.description, b.icon, Or(b.color, DefaultColor), c, c.Some? && Contains(c.value, "<"))
  }

  /** The display entries of the buttons the viewer may see. */
  function Visible(bs: seq<Button>, v: Viewer, isAdmin: bool, fetch: string -> string): (r: seq<Display>)
    ensures |r| <= |bs|
    ensures forall d :: d in r <==> exists b :: b in bs && Shown(b, v, isAdmin) && d == DisplayOf(b, fetch)
    decreases |bs|
  {
    if bs == [] then []
    else
      var rest := Visible(bs[1..], v, isAdmin, fetch);
      assert forall b :: b in bs <==> b == bs[0] || b in bs[1..];
      if Shown(bs[0], v, isAdmin) then [DisplayOf(bs[0], fetch)] + rest else rest
  }

  /** The filter loop of `getButtonsForDisplay`. */
  method ButtonsForDisplay(bs: seq<Button>, v: Viewer, isAdmin: bool, fetch: string -> string)
    returns (r: seq<Display>)
    ensures r == Visible(bs, v, isAdmin, fetch)
  {
    r := [];
    var i := 0;
    while i < |bs|
      invariant 0 <= i <= |bs|
      invariant r + Visible(bs[i..], v, isAdmin, fetch) == Visible(bs, v, isAdmin, fetch)
      decreases |bs| - i
    {
      assert bs[i..][1..] == bs[i + 1..];
      if Shown(bs[i], v, isAdmin) {
        r := r + [DisplayOf(bs[i], fetch)];
      }
      i := i + 1;
    }
  }

  /** The administrator sees every button. */
  lemma {:induction false} AdminSeesAll(bs: seq<Button>, v: Viewer, fetch: string -> string)
    ensures |Visible(bs, v, true, fetch)| == |bs|
    decreases |bs|
  {
    if bs != [] {
      AdminSeesAll(bs[1..], v, fetch);
    }
  }

  /** A pledge who is not the administrator never sees a button that
      excludes pledges, whatever its access type. */
  lemma PledgeNeverSeesExcluded(bs: seq<Button>, v: Viewer, fetch: string -> string)
    requires IsPledge(v)
    ensures forall d :: d in Visible(bs, v, false, fetch) ==>
      exists b :: b in bs && !b.excludePledges && d == DisplayOf(b, fetch)
  {
  }

  /** A button open to all is seen by everyone it does not exclude. */
  lemma AllIsSeen(bs: seq<Button>, b: Button, v: Viewer, isAdmin: bool, fetch: string -> string)
    requires b in bs && b.accessType == Some("All") && !(b.excludePledges && IsPledge(v))
    ensures DisplayOf(b, fetch) in Visible(bs, v, isAdmin, fetch)
  {
  }

  // ---------------------------------------------------------------------------
  // The manager's list
  // ---------------------------------------------------------------------------

  /** `userPosition.split(',').map(p => p.trim())`, or none for no position;
      empty pieces are kept. */
  function ManagerPositions(userPosition: string): seq<string> {
    if userPosition == "" then [] else TrimAll(Split(userPosition, ','))
  }

  /** The user created the button (same email in either case) or holds its
      owner position. */
  predicate Manages(b: Button, email: string, positions: seq<string>) {
    (b.createdBy.Some? && b.createdBy.value != "" && ToLower(b.createdBy.value) == ToLower(email))
    || (b.ownerPosition != "" && b.ownerPosition in positions)
  }

  function Managed(bs: seq<Button>, email: string, positions: seq<string>): (r: seq<Button>)
    ensures |r| <= |bs|
    ensures forall b :: b in r <==> b in bs && Manages(b, email, positions)
    decreases |bs|
  {
    if bs == [] then []
    else
      var rest := Managed(bs[1..], email, positions);
      assert forall b :: b in bs <==> b == bs[0] || b in bs[1..];
      if Manages(bs[0], email, positions) then [bs[0]] + rest else rest
  }

  /** `getButtonsForManager`: the development user manages everything. */
  function ButtonsForManager(bs: seq<Button>, email: string, userPosition: string, isDev: bool): (r: seq<Button>)
    ensures isDev ==> r == bs
    ensures !isDev ==> forall b :: b in r <==> b in bs && Manages(b, email, ManagerPositions(userPosition))
  {
    if isDev then bs else Managed(bs, email, ManagerPositions(userPosition))
  }

  /** A user manages a button they created, whatever its owner position. */
  lemma CreatorManages(bs: seq<Button>, b: Button, email: string, userPosition: string)
    requires b in bs && b.createdBy == Some(email) && email != ""
    ensures b in ButtonsForManager(bs, email, userPosition, false)
  {
  }

  // ---------------------------------------------------------------------------
  // Content kept in blob storage
  // ---------------------------------------------------------------------------

  /** Content goes to blob storage when it looks like HTML and is longer
      than 1000 UTF-16 code units (`content.length`). */
  predicate Offloaded(content: string)
    ensures Offloaded(content) ==> Contains(content, "<") && 2 * |content| > OffloadLength
    ensures Contains(content, "<") && |content| > OffloadLength ==> Offloaded(content)
  {
    Contains(content, "<") && Utf16Length(content) > OffloadLength
  }

  /** What the row stores: the upload's address when content is offloaded
      and the upload gave one, the content itself otherwise. */
  function StoredContent(content: string, upload: Option<string>): (c: string)
    ensures !Offloaded(content) ==> c == content
    ensures c == content || (Offloaded(content) && upload == Some(c) && c != "")
    ensures Offloaded(content) && upload.Some? && upload.value != "" ==> c == upload.value
  {
    if Offloaded(content) && upload.Some? && upload.value != "" then upload.value else content
  }

  /** The object name an upload of button `id` uses. */
  function FileName(id: string): string {
    "button_" + id + ".html"
  }

  /** `s.split(c)[0]`: everything before the first `c`. */
  function UpTo(s: string, c: char): (r: string)
    ensures |r| <= |s| && r == s[..|r|] && c !in r
    ensures |r| < |s| ==> s[|r|] == c
    decreases |s|
  {
    if s == [] || s[0] == c then [] else [s[0]] + UpTo(s[1..], c)
  }

  lemma {:induction false} UpToSplit(s: string, c: char)
    ensures UpTo(s, c) == Split(s, c)[0]
    decreases |s|
  {
    if s != [] {
      UpToSplit(s[1..], c);
    }
  }

  /** The position of the last '/', or -1. */
  function LastSlash(s: string): (k: int)
    ensures -1 <= k < |s|
    ensures k >= 0 ==> s[k] == '/'
    ensures forall j :: k < j < |s| ==> s[j] != '/'
    decreases |s|
  {
    if s == [] then -1
    else if s[|s| - 1] == '/' then |s| - 1
    else LastSlash(s[..|s| - 1])
  }

  /** `extractFileNameFromUrl`: the query is dropped and the non-empty piece
      after the last '/' is the name; there is none when the address ends
      in '/' or holds no '/'. */
  function ExtractFileName(url: string): (r: Option<string>)
    ensures r.Some? ==> r.value != "" && '/' !in r.value && '?' !in r.value
  {
    var path := UpTo(url, '?');
    var k := LastSlash(path);
    if k < 0 || k == |path| - 1 then None else Some(path[k + 1..])
  }

  /** An address made of a query-free base, '/', a name and an optional
      query gives that name back. */
  lemma ExtractBuilt(base: string, name: string, query: string)
    requires '?' !in base && name != "" && '/' !in name && '?' !in name
    requires query == "" || query[0] == '?'
    ensures ExtractFileName(base + "/" + name + query) == Some(name)
  {
    var url := base + "/" + name + query;
    var path := base + "/" + name;
    UpToPrefix(path, query, '?');
    assert url == path + query;
    var k := LastSlash(path);
    assert path[|base|] == '/';
    assert k == |base|;
    assert path[k + 1..] == name;
  }

  lemma {:induction false} UpToPrefix(s: string, rest: string, c: char)
    requires c !in s && (rest == [] || rest[0] == c)
    ensures UpTo(s + rest, c) == s
    decreases |s|
  {
    if s != [] {
      assert s[0] in s;
      assert (s + rest)[1..] == s[1..] + rest;
      UpToPrefix(s[1..], rest, c);
    } else {
      assert s + rest == rest;
    }
  }

  /** The object name of an uploaded button is found again in its address. */
  lemma UploadNameFound(base: string, id: string)
    requires '?' !in base && '/' !in id && '?' !in id
    ensures ExtractFileName(base + "/" + FileName(id)) == Some(FileName(id))
  {
    assert '/' !in FileName(id) && '?' !in FileName(id);
    ExtractBuilt(base, FileName(id), "");
    assert base + "/" + FileName(id) + "" == base + "/" + FileName(id);
  }

  // ---------------------------------------------------------------------------
  // Building rows
  // ---------------------------------------------------------------------------

  /** The fields a save or an update is given; "" stands for an absent
      string, `None` for an absent flag. */
  datatype Draft = Draft(buttonName: string, description: string, icon: string, color: string,
                         accessType: string, accessList: seq<string>, content: string,
                         ownerPosition: string, excludePledges: Option<bool>)

  /** The new-layout row an update writes over the stored row `stored`: the
      creator and, when not given, the owner position and the flag are kept. */
  function ButtonRow(d: Draft, id: string, stored: Row, content: string, email: string, now: string): (row: Row)
    ensures |row| == 12
  {
    [id, d.buttonName, d.description, d.icon, Or(d.color, DefaultColor), Or(d.accessType, "All"),
     EncodeNames(d.accessList), content, CellOr(stored, 8, email), Or(d.ownerPosition, CellOr(stored, 9, "")),
     if d.excludePledges.Some? then BoolText(d.excludePledges.value) else CellOr(stored, 10, BoolText(false)),
     now]
  }

  /** The row `saveCustomButton` appends: the update's row over nothing, so
      the saver is the creator and an absent flag is `false`. */
  function NewButtonRow(d: Draft, id: string, content: string, email: string, now: string): (r: Row)
    ensures |r| == 12 && r[0] == id && r[7] == content && r[11] == now
    ensures r[8] == email && r[9] == d.ownerPosition
    ensures d.excludePledges.None? ==> r[10] == BoolText(false)
  {
    ButtonRow(d, id, [], content, email, now)
  }

  /** The row read back from an update gives the draft's fields, the stored
      creator (the editor for a row that had none) and the stored owner
      position and flag where the draft has none. */
  lemma ButtonRowReadsBack(d: Draft, id: string, stored: Row, content: string, email: string, now: string)
    requires id != "" && (d.accessType == "" || IsAccessType(Some(d.accessType)))
    ensures ParseButton(ButtonRow(d, id, stored, content, email, now)) ==
      Ok(Button(id, Some(d.buttonName), d.description, d.icon, Or(d.color, DefaultColor),
                Some(Or(d.accessType, "All")), d.accessList, Some(content), Some(CellOr(stored, 8, email)),
                Or(d.ownerPosition, CellOr(stored, 9, "")),
                if d.excludePledges.Some? then d.excludePledges.value else ExcludeFlag(CellOr(stored, 10, "")),
                Some(now)))
  {
    var row := ButtonRow(d, id, stored, content, email, now);
    assert Contains("All", "Specific") == false by {
      assert !StartsWith("All", "Specific");
    }
    assert IsAccessType(Cell(row, 5));
    assert !IsLegacy(row);
    DecodeEncodeNames(d.accessList);
    assert EncodeNames(d.accessList) != "";
    assert CellOr(row, 4, DefaultColor) == Or(d.color, DefaultColor);
  }

  /** A saved button reads back with its fields, the saver as creator and
      the flag as given, `false` when absent. */
  lemma NewButtonReadsBack(d: Draft, id: string, content: string, email: string, now: string)
    requires id != "" && (d.accessType == "" || IsAccessType(Some(d.accessType)))
    ensures var b := ParseButton(NewButtonRow(d, id, content, email, now));
      b.Ok? && b.value.createdBy == Some(email) && b.value.accessList == d.accessList
      && b.value.excludePledges == (d.excludePledges == Some(true))
      && b.value.ownerPosition == d.ownerPosition
  {
    ButtonRowReadsBack(d, id, [], content, email, now);
    if d.excludePledges.None? {
      assert CellOr([], 10, "") == "";
    }
  }

  /** Read as the source reads it, the flag of every saved new-layout button
      is set, even when it was saved as `false`; a pledge then never sees the
      button, while the corrected read shows an 'All' button to everyone. */
  lemma SavedFalseExcludesAsWritten(d: Draft, id: string, content: string, email: string, now: string, v: Viewer)
    requires id != "" && d.accessType == "All" && d.excludePledges != Some(true) && IsPledge(v)
    ensures var row := NewButtonRow(d, id, content, email, now);
      ParseButtonAsWritten(row).Ok? && ParseButtonAsWritten(row).value.excludePledges
      && !Shown(ParseButtonAsWritten(row).value, v, false)
      && ParseButton(row).Ok? && !ParseButton(row).value.excludePledges
      && Shown(ParseButton(row).value, v, false)
  {
    var row := NewButtonRow(d, id, content, email, now);
    NewButtonReadsBack(d, id, content, email, now);
    assert IsAccessType(Some("All"));
    assert !IsLegacy(row);
    assert row[10] == BoolText(false);
  }

  /** One item of a bulk save. */
  datatype Item = Item(name: string, content: string)

  /** The fields a bulk save shares between its items. */
  datatype Bulk = Bulk(nameTemplate: string, description: string, icon: string, color: string,
                       accessType: string, ownerPosition: string)

  /** The row of one item: the template with its first `{{name}}` replaced,
      the item's name as the only access-list entry, the flag `false`. */
  function BulkRow(bulk: Bulk, item: Item, id: string, content: string, email: string, now: string): (row: Row)
    ensures |row| == 12
  {
    [id, ReplaceFirst(bulk.nameTemplate, NamePlaceholder, item.name), bulk.description, bulk.icon,
     Or(bulk.color, DefaultColor), bulk.accessType, EncodeNames([item.name]), content, email,
     bulk.ownerPosition, BoolText(false), now]
  }

  /** A personal button reads back as a 'Specific Bros' button for exactly
      one name, which pledges may see. */
  lemma BulkRowReadsBack(bulk: Bulk, item: Item, id: string, content: string, email: string, now: string)
    requires id != "" && IsAccessType(Some(bulk.accessType))
    ensures var b := ParseButton(BulkRow(bulk, item, id, content, email, now));
      b.Ok? && b.value.accessList == [item.name] && !b.value.excludePledges
      && b.value.accessType == Some(bulk.accessType) && b.value.createdBy == Some(email)
      && b.value.name == Some(ReplaceFirst(bulk.nameTemplate, NamePlaceholder, item.name))
  {
    var row := BulkRow(bulk, item, id, content, email, now);
    assert !IsLegacy(row);
    DecodeEncodeNames([item.name]);
  }

  /** A personal 'Specific Bros' button is shown to a member exactly when
      their name equals the item's, in either case. */
  lemma PersonalButtonShown(bulk: Bulk, item: Item, id: string, content: string, email: string, now: string,
                            v: Viewer)
    requires id != "" && bulk.accessType == "Specific Bros"
    ensures var b := ParseButton(BulkRow(bulk, item, id, content, email, now));
      b.Ok? && (Shown(b.value, v, false) <==> ToLower(item.name) == ToLower(v.name))
  {
    assert StartsWith("Specific Bros", "Specific");
    BulkRowReadsBack(bulk, item, id, content, email, now);
  }

  // ---------------------------------------------------------------------------
  // Saving, updating, deleting
  // ---------------------------------------------------------------------------

  /** `saveCustomButton` as written: the row is appended and only the list
      memo is dropped, so a cached copy of the Buttons sheet goes stale. */
  method SaveCustomButtonAsWritten(book: Workbook, cache: Cache, d: Draft, id: string, upload: Option<string>,
                                   email: string, now: string)
    returns (r: Result<Reply>)
    requires Coherent(book, cache)
    modifies book`tables
    ensures ButtonSheet in old(book.tables) ==>
      r == Ok(Reply(true, SavedMessage))
      && book.tables == old(book.tables)[ButtonSheet :=
           old(book.tables)[ButtonSheet] + [NewButtonRow(d, id, StoredContent(d.content, upload), email, now)]]
    ensures ButtonSheet !in old(book.tables) ==> r == Err(ServiceError) && book.tables == old(book.tables)
    ensures ButtonSheet in cache.sheetData && r.Ok? ==> !Coherent(book, cache)
  {
    var row := NewButtonRow(d, id, StoredContent(d.content, upload), email, now);
    var ok := book.Append(ButtonSheet, [row]);
    if !ok {
      return Err(ServiceError);
    }
    if ButtonSheet in cache.sheetData {
      assert |cache.sheetData[ButtonSheet]| < |book.tables[ButtonSheet]|;
    }
    return Ok(Reply(true, SavedMessage));
  }

  /** `saveCustomButton`: the new row goes last, and the Buttons sheet's
      cache entry is cleared with the list. */
  method SaveCustomButton(book: Workbook, cache: Cache, d: Draft, id: string, upload: Option<string>,
                          email: string, now: string)
    returns (r: Result<Reply>)
    requires Coherent(book, cache)
    modifies book`tables, cache`sheetData
    ensures Coherent(book, cache)
    ensures ButtonSheet in old(book.tables) ==>
      r == Ok(Reply(true, SavedMessage))
      && book.tables == old(book.tables)[ButtonSheet :=
           old(book.tables)[ButtonSheet] + [NewButtonRow(d, id, StoredContent(d.content, upload), email, now)]]
    ensures ButtonSheet !in old(book.tables) ==> r == Err(ServiceError) && book.tables == old(book.tables)
  {
    var row := NewButtonRow(d, id, StoredContent(d.content, upload), email, now);
    var ok := AppendRow(book, cache, ButtonSheet, row);
    if !ok {
      return Err(ServiceError);
    }
    return Ok(Reply(true, SavedMessage));
  }

  /** The item loop of `saveBulkButtons`, one fresh id and one upload
      result per item. */
  method BulkRows(bulk: Bulk, items: seq<Item>, ids: seq<string>, uploads: seq<Option<string>>,
                  email: string, now: string)
    returns (rows: Table)
    requires |ids| == |items| && |uploads| == |items|
    ensures |rows| == |items|
    ensures forall k :: 0 <= k < |items| ==>
      rows[k] == BulkRow(bulk, items[k], ids[k], StoredContent(items[k].content, uploads[k]), email, now)
  {
    rows := [];
    var k := 0;
    while k < |items|
      invariant 0 <= k <= |items| && |rows| == k
      invariant forall j :: 0 <= j < k ==>
        rows[j] == BulkRow(bulk, items[j], ids[j], StoredContent(items[j].content, uploads[j]), email, now)
      decreases |items| - k
    {
      rows := rows + [BulkRow(bulk, items[k], ids[k], StoredContent(items[k].content, uploads[k]), email, now)];
      k := k + 1;
    }
  }

  /** The answer of a bulk save. */
  function CreatedMessage(n: nat): string {
    "Created " + NatToString(n) + " personalized buttons successfully"
  }

  /** `saveBulkButtons` as written: the rows are appended and only the list
      memo is dropped, so a cached copy of the Buttons sheet goes stale. */
  method SaveBulkButtonsAsWritten(book: Workbook, cache: Cache, bulk: Bulk, items: seq<Item>, ids: seq<string>,
                                  uploads: seq<Option<string>>, email: string, now: string)
    returns (r: Result<Reply>)
    requires Coherent(book, cache)
    requires |ids| == |items| && |uploads| == |items|
    modifies book`tables
    ensures items == [] ==> r == Ok(Reply(true, CreatedMessage(0))) && book.tables == old(book.tables)
    ensures items != [] && ButtonSheet !in old(book.tables) ==> r == Err(ServiceError) && book.tables == old(book.tables)
    ensures items != [] && ButtonSheet in old(book.tables) ==>
      r == Ok(Reply(true, CreatedMessage(|items|))) && ButtonSheet in book.tables
      && |book.tables[ButtonSheet]| == |old(book.tables)[ButtonSheet]| + |items|
    ensures ButtonSheet in cache.sheetData && items != [] && r.Ok? ==> !Coherent(book, cache)
  {
    var rows := BulkRows(bulk, items, ids, uploads, email, now);
    if |rows| > 0 {
      var ok := book.Append(ButtonSheet, rows);
      if !ok {
        return Err(ServiceError);
      }
      if ButtonSheet in cache.sheetData {
        assert |cache.sheetData[ButtonSheet]| < |book.tables[ButtonSheet]|;
      }
    }
    return Ok(Reply(true, CreatedMessage(|rows|)));
  }

  /** `saveBulkButtons`: all rows go in one append, none for no items. */
  method SaveBulkButtons(book: Workbook, cache: Cache, bulk: Bulk, items: seq<Item>, ids: seq<string>,
                         uploads: seq<Option<string>>, email: string, now: string)
    returns (r: Result<Reply>)
    requires Coherent(book, cache)
    requires |ids| == |items| && |uploads| == |items|
    modifies book`tables, cache`sheetData
    ensures Coherent(book, cache)
    ensures items == [] ==> r == Ok(Reply(true, CreatedMessage(0))) && book.tables == old(book.tables)
    ensures items != [] && ButtonSheet !in old(book.tables) ==> r == Err(ServiceError) && book.tables == old(book.tables)
    ensures items != [] && ButtonSheet in old(book.tables) ==>
      r == Ok(Reply(true, CreatedMessage(|items|)))
      && ButtonSheet in book.tables
      && book.tables == old(book.tables)[ButtonSheet := book.tables[ButtonSheet]]
      && |book.tables[ButtonSheet]| == |old(book.tables)[ButtonSheet]| + |items|
      && book.tables[ButtonSheet][..|old(book.tables)[ButtonSheet]|] == old(book.tables)[ButtonSheet]
      && forall k :: 0 <= k < |items| ==>
           book.tables[ButtonSheet][|old(book.tables)[ButtonSheet]| + k]
             == BulkRow(bulk, items[k], ids[k], StoredContent(items[k].content, uploads[k]), email, now)
  {
    var rows := BulkRows(bulk, items, ids, uploads, email, now);
    if |rows| > 0 {
      var ok := book.Append(ButtonSheet, rows);
      if !ok {
        return Err(ServiceError);
      }
    }
    ClearSheetCache(cache, ButtonSheet);
    return Ok(Reply(true, CreatedMessage(|rows|)));
  }

  /** The first data row from `from` on whose id cell is exactly `id`. */
  function FindButton(data: Table, id: string, from: nat): (r: Option<nat>)
    ensures r.Some? ==> from <= r.value < |data| && Cell(data[r.value], 0) == Some(id)
    ensures r.Some? ==> forall j :: from <= j < r.value ==> Cell(data[j], 0) != Some(id)
    ensures r.None? ==> forall j :: from <= j < |data| ==> Cell(data[j], 0) != Some(id)
    decreases |data| - from
  {
    if from >= |data| then None
    else if Cell(data[from], 0) == Some(id) then Some(from)
    else FindButton(data, id, from + 1)
  }

  /** The search loop of `updateCustomButton` and `deleteCustomButton`. */
  method FindButtonRow(data: Table, id: string) returns (k: Option<nat>)
    ensures k == FindButton(data, id, 1)
  {
    var i := 1;
    while i < |data|
      invariant 1 <= i
      invariant FindButton(data, id, i) == FindButton(data, id, 1)
      decreases |data| - i
    {
      if Cell(data[i], 0) == Some(id) {
        return Some(i);
      }
      i := i + 1;
    }
    return None;
  }

  /** `updateCustomButton`: the first row with the id is overwritten in
      columns A to L; an unknown id writes nothing. */
  method UpdateButton(book: Workbook, cache: Cache, d: Draft, id: string, upload: Option<string>,
                      email: string, now: string)
    returns (r: Result<Reply>)
    requires Coherent(book, cache)
    modifies book`tables, cache`sheetData
    ensures Coherent(book, cache)
    ensures var data := old(Contents(book, ButtonSheet));
      FindButton(data, id, 1).None? ==> r == Ok(Reply(false, ButtonNotFound)) && book.tables == old(book.tables)
    ensures var data := old(Contents(book, ButtonSheet));
      var k := FindButton(data, id, 1);
      k.Some? ==>
        r == Ok(Reply(true, UpdatedMessage))
        && book.tables == old(book.tables)[ButtonSheet :=
             WriteRow(data, k.value, 0, ButtonRow(d, id, data[k.value], StoredContent(d.content, upload), email, now))]
  {
    var data := GetParentSheet(book, cache, ButtonSheet);
    var k := FindButtonRow(data, id);
    if k.None? {
      return Ok(Reply(false, ButtonNotFound));
    }
    var row := ButtonRow(d, id, data[k.value], StoredContent(d.content, upload), email, now);
    var ok := book.Update(ButtonSheet, k.value, 0, row);
    ClearSheetCache(cache, ButtonSheet);
    return Ok(Reply(true, UpdatedMessage));
  }

  /** The overwritten row reads back as the row written, whatever cells the
      stored row had past column L. */
  lemma UpdatedRowReadsBack(data: Table, k: nat, row: Row)
    requires k < |data| && |row| == 12
    ensures ParseButton(WriteRow(data, k, 0, row)[k]) == ParseButton(row)
  {
    var u := WriteRow(data, k, 0, row)[k];
    assert forall c :: 0 <= c < 12 ==> u[c] == row[c];
    assert forall c :: 0 <= c < 12 ==> Cell(u, c) == Cell(row, c);
    assert forall c, f :: 0 <= c < 12 ==> CellOr(u, c, f) == CellOr(row, c, f);
  }

  /** `deleteCustomButton`: the first row with the id goes, through the
      Buttons tab's id. */
  method DeleteButton(book: Workbook, cache: Cache, id: string) returns (r: Result<Reply>)
    requires Coherent(book, cache) && DistinctIds(book.tabs)
    modifies book`tables, cache`sheetData
    ensures Coherent(book, cache)
    ensures var data := old(Contents(book, ButtonSheet));
      FindButton(data, id, 1).None? ==> r == Ok(Reply(false, ButtonNotFound)) && book.tables == old(book.tables)
    ensures var data := old(Contents(book, ButtonSheet));
      FindButton(data, id, 1).Some? && IdOfTitle(book.tabs, ButtonSheet).None? ==>
        r == Ok(Reply(false, ButtonSheetMissing)) && book.tables == old(book.tables)
    ensures var data := old(Contents(book, ButtonSheet));
      var k := FindButton(data, id, 1);
      k.Some? && IdOfTitle(book.tabs, ButtonSheet).Some? ==>
        r == Ok(Reply(true, DeletedMessage))
        && book.tables == old(book.tables)[ButtonSheet := DeleteRange(data, k.value, k.value + 1)]
  {
    var data := GetParentSheet(book, cache, ButtonSheet);
    var k := FindButtonRow(data, id);
    if k.None? {
      return Ok(Reply(false, ButtonNotFound));
    }
    var sheet := IdOfTitle(book.tabs, ButtonSheet);
    if sheet.None? {
      return Ok(Reply(false, ButtonSheetMissing));
    }
    TitleOfIdOfTitle(book.tabs, ButtonSheet);
    CoherentAfterChange(cache.sheetData, book.tables, ButtonSheet, DeleteRange(data, k.value, k.value + 1));
    var _ := book.DeleteRows(sheet.value, k.value, k.value + 1);
    ClearSheetCache(cache, ButtonSheet);
    return Ok(Reply(true, DeletedMessage));
  }

  /** Deleting the first row with an id leaves a later duplicate, if any, as
      the first one. */
  lemma DeleteUncoversNext(data: Table, id: string)
    requires FindButton(data, id, 1).Some?
    ensures var k := FindButton(data, id, 1).value;
      var u := DeleteRange(data, k, k + 1);
      FindButton(u, id, 1) == (match FindButton(data, id, k + 1)
                                case Some(j) => Some(j - 1)
                                case None => None)
  {
    var k := FindButton(data, id, 1).value;
    var u := DeleteRange(data, k, k + 1);
    var next := FindButton(data, id, k + 1);
    var hi := if next.Some? then next.value - 1 else |u|;
    forall m | 1 <= m < hi
      ensures Cell(u[m], 0) != Some(id)
    {
      if m < k {
        assert u[m] == data[m];
      } else {
        assert u[m] == data[m + 1];
      }
    }
    if next.Some? {
      assert u[next.value - 1] == data[next.value];
    }
  }
}
