# A verified model of the chapter backend's sheet layer

The backend keeps a fraternity chapter's records in Google Sheets: the
Sigma roster of brothers (email in column 4, name in 5, position in 6), the
Rush spreadsheet with its Rush Index and one recruits tab and one comments
tab per rush event, the ranked-choice polls, and the custom buttons shown
on the home page. Every request reads a whole tab as rows of cells (row 0
is the header), finds rows by a natural key (an email, an id, a poll id,
or a recruit/author pair), edits, deletes or appends rows, and drops the
cached copy of what it changed.

This project models that layer in Dafny, one module per source file:

- `Sheets` (`backend/sheets.js`): a `Workbook` class stands for one
  spreadsheet as the Sheets service holds it (tab titles with their numeric
  ids, and the rows of each tab). A `Cache` class stands for the
  process-wide cache, with one field per key namespace: `sheetData_<tab>`,
  the `validEmail:` flags and the tab-id memo. The module also holds the
  cache-through read, the key scans, the write-then-invalidate helpers and
  the 1-based row delete. The invariant `Coherent(book, cache)` says every
  cached tab equals the tab in the workbook. Every state-changing method
  keeps it.
- `Roster` (`backend/roster.js`): who may edit the roster, and the
  reconciler that merges a desired roster and a removal list into the
  Sigma tab. The merge is an in-place scan, a delete pass from the highest
  index down, and appends. Each pass is a loop proved against a function
  on the table.
- `Rush`, `Columns` and `Scoring` (`backend/rush.js`):
  - `Rush` holds the cached reads and the id allocator. It also holds the
    Likes/Dislikes/Met toggles, single-cell updates, recruit rows, the
    comment upsert and delete, the lock flag and the admin settings.
  - `Columns` holds the A1 cell addresses.
  - `Scoring` holds the engagement points and badges.
- `Polls` (`backend/polls.js`): poll rows, creation, voting, closing,
  deleting, resetting and the listing order.
- `Admin` (`backend/admin.js`): the brother list, adding and deleting a
  brother, the alumni purge, the 500-entry audit log (a class) and both
  CSV exports.
- `Buttons` (`backend/buttons.js`): the two row layouts, the display and
  manager filters, content offloading, and saving, updating and deleting
  rows.
- `Sigma` (`backend/sigma.js`): the read-only roster views and the welcome
  line.
- `Auth` (`backend/auth.js`): the roster lookups, the token-payload test,
  the session store (a class), the session-match check and the
  authentication middleware's decision order.
- Shared modules:
  - `Wrappers`: `Option` and `Result`.
  - `Seqs`: sequence facts.
  - `Dicts`: insertion-ordered string-keyed maps, as a JavaScript object
    keeps keys that are neither array indices nor `__proto__`.
  - `Text`: JavaScript's `trim`, `split`, `includes` and `indexOf`;
    `toLowerCase` for the capitals of Basic Latin, Latin-1, Greek and
    Cyrillic; `replace` with a string pattern, including the `$$`, `$&`,
    `` $` `` and `$'` replacement patterns; and `length`, counted in UTF-16
    code units.
  - `Json`: the `JSON.stringify` output for the cell values the backend
    stores (string arrays and vote objects), with a decoder proved to
    invert it.

The service calls (`sheets.spreadsheets.*`), the blob store, the token
service, the clock and the random id source become parameters or are left
out, as listed below. Each body the source runs under a mutex is one
atomic method.

Where the written description of the system and the code differ, the
model follows the code:

- The roster reconciler's update count counts every matched row, even one
  whose cells do not change.
- A key that is both in the desired roster and in the removal list, but
  on no row of the sheet, is still appended. The description says that
  removal always wins.

## Model

| member | source | states |
|---|---|---|
| Sheets.CellOr | backend/buttons.js:49-51 | `row[c] \|\| fallback`: the cell when it exists and is non-empty, the fallback otherwise |
| Sheets.FirstMatch | backend/sheets.js:103-108 | the index found is a row at or after the start that matches, no earlier row matches, and `None` means no row from the start on matches |
| Sheets.FindRowByValue | backend/sheets.js:100-110 | the loop returns the first data row whose cell in the column is present and equals the value up to trimming and case, or nothing |
| Sheets.SearchColumn | backend/sheets.js:116-137 | the loop returns cell `col` of the first data row whose non-empty key cell matches the needle, or "" when none does |
| Sheets.SearchByEmail | backend/sheets.js:116-124 | the looked-up cell of the first row whose column 4 matches the email, or "" |
| Sheets.SearchByDoc | backend/sheets.js:129-137 | the looked-up cell of the first row whose column 0 matches the document name, or "" |
| Sheets.FirstMatchEmailKey | backend/sheets.js:116-124 | an email the scan finds is among the normalized email keys of the table |
| Sheets.EmailKeyFirstMatch | backend/sheets.js:116-124 | conversely, an email whose normalized form is a key of the table is found by the scan |
| Sheets.Pad | backend/roster.js:94-95 | a row padded with "" keeps its cells and reaches the requested width |
| Sheets.WriteRow | backend/sheets.js:177-187 | a `values.update` of one row range: the written cells take the new values, every other cell and row keeps its value, missing cells and rows are filled blank |
| Sheets.WriteRowTwice | backend/polls.js:126-145 | writing the same cells into the same row twice is writing them once |
| Sheets.DeleteRange | backend/sheets.js:220-234 | a `deleteDimension` of rows [start, end): the rows before stay, the rows after shift up, rows past the end of the data delete nothing |
| Sheets.TitleOfId | backend/rush.js:576-588 | the title found belongs to a tab with that id; `None` means no tab has it |
| Sheets.IdOfTitle | backend/sheets.js:261-267 | the id found belongs to a tab with that title; `None` means no tab has it |
| Sheets.TitleOfIdOfTitle | backend/sheets.js:253-268 | with distinct tab ids, the id looked up for a title leads back to that title |
| Sheets.Workbook.constructor | backend/sheets.js:76-94 | a workbook with the given tabs and tables |
| Sheets.Workbook.Update | backend/sheets.js:180-185 | `values.update` of an existing tab writes the row range; an unknown tab changes nothing |
| Sheets.Workbook.Replace | backend/roster.js:126-135 | `values.clear` then `values.update` of a whole tab leaves exactly the rows written |
| Sheets.Workbook.Append | backend/sheets.js:203-209 | `values.append` with `INSERT_ROWS` puts the rows after the last row of an existing tab |
| Sheets.Workbook.DeleteRows | backend/sheets.js:220-234 | `batchUpdate` with a `deleteDimension` removes the rows of the tab with that id, and nothing when no tab has it |
| Sheets.Cache.constructor | backend/sheets.js:5 | an empty cache |
| Sheets.GetParentSheet | backend/sheets.js:76-94 | a cached table is returned as is; otherwise the tab is read and cached; a missing tab gives [] and is not cached; a coherent cache stays coherent and the result is the tab's contents |
| Sheets.ClearSheetCache | backend/sheets.js:270-272 | only the `sheetData_<name>` entry is dropped |
| Sheets.IsValidEmail | backend/sheets.js:142-154 | true exactly when the flag is cached or the scan finds the email; a found email is flagged; flags that were all roster keys stay roster keys |
| Sheets.SetValues | backend/sheets.js:177-187 | an existing tab receives the block and its cached table is dropped; an unknown tab changes nothing; cache coherence is kept |
| Sheets.AppendRow | backend/sheets.js:201-211 | the row goes after the last row of an existing tab and its cached table is dropped; coherence is kept |
| Sheets.GetSheetId | backend/sheets.js:253-268 | the memo answers when it has the title; otherwise the first tab with the title gives the id, which is memoized; no such tab is the "Sheet ... not found" error; a sound memo stays sound |
| Sheets.DeleteRow | backend/sheets.js:217-236 | on success the 0-based range [rowIndex - 1, rowIndex) of the tab named by the memoized id is gone and its cache entry dropped; on error nothing changes; coherence and memo soundness are kept |
| Sheets.GetLastRow | backend/sheets.js:242-245 | the number of rows of the tab's current contents |
| Sheets.LastRowAfterAppend | backend/sheets.js:242-245 | after `appendRow`, `getLastRow` reports one row more, and the appended row is the last |
| Text.Trim | backend/roster.js:30-32 | `trim()` never lengthens a string |
| Text.TrimShape | backend/roster.js:30-32 | the trimmed string is a contiguous slice of the input with no white space at either end |
| Text.TrimDrops | backend/roster.js:30-32 | everything trimmed off either end is white space |
| Text.TrimIdempotent | backend/roster.js:30-32 | trimming twice is trimming once |
| Text.TrimLowerCommute | backend/sheets.js:102 | trimming and lower-casing commute |
| Text.ToLowerIdempotent | backend/roster.js:30-32 | lower-casing twice is lower-casing once |
| Text.ToLower | backend/roster.js:30-32 | lower-casing keeps the length of the string |
| Text.ToLowerAt | backend/roster.js:30-32 | lower-casing works character by character |
| Text.NormalizeIdempotent | backend/roster.js:30-32 | `normalizeEmail` is idempotent and ignores surrounding white space |
| Text.Normalize | backend/roster.js:30-32 | the normalized email is exactly as long as the trimmed one, so never longer than the input |
| Text.NormalizeEmpty | backend/roster.js:61 | an email normalizes to "" exactly when it is all white space |
| Text.Split | backend/roster.js:21 | `split(sep)` gives at least one piece and no piece contains the separator |
| Text.SplitJoin | backend/roster.js:21 | joining the pieces of a split with the separator gives the input back |
| Text.JoinSplit | backend/roster.js:21 | splitting a join of separator-free pieces gives the pieces back |
| Text.SplitFirst | backend/sigma.js:72 | a first word without the separator is the first piece, followed by the pieces of the rest |
| Text.TrimmedPieces | backend/rush.js:108 | `split(',').map(trim).filter(Boolean)` holds exactly the non-empty trimmed pieces |
| Text.TrimmedPiecesJoin | backend/rush.js:108 | clean pieces joined with the separator read back as themselves |
| Text.ContainsAt | backend/buttons.js:168 | `includes` holds once the text occurs at any position |
| Text.ContainsIff | backend/buttons.js:168 | `includes` holds exactly when some position starts an occurrence, in both directions |
| Text.IndexOf | backend/buttons.js:218 | `indexOf` is -1 exactly when the pattern does not occur; otherwise the pattern starts there |
| Text.IndexOfFirst | backend/buttons.js:218 | no earlier position starts the pattern |
| Text.ReplaceFirst | backend/buttons.js:218 | `replace` with a string pattern leaves a string without the pattern unchanged |
| Text.ReplaceFirstPresent | backend/buttons.js:218 | with a replacement holding no `$`, the pattern's first occurrence (none starts earlier) is replaced by the replacement as it is and the rest of the string follows unchanged |
| Text.Expand | backend/buttons.js:218 | a replacement without `$` expands to itself, whatever was matched; `ExpandEscaped` is its inverse for the `$` escape |
| Text.Doubled | backend/admin.js:200 | doubling every occurrence of a character (the CSV quote escape, and the `$` escape of a replacement) never shortens a text |
| Text.ExpandEscaped | backend/buttons.js:218 | a text with every `$` doubled expands back to the text itself, so any name can be inserted literally that way |
| Text.Utf16Length | backend/rush.js:210 | `length` counts UTF-16 code units: at least one and at most two per character |
| Text.Utf16LengthAppend | backend/buttons.js:168 | the UTF-16 length of a concatenation is the sum of the lengths |
| Text.Utf16LengthBmp | backend/buttons.js:168 | for text inside the Basic Multilingual Plane `length` is the number of characters |
| Text.NatToString | backend/rush.js:590-608 | the decimal text of a number is a non-empty run of digits |
| Text.ParseNatToString | backend/rush.js:12-27 | the decimal text of a number parses back to the number |
| Text.NumberOfNatToString | backend/rush.js:598 | `Number` of the decimal text of a number is that number |
| Text.NumberOf | backend/rush.js:598 | `Number` of a blank text is 0, and a text whose trimmed form starts or ends with anything but a digit is not a whole number |
| Text.NumberOfTrim | backend/rush.js:598 | white space around the text does not change the number |
| Text.NumberOfLeadingZero | backend/rush.js:598 | a leading zero does not change the value of a run of digits |
| Columns.ColumnName | backend/rush.js:757 | the bijective base-26 column name (A..Z, AA..) is a non-empty run of capitals |
| Columns.ColumnIndexOfName | backend/rush.js:757 | every column name reads back as its column |
| Columns.ColumnNameInjective | backend/rush.js:757 | distinct columns have distinct names |
| Columns.ParseCellRef | backend/rush.js:758-762 | a cell address that parses starts with column letters, read in either case |
| Columns.ParseCellRefOf | backend/rush.js:757-762 | an address built from a column name and a 1-based row reads back as that cell |
| Columns.ColumnLetter | backend/rush.js:757 | `String.fromCharCode(65 + c)` is always one character |
| Columns.ColumnLetterAgrees | backend/rush.js:757 | for the first 26 columns that character is the column name |
| Columns.ColumnLetterFails | backend/rush.js:757-762 | for columns 26..31 and from 58 on the one-character address names no cell, while the column name reaches the intended cell |
| Columns.ColumnLetterWrongColumn | backend/rush.js:757-762 | for columns 32..57 the one-character address is a lower-case letter that names column c − 32, so the write lands in the wrong column, while the column name reaches the intended cell |
| Columns.ColumnLetterExample | backend/rush.js:757 | column 26 gives "[" where "AA" was meant, and column 32 gives "a" where "AG" was meant |
| Json.ParseBody | backend/polls.js:37-38 | reading a string body consumes at least its closing quote |
| Json.ParseBodyEscape | backend/polls.js:37-38 | an escaped string and its closing quote read back as the string, whatever follows |
| Json.ParseArray | backend/rush.js:792 | reading an array consumes at least its brackets |
| Json.ParseArrayRoundTrip | backend/rush.js:792-802 | an encoded array of strings reads back as itself, whatever follows |
| Json.DecodeEncodeNames | backend/rush.js:792-802 | `JSON.parse(JSON.stringify(xs))` gives the array of names back |
| Json.EncodeNames | backend/rush.js:801 | `JSON.stringify` of a string array is bracketed text |
| Json.DecodeNames | backend/rush.js:792 | only bracketed text decodes to an array, and "[]" decodes to the empty array |
| Json.ParseMembers | backend/polls.js:107 | reading object members consumes at least the closing brace |
| Json.ParseMembersRoundTrip | backend/polls.js:107-114 | encoded members read back as themselves, in order, whatever follows |
| Json.EncodeVotesParses | backend/polls.js:107-114 | the text of an encoded vote object opens with a brace and its members read back in order |
| Json.DecodeEncodeVotes | backend/polls.js:107-114 | a votes object with distinct voters survives `JSON.stringify` then `JSON.parse` unchanged |
| Dicts.Put | backend/polls.js:108 | `obj[k] = x` for a key that is neither an array index nor `__proto__`: k now maps to x, every other key keeps its value, a new key goes last and an existing key keeps its place |
| Dicts.LookupNone | backend/polls.js:108 | a key with no value is the key of no entry |
| Dicts.LookupOutside | backend/polls.js:108 | a key of no entry has no value |
| Dicts.LookupAt | backend/polls.js:108 | with distinct keys each entry is what its key looks up |
| Dicts.PutUnique | backend/polls.js:108 | assigning a key keeps the keys distinct |
| Dicts.PutAt | backend/polls.js:108 | assigning an existing key changes only that entry's value |
| Dicts.FromPairsUniqueKeys | backend/polls.js:107 | an object built from parsed pairs has distinct keys |
| Dicts.FromPairsUnique | backend/polls.js:107 | pairs whose keys are already distinct build exactly themselves |
| Sigma.Names | backend/sigma.js:12-19 | the names collected hold exactly the non-empty trimmed column-5 values of the rows from the start on |
| Sigma.NameIn | backend/sigma.js:14-17 | the name of a row longer than five cells is its trimmed column 5; shorter rows give "" and the result is already trimmed |
| Sigma.Dedupe | backend/sigma.js:21 | `[...new Set(xs)]` holds exactly the values of `xs`, each once |
| Sigma.First | backend/sigma.js:21 | the first occurrence of a value: it is there and nowhere earlier |
| Sigma.DedupeOrder | backend/sigma.js:21 | the deduplicated values keep the order of their first occurrences |
| Sigma.FirstPrefix | backend/sigma.js:21 | a value's first occurrence inside a prefix is its first occurrence in the whole |
| Sigma.ListOfBrothers | backend/sigma.js:9-22 | fewer than two rows give []; otherwise exactly the non-empty trimmed names of the data rows, each once, all trimmed |
| Sigma.ListOfBrothersOrder | backend/sigma.js:9-22 | the brothers come out in the order of the first row that names each |
| Sigma.RosterRow | backend/sigma.js:33-45 | a row gives an entry exactly when it has more than five cells and a non-blank email; the email is column 4 trimmed, the name column 5 trimmed or "Unknown" when that is blank, the position column 6 trimmed or "None" when it is missing or blank |
| Sigma.Entries | backend/sigma.js:32-46 | the entries are exactly those of the rows from the start on that give one |
| Sigma.FullRoster | backend/sigma.js:28-48 | fewer than two rows give []; otherwise exactly the entries of the data rows, each with an email, a name and a position |
| Sigma.GetBylaws | backend/sigma.js:50-52 | column 1 of the first row named "Bylaws", or "" |
| Sigma.GetMeetingMinutes | backend/sigma.js:54-56 | column 1 of the first row named "Meeting Minutes", or "" |
| Sigma.GetRiskPolicy | backend/sigma.js:58-60 | column 1 of the first Theta row named "Risk Policy", or "" |
| Sigma.GetPksFolder | backend/sigma.js:62-64 | column 1 of the first row named "PKS", or "" |
| Sigma.SecondWord | backend/sigma.js:71-72 | the second space-separated word of a name when it has one, "" otherwise; never a space in it |
| Sigma.Salutation | backend/sigma.js:73-76 | every greeting starts with "Welcome ", and it is the pledge greeting exactly when the position contains "Pledge" |
| Sigma.SecondWordAsWritten | backend/sigma.js:72 | as written, a one-word name gives "undefined", and whenever the result is not "undefined" it agrees with the corrected second word |
| Sigma.WelcomeMessageAsWritten | backend/sigma.js:69-77 | as written, development greets "Welcome Admin", any other message is the salutation and ends in "!", and it differs from the corrected message only when the second word is "undefined" |
| Sigma.WelcomeMessage | backend/sigma.js:69-77 | in development the message is "Welcome Admin" |
| Sigma.WelcomeNamesSecondWord | backend/sigma.js:69-77 | outside development the message is the salutation, the second word of the roster name and "!"; a one-word name greets with "" |
| Sigma.OneWordHasNoSecond | backend/sigma.js:72 | a name without a space has no second word: the code as written gives `undefined`, the intended greeting "" |
| Sigma.OneWordNameGreetsUndefined | backend/sigma.js:69-77 | as written, a brother named "Alex" is greeted "Welcome brother undefined!"; the corrected message is "Welcome brother !" |
| Auth.NameOf | backend/auth.js:74-78 | `getName`: the first data row whose column 4 matches the email decides: its non-empty column 5, or `null` when that cell is missing or empty; no matching row gives `null`; a found name is never empty |
| Auth.PositionOf | backend/auth.js:80-84 | `getPosition`: the first data row whose column 4 matches the email decides: its column 6, or "" when that cell is missing or empty; no matching row gives "" |
| Auth.FirstMatchNormal | backend/sheets.js:100-110 | the row scan depends on the needle only through its trimmed lower-case form |
| Auth.LookupsIgnoreCase | backend/auth.js:74-84 | emails equal up to case and surrounding white space get the same name and position |
| Auth.ValidateIdToken | backend/auth.js:12-41 | the payload is accepted exactly when the response exists, its audience is the client id, it has not expired and its issuer is Google's; an accepted payload is the response itself |
| Auth.TokenExpiry | backend/auth.js:27-30 | a token valid now was valid at every earlier time and is rejected after its expiry |
| Auth.KeyInjective | backend/auth.js:50 | distinct session ids have distinct cache keys |
| Auth.SessionStore.constructor | backend/auth.js:6 | an empty session cache |
| Auth.SessionStore.Get | backend/auth.js:55-57 | `getSession`: a session comes back exactly when its prefixed key is held and has not expired, and it is the stored session |
| Auth.SessionStore.CreateSession | backend/auth.js:47-53 | the fresh id now maps to the session with a full lifetime and every other session is unchanged |
| Auth.SessionStore.ExtendSession | backend/auth.js:59-64 | a live session gets a full lifetime again; a missing one changes nothing |
| Auth.SessionStore.ClearSession | backend/auth.js:66-68 | the session's entry is gone and it reads as missing at every time |
| Auth.ValidateUserMatchesSession | backend/auth.js:155-174 | development accepts; a blank id is SESSION_EXPIRED, a missing session SESSION_EXPIRED, an email mismatch (up to case and white space) UNAUTHORIZED, each leaving the sessions alone; a match accepts and extends the session |
| Auth.CheckRoster | backend/auth.js:105-106 | reads the roster through the cache and admits the email exactly when it is on the roster or its `validEmail:` flag is cached; a flag is added only for an admitted email; while the flags are all roster keys they stay so, and the answer is exactly whether the email is on the roster |
| Auth.AdmittedOnRoster | backend/sheets.js:142-154 | while every cached flag is a roster key, being admitted is being on the roster |
| Auth.ResumeSession | backend/auth.js:101-114 | a live session of an admitted email (on the roster, or with its flag cached) is resumed and extended; one that is not admitted is cleared; no id or no session changes nothing; flags are only added for roster keys |
| Auth.MemberName | backend/auth.js:144 | the display name is the roster name when there is one and is never empty ("Member") |
| Auth.AuthMiddleware | backend/auth.js:93-149 | an attached user is admitted (on the roster, or with a cached flag), holds a live session, and takes name and position from the roster; a resumable session wins; otherwise a valid token with email and subject creates a session and the user is attached exactly when admitted, else reported unauthorized; while the flags are all roster keys, an attached user is on the roster |
| Roster.CanManageRoster | backend/roster.js:18-23 | true exactly when some trimmed comma-separated position is Alpha, Beta, Sigma or Chi |
| Roster.CanManageRosterOne | backend/roster.js:18-23 | a single position qualifies exactly when it is a manager position up to white space; "" never does |
| Roster.CanManageRosterFirst | backend/roster.js:21-22 | a list qualifies exactly when its first position or the rest does |
| Roster.FieldsOf | backend/roster.js:67-71 | the stored email is the trimmed email; name and position are trimmed, or "Unknown"/"None" when blank |
| Roster.FieldsOfKey | backend/roster.js:65-68 | the stored email normalizes to the entry's key |
| Roster.UpdatesOf | backend/roster.js:63-73 | `updateMap` has distinct keys |
| Roster.LastWith | backend/roster.js:64-73 | the last roster entry whose email normalizes to the key, or none when no entry has it |
| Roster.UpdatesOfLookup | backend/roster.js:63-73 | `updateMap` maps each non-blank key to the fields of the last entry with it, and nothing else |
| Roster.RemoveKeys | backend/roster.js:60-62 | `removeSet` holds exactly the non-blank normalized emails of the removal list |
| Roster.Overwrite | backend/roster.js:92-99 | an updated row is padded to seven cells, cells 4, 5 and 6 take the new fields and every other cell is kept |
| Roster.ProcessRowKey | backend/roster.js:92-99 | updating a row keeps its key |
| Roster.Processed | backend/roster.js:80-101 | the scan keeps the header and processes every data row in place |
| Roster.QueueShape | backend/roster.js:80-90 | `rowsToDelete` holds exactly the data rows whose key is to be removed, in increasing order |
| Roster.KeysUpToMembers | backend/roster.js:85 | `originalEmails` holds exactly the non-blank keys of the data rows scanned |
| Roster.KeepHas | backend/roster.js:104-106 | every row not queued survives the deletions |
| Roster.KeepFrom | backend/roster.js:104-106 | only rows of the table survive |
| Roster.KeepLength | backend/roster.js:104-107 | exactly the queued rows go |
| Roster.DeleteQueued | backend/roster.js:104-106 | splicing the queued rows out from the last to the first leaves the unqueued rows in order |
| Roster.RemainingStep | backend/roster.js:104-106 | each splice removes exactly the next queued row from the back |
| Roster.RemainingEnds | backend/roster.js:104-106 | the splice loop starts from the whole table and ends with the unqueued rows |
| Roster.DeleteQueuedExample | backend/roster.js:104-106 | deleting rows 1 and 3 of four leaves the header and row 2 |
| Roster.NewRow | backend/roster.js:116-119 | an added row has the sheet's width, the fields in cells 4, 5 and 6 and "" elsewhere |
| Roster.Additions | backend/roster.js:114-123 | the rows added are at most one per map entry, each of the sheet's width |
| Roster.AdditionsExactly | backend/roster.js:114-123 | a row is added exactly when it is the new row of a map entry whose key was not in the sheet |
| Roster.Width | backend/roster.js:110-111 | an added row is at least seven cells and at least as wide as the header |
| Roster.Message | backend/roster.js:155-159 | the message is "No changes" exactly when all three counts are zero |
| Roster.JoinWithLast | backend/roster.js:155-159 | a non-zero message ends with the word of its last count |
| Roster.CollectRemovals | backend/roster.js:60-62 | the loop builds exactly `removeSet` |
| Roster.CollectUpdates | backend/roster.js:63-73 | the loop builds exactly `updateMap` |
| Roster.Scan | backend/roster.js:75-101 | the scan loop yields the processed rows, the deletion queue, the update count and `originalEmails` |
| Roster.ScanRow | backend/roster.js:80-101 | one step of the scan advances every accumulator by one row |
| Roster.ScanStep | backend/roster.js:80-101 | the accumulators after one more row: the row processed, its index queued when it is removed, the count raised when it is updated, its key recorded |
| Roster.Append | backend/roster.js:109-123 | the loop appends exactly the additions and counts them |
| Roster.Reconcile | backend/roster.js:56-159 | on a non-empty sheet: the rows written back and the update, removal and add counts and the message |
| Roster.SaveRosterChanges | backend/roster.js:44-175 | an empty Sigma sheet is an error that changes no table; otherwise the sheet is replaced by the reconciled rows, its cache entry dropped, the removed emails unflagged, and the counts and message returned; cache coherence is kept |
| Roster.HeaderKept | backend/roster.js:104-135 | the header row is written back as it was |
| Roster.RowFate | backend/roster.js:80-106 | a row with no key, or one neither removed nor updated, is written back unchanged |
| Roster.RemovedExactly | backend/roster.js:87-106 | no row that is written back has a key in `removeSet`, apart from the header |
| Roster.ReconciledLength | backend/roster.js:104-123 | the sheet loses the removed rows and gains the added ones |
| Roster.AddedExactly | backend/roster.js:109-123 | an added row has key k exactly when some entry of the desired roster has k and no data row has it |
| Roster.MapEntryKey | backend/roster.js:64-71 | every `updateMap` key is non-blank and is the normalized form of the stored email |
| Roster.FlagsStayListed | backend/roster.js:138-142 | every email flag that is not unflagged is still a key of the written sheet |
| Rush.TabTitle | backend/rush.js:576-584 | a title found belongs to one of the spreadsheet's tabs |
| Rush.FindFrom | backend/rush.js:754 | `findIndex` from a start row: the index found matches, no earlier row does, `None` means no row does |
| Rush.Find | backend/rush.js:754 | `findIndex` over the data rows (never the header): the first keyed row, or none |
| Rush.ViewCoherent | backend/rush.js:46-68 | a read through the per-tab cache gives what a fresh read gives, and leaves the cache coherent |
| Rush.GetRecruitsData | backend/rush.js:46-68 | `recruitsData_<tabId>`: the cached table when present, otherwise the tab read and cached |
| Rush.GetCommentsData | backend/rush.js:71-93 | `commentsData_<tabId>`: the cached table when present, otherwise the tab read and cached |
| Rush.GetRushIndexData | backend/rush.js:29-42 | the cached Rush Index when present; otherwise the sheet is read and cached |
| Rush.GetRecruitsForRush | backend/rush.js:100-111 | the recruits are the records of the data rows of the (cached) recruits table |
| Rush.MaxIdFrom | backend/rush.js:597-600 | the reduce gives a bound on every numeric id from the start row, and is 0 or one of them |
| Rush.MaxId | backend/rush.js:597-600 | the largest numeric column-0 id of the data rows, or 0 when there is none |
| Rush.NextId | backend/rush.js:590-608 | the id given to a new recruit exceeds the cached counter and, without one, is positive and exceeds every numeric id on the tab |
| Rush.GetNextAvailableId | backend/rush.js:590-608 | a cached counter gives counter + 1; without one, 1 + the largest id of the table; the result is cached and exceeds the previous counter, so ids strictly increase |
| Rush.AllocatedIdFresh | backend/rush.js:590-608 | a freshly allocated id is the id of no data row |
| Rush.Acquire | backend/rush.js:6 | acquiring succeeds exactly when the mutex is free, and then holds it |
| Rush.Release | backend/rush.js:6 | releasing leaves the mutex free |
| Rush.AddNewRecruitDeadlocks | backend/rush.js:620-649 | as written, the add-new-recruit path holds `rushMutex` and waits on it again in `getNextAvailableId`, which can never succeed |
| Rush.AddRecruitLocksAsWritten | backend/rush.js:591-649 | as written, a held mutex waits; an update completes and frees a free mutex; adding a new recruit always waits and leaves the mutex held |
| Rush.AddRecruitLocks | backend/rush.js:591-671 | with the allocation inside the held section the operation completes exactly when the mutex is free, and then leaves it free; otherwise it waits with the mutex unchanged |
| Rush.AddRecruitCompletes | backend/rush.js:591-671 | with the id allocated inside the critical section the path completes and releases the mutex; the update path is unaffected |
| Rush.WriteCell | backend/rush.js:758-763 | a one-cell `values.update` writes that cell of an existing tab and changes nothing otherwise |
| Rush.Perform | backend/rush.js:798-816 | the planned cell writes are applied in order to the tab |
| Rush.WriteRowElsewhere | backend/rush.js:758-763 | writing one cell of row i changes no other row and no other cell of row i |
| Rush.Toggle | backend/rush.js:793-795 | a user not in the list is pushed at the end; otherwise one occurrence is spliced out |
| Rush.ToggleFlips | backend/rush.js:793-795 | on a list with the user at most once, afterwards the user is in it exactly when they were not before; every other name is unchanged |
| Rush.ToggleTwice | backend/rush.js:793-795 | toggling a user who was absent twice gives the list back |
| Rush.ToggleRow | backend/rush.js:792-817 | a toggle on a found row writes only that row: a target list that does not parse is refused with nothing written; a write goes first to the target column, then, when there is one, to the opposite column, whose list must parse |
| Rush.TogglePlan | backend/rush.js:777-826 | an empty tab has no header; "Recruit not found" exactly when no data row has the id; every write lands in the recruit's data row |
| Rush.Remove | backend/rush.js:808-809 | `filter(u => u !== user)` keeps exactly the other names, and changes nothing when the user is absent |
| Rush.ListAtWritten | backend/rush.js:798-803 | an encoded list written into a cell reads back as that list |
| Rush.OppositeDiffers | backend/rush.js:805-807 | the opposite column of Likes or Dislikes is never the target column |
| Rush.ToggleRowOutcomeOne | backend/rush.js:792-803 | with no opposite column only the target cell changes and it holds the toggled list |
| Rush.ToggleRowOutcomeTwo | backend/rush.js:792-817 | with an opposite column the target holds the toggled list, the opposite the list without the user, and nothing else in the row changes |
| Rush.ToggleOutcome | backend/rush.js:777-826 | a toggle that writes: other rows are unchanged, the target list is toggled, for Likes and Dislikes the user leaves the opposite list, and every other cell keeps its value |
| Rush.MetHasNoOpposite | backend/rush.js:836-870 | `addMet` clears no opposite list |
| Rush.ToggleUserInJsonArray | backend/rush.js:777-826 | an unknown tab is "Sheet not found" with no change; otherwise the tab receives exactly the writes of the toggle plan and the recruits cache entry is dropped after a write |
| Rush.AddMet | backend/rush.js:836-870 | the same toggle on the Met column, with no opposite list |
| Rush.UpdateCellOutcome | backend/rush.js:740-771 | a successful update writes the value into the target column of the recruit's row and nothing else |
| Rush.UpdatePlan | backend/rush.js:740-771 | an empty tab has no header, a missing column is refused, both writing nothing; a successful plan is one write of the value into the recruit's row under the column |
| Rush.UpdateCellNotFound | backend/rush.js:754-755 | `success: false` means no data row has the recruit id |
| Rush.UpdateCell | backend/rush.js:740-775 | an unknown tab is "Sheet not found"; otherwise the tab receives exactly the planned write and the cache entry is dropped after a write |
| Rush.DeleteFound | backend/rush.js:702-725 | deleting the row found for a key present at most once leaves no row with that key and shifts the later rows up by one |
| Rush.TitleHasId | backend/rush.js:705-709 | the tab found by id is found again by its title |
| Rush.DeleteRecruit | backend/rush.js:673-734 | a missing ID column is an error; a tab id the tab list no longer names is "Recruits sheet not found" and a title without rows a service error, neither changing the sheet; a missing recruit is "Recruit not found" with no change; a found recruit's row [i, i+1) is deleted; from the title lookup on, the recruits cache entry is dropped on every path |
| Rush.TimestampColumn | backend/rush.js:899 | the timestamp column is a column headed "TimestampMs" or "Timestamp" |
| Rush.NewCommentRow | backend/rush.js:894-900 | a new comment row is as wide as the header |
| Rush.StampWrites | backend/rush.js:909-925 | an existing comment gets its Text cell written and, when there is a timestamp column, its timestamp cell |
| Rush.NewCommentRowKeyed | backend/rush.js:894-900 | the new row carries the recruit id and the author and holds the text |
| Rush.FindFirst | backend/rush.js:889-891 | the first keyed data row is the one found |
| Rush.KeepFound | backend/rush.js:889-891 | rewriting other rows, or the found row without its key cells, keeps the row found |
| Rush.UpsertAppends | backend/rush.js:893-907 | with no comment for the (recruit, author) pair one row is appended, the rest unchanged; it is found afterwards, holds the text, and the pair stays unique |
| Rush.UpsertPlan | backend/rush.js:893-925 | an empty tab has no header; a row is appended exactly when no row holds the (recruit, author) pair; an overwrite writes the text first and only into that pair's row |
| Rush.StampWritten | backend/rush.js:908-925 | the stamp writes keep the row found, write the text and keep the pair unique |
| Rush.UpsertOverwrites | backend/rush.js:908-925 | with a comment for the pair only that row changes, it holds the new text and the pair stays unique |
| Rush.AddOrUpdateComment | backend/rush.js:876-934 | an unknown tab is "Comments sheet not found"; otherwise the tab receives the upsert and the comments cache entry is dropped |
| Rush.ApplyPlan | backend/rush.js:893-926 | the planned append or cell writes are applied to the tab |
| Rush.DeleteComment | backend/rush.js:936-983 | an unknown tab and a missing pair are failures with no change; a found comment's row is deleted and the cache entry dropped |
| Rush.LockCell | backend/rush.js:505-513 | the written value reads back as the lock state it encodes |
| Rush.IsLocked | backend/rush.js:257 | a missing, empty, "FALSE" or "0" cell is unlocked; a locked cell holds a short text ("TRUE" or "1") |
| Rush.ToggleRushLock | backend/rush.js:493-531 | without "Rho" in the position it is UNAUTHORIZED before anything else; a missing event is "Rush event not found"; otherwise column H of the event's row takes the negated lock state, which is returned, and the index cache is dropped |
| Rush.LockWritten | backend/rush.js:504-513 | after the write the event reads as locked exactly as requested |
| Rush.LockTwice | backend/rush.js:504-513 | toggling the lock twice restores the original state |
| Rush.WithGlobal | backend/rush.js:547-552 | the key takes the value, every other global and every brother setting is kept |
| Rush.WithBrother | backend/rush.js:554-560 | the brother's switches are replaced, every other brother and every global is kept |
| Rush.AdminSettings.constructor | backend/rush.js:537-545 | no settings are stored yet |
| Rush.AdminSettings.SetGlobalSetting | backend/rush.js:547-552 | the stored settings are the current ones with the key set; setting the add switch decides whether adding is disabled |
| Rush.AdminSettings.SetBrotherSettings | backend/rush.js:554-560 | the stored settings are the current ones with the brother's switches set; adding stays as enabled as it was |
| Rush.DefaultAllowsAdding | backend/rush.js:539-545 | the default settings allow adding and commenting |
| Rush.NewRecruitRow | backend/rush.js:650-655 | a new recruit row is as wide as the header |
| Rush.UpdatedRow | backend/rush.js:639-640 | the updated row keeps the recruit row's cells and is at least as wide as the header |
| Rush.UpdateRecruitPlan | backend/rush.js:636-640 | a found recruit gives a data row and a row as wide as the header |
| Rush.SaveRecruit | backend/rush.js:635-667 | with an id: an unknown id is "Recruit ID not found", a known one has its row rewritten; without one: the next id is allocated and cached and a new row appended; the recruits cache entry is dropped |
| Rush.AddOrUpdateRecruit | backend/rush.js:610-671 | adding disabled is an error before anything else; an unknown tab, a header-less tab and bad contact JSON are errors with no change; otherwise the recruit is updated or appended as in `SaveRecruit` |
| Rush.UpdatedCell | backend/rush.js:640 | each header cell takes the form's value when the form sets it and keeps the old cell otherwise |
| Rush.FormSets | backend/rush.js:632-633 | the form sets Name, Email, Phone, Instagram, the joined contacts and, when there is one, PhotoURL |
| Rush.SetCell | backend/rush.js:640 | a header the form sets reads back with the form's value |
| Rush.UpdatedRecruitForm | backend/rush.js:632-640 | the updated recruit reads back with the form's name, email, phone, instagram, photo and contacts |
| Rush.UpdatedContacts | backend/rush.js:632-640 | clean contacts read back as themselves after an update |
| Rush.FormLeavesOthers | backend/rush.js:632-633 | the update form never sets ID, Tier, Likes, Dislikes or Met, nor PhotoURL without a photo |
| Rush.UpdatedRecruitKeeps | backend/rush.js:639-640 | an update keeps the likes, dislikes, met list, id and tier, and the photo when none is uploaded |
| Rush.KeptCell | backend/rush.js:640 | a header the form does not set keeps its cell |
| Rush.NewCell | backend/rush.js:655 | each header cell of a new row holds the field set for it |
| Rush.NewFieldsSet | backend/rush.js:650-654 | a new recruit gets the allocated id, tier 0, empty Likes and Dislikes, Met holding the adder or empty, and the form's fields |
| Rush.NewRecruitReads | backend/rush.js:650-655 | the new recruit reads back with the id, tier "0", empty lists, Met holding exactly the adder, the name and the contacts |
| Rush.NewMet | backend/rush.js:654-655 | the Met cell of a new row decodes to the adder alone, or is "[]" without one |
| Scoring.FirstIndex | backend/rush.js:750 | `headers.indexOf(name)`: the first column with that header, none exactly when no column has it |
| Scoring.HeaderIndex | backend/rush.js:104 | `Object.fromEntries` on the header: the last column with that header, none exactly when no column has it |
| Scoring.IndexesAgree | backend/rush.js:104 | with distinct headers both lookups give the same column |
| Scoring.FieldOr | backend/rush.js:108-109 | `r[h.X] \|\| fallback`: the cell when present and non-empty, the fallback otherwise |
| Scoring.RecruitOf | backend/rush.js:105-110 | a recruit record: the lists default to "[]" and the primary contacts are non-empty trimmed pieces |
| Scoring.RecruitsOf | backend/rush.js:100-111 | one record per data row, in order; none for a table of at most one row |
| Scoring.CommentsOf | backend/rush.js:113-126 | one comment record per data row, in order |
| Scoring.CommentPoints | backend/rush.js:209-214 | an own comment scores between 5 and 15 points by its UTF-16 length: 5 without text, 15 once the text has 100 characters |
| Scoring.TallyRecruits | backend/rush.js:164-207 | the met, liked and disliked counts are at most the number of recruits |
| Scoring.RecruitPoints | backend/rush.js:164-206 | a recruit that does not involve the brother gives 0; a visit gives at least 6, a first visit at least 16, a dislike at least 5, a primary contact at least 50 and with a bid at least 100; no recruit gives more than 137 |
| Scoring.RecruitPointsFirstMet | backend/rush.js:172-179 | being first in the met list is worth exactly 10 more than being met further down |
| Scoring.RecruitPointsFirstLike | backend/rush.js:187-190 | being first in the likes list is worth exactly 8 more than a later like |
| Scoring.RecruitPointsComment | backend/rush.js:183-196 | a comment on the recruit adds exactly 3 to a like of a recruit they met (2 to 5) and 3 to a dislike (5 to 8), and nothing else |
| Scoring.RecruitPointsLikeUnmet | backend/rush.js:181-191 | a like of a recruit they did not meet earns only the first-liker bonus, comment or not |
| Scoring.RecruitPointsContact | backend/rush.js:199-206 | becoming a primary contact adds exactly 50, or 100 when the recruit has a bid |
| Scoring.RecruitPointsBid | backend/rush.js:199-206 | a bid adds exactly 50 for the primary contacts and nothing for anyone else |
| Scoring.OthersCommentIgnored | backend/rush.js:155-161 | a comment by someone else changes nothing in a brother's stats |
| Scoring.Own | backend/rush.js:209 | the brother's own comments, all by them |
| Scoring.CommentsPoints | backend/rush.js:209-214 | own comments score between 5 and 15 points each |
| Scoring.Scale | backend/rush.js:216-221 | a comment rate of at least 0.75 scales by 1.5 and at least 0.5 by 1.2, rounded; no votes or a lower rate leaves the points alone; scaling never lowers them |
| Scoring.BrotherStats | backend/rush.js:146-224 | the stats carry the brother's name; the met, liked and disliked counts are at most the number of recruits, the comment count at most the number of comments, and the points at least 5 per own comment |
| Scoring.ScaleMonotone | backend/rush.js:216-221 | more points before scaling never give fewer after it |
| Scoring.TallyLowerBound | backend/rush.js:164-207 | points are at least 6 per met recruit, 5 per dislike and twice the bid bonus |
| Scoring.PointsLowerBound | backend/rush.js:146-224 | final points are at least 6 per met recruit, 5 per dislike, twice the bid bonus and 5 per comment |
| Scoring.TallyStranger | backend/rush.js:164-207 | recruits that do not involve the brother give them nothing |
| Scoring.OwnNone | backend/rush.js:209 | a brother with no comments has no own comments |
| Scoring.Badges | backend/rush.js:226-237 | each badge is awarded exactly under its rule (met at least 75% of a non-empty field, 10 comments, 5 likes, 50 points) and they come in that order |
| Scoring.Stranger | backend/rush.js:146-237 | a brother who met, liked, disliked, contacts and commented on nothing scores zero and earns no badge |
| Polls.ParsePollRow | backend/polls.js:33-45 | a row parses exactly when its options and votes cells are JSON (empty cells read as [] and {}); id, status and creator are the cells; a blank threshold gives the default; the anonymous flag is the cell when present and true otherwise |
| Polls.NewPollRow | backend/polls.js:58-61 | a new poll row has the nine columns of the header |
| Polls.ParseNewPoll | backend/polls.js:47-61 | a new poll row parses back to the poll created: its options, no votes, status active, the default threshold when none is given, anonymous unless false was passed |
| Polls.ParseFreshRow | backend/polls.js:33-45 | a full-width row with an empty vote object parses with no votes |
| Polls.FindPoll | backend/polls.js:105-106 | the first data row with the id (and, for voting, status active), or none exactly when no row matches |
| Polls.FindPollRow | backend/polls.js:105-106 | the loop finds the row `FindPoll` names |
| Polls.ReadPolls | backend/polls.js:102-103 | the poll sheet read after dropping its cache entry is its current contents |
| Polls.WritePollCell | backend/polls.js:110-117 | one cell of the poll sheet is written and its cache entry dropped |
| Polls.WithPollTab | backend/polls.js:8-31 | a missing poll tab is added holding only the header; every other tab is unchanged |
| Polls.EnsurePollSheet | backend/polls.js:8-31 | afterwards the poll tab exists; an existing one is untouched; a new one gets a fresh id and the header row |
| Polls.CreatePoll | backend/polls.js:47-75 | the poll tab is ensured, the new row appended after its last row and the id returned; the creator is the roster name or "Admin" |
| Polls.VotesUnique | backend/polls.js:107 | the votes read from a cell have distinct voters |
| Polls.SubmitVote | backend/polls.js:97-124 | no active poll with the id is "Poll not found or closed" with no write; otherwise the first such row's votes cell holds the old votes with the voter's ranking set |
| Polls.VoteReadsBack | backend/polls.js:105-115 | after a vote only that row changes, it is still found, the voter's ranking reads back and every other voter's ranking is kept |
| Polls.FindPollSame | backend/polls.js:105-106 | rewriting the found row so that it still matches keeps it the row found |
| Polls.ClosePoll | backend/polls.js:126-145 | a missing id is "Poll not found"; otherwise the status of the first row with the id becomes "closed", whatever it was |
| Polls.CloseIdempotent | backend/polls.js:126-145 | closing a closed poll again finds the same row and changes nothing |
| Polls.DeletePoll | backend/polls.js:147-188 | a missing id is "Poll not found"; a poll not closed, then (outside development) a requester who is not the creator, is refused with no change; otherwise exactly that row is deleted |
| Polls.DeleteDropsOne | backend/polls.js:164-181 | deleting a row with the id leaves one fewer row with it |
| Polls.DeleteRemovesPoll | backend/polls.js:155-181 | deleting the only row with the id leaves none |
| Polls.ResetVotes | backend/polls.js:190-215 | a missing id is "Poll not found"; a poll not active, then a requester who is not the creator, is refused; otherwise the votes cell becomes {} |
| Polls.ResetEmpties | backend/polls.js:203-208 | after a reset the poll has no votes, is still active and keeps its id |
| Polls.ParseAll | backend/polls.js:81-86 | parsing the data rows yields at most one poll per row |
| Polls.ParseAllIds | backend/polls.js:82-85 | every poll listed has a non-empty id |
| Polls.Insert | backend/polls.js:88-92 | inserting a poll adds exactly it |
| Polls.InsertSorted | backend/polls.js:88-92 | inserting into a listing in order keeps it in order |
| Polls.SortPolls | backend/polls.js:88-92 | the sorted listing is a permutation of the polls with active polls first and newer polls first within each group |
| Polls.ListPolls | backend/polls.js:77-95 | at most a header gives []; otherwise the listing parses exactly when every non-blank row parses, and then it is the parsed polls, reordered into listing order |
| Polls.CollectPolls | backend/polls.js:81-86 | the loop collects exactly the parse of the data rows, stopping at the first row that fails |
| Polls.ParseAllNext | backend/polls.js:82-85 | a blank id is skipped, a failing row ends the parse with its error, a good row is added last |
| Polls.ParseAllStops | backend/polls.js:82-85 | once a row fails, the rows after it do not matter |
| Admin.BrotherOf | backend/admin.js:12-17 | a row yields a brother exactly when its email and name cells are present and non-empty, and every field of the brother is trimmed |
| Admin.Brothers | backend/admin.js:11-18 | a brother is listed exactly when some row from the start index on yields it |
| Admin.AllBrothers | backend/admin.js:8-21 | a brother is listed exactly when some data row (header skipped) has a non-empty email and name that yield it |
| Admin.BrotherLines | backend/admin.js:175 | one CSV line per brother, in order |
| Admin.ExportBrothersLines | backend/admin.js:172-177 | when no field holds a line break, splitting the export on newlines gives back the header followed by one line per brother, so it has one more line than there are brothers |
| Admin.ExportBrothers | backend/admin.js:172-177 | the export starts with the header; with no brothers it is the header alone, otherwise a line break follows the header |
| Admin.NewRowWidth | backend/admin.js:38 | the new row is at least seven cells wide and at least as wide as the header row |
| Admin.BrotherRow | backend/admin.js:38-42 | the appended row has exactly the width the header calls for |
| Admin.FindBrother | backend/admin.js:32-36 | the loop reports a duplicate exactly when some data row's email cell matches the email up to trimming and case |
| Admin.AddBrother | backend/admin.js:26-53 | a missing email or name and a duplicate email are refused with the sheet untouched; otherwise the Sigma sheet gains exactly the new row at its end, the workbook and cache stay coherent and no other sheet changes |
| Admin.AppendKeepsKeys | backend/admin.js:44-49 | appending a row loses no existing email |
| Admin.AddedIsFound | backend/admin.js:32-49 | after a brother is added, a second add with the same email up to trimming and case is found as a duplicate |
| Admin.DeleteKeepsKeys | backend/admin.js:64-91 | deleting the matched row removes at most that email from the set of emails and adds none |
| Admin.DeleteBrother | backend/admin.js:58-96 | a missing email, an email no data row matches and a missing Sigma tab each give their refusal with the sheet and the validity flags untouched; otherwise exactly the first matching row is removed and that email's validity entry is dropped from the cache |
| Admin.RemoveBrotherRow | backend/admin.js:77-94 | the batch delete removes exactly row k of Sigma, clears its cached copy and forgets the validity of that email |
| Admin.AlumniQueue | backend/admin.js:105-109 | the queue holds, in increasing order, exactly the data rows whose position contains "alumni" ignoring case |
| Admin.CollectAlumni | backend/admin.js:105-109 | the loop collects the alumni rows in increasing order |
| Admin.DeleteAlumniRows | backend/admin.js:120-134 | deleting the queued rows from the bottom up leaves Sigma equal to the rows that were not queued, in order |
| Admin.DeactivateAlumniAsWritten | backend/admin.js:101-138 | the source's batch: with no alumni or no Sigma tab the count is 0 and nothing changes; otherwise the count is the number of alumni and Sigma keeps exactly its other rows; the email flags are left as they were |
| Admin.DeactivateAlumni | backend/admin.js:101-138 | the batch of the source, and then the alumni's email flags are dropped, so flags that were all roster keys stay roster keys |
| Admin.AlumnusStillAdmittedAsWritten | backend/admin.js:136 | after the source's batch, an alumnus whose flag was cached and whose email no other row holds is off the roster yet still admitted |
| Admin.AlumniGoneKeys | backend/admin.js:101-138 | after the batch the roster keys are exactly those of the rows that are not alumni |
| Admin.KeysSplit | backend/admin.js:101-138 | every roster key belongs to an alumnus's row or to another row |
| Admin.AlumniGone | backend/admin.js:101-138 | after deactivation the header is kept, every non-alumnus row survives, every surviving row is the header or a non-alumnus, and exactly the alumni are gone |
| Admin.Recent | backend/admin.js:190 | the log keeps its newest 500 entries: the length is capped at 500 and the kept entries are the suffix of the full log |
| Admin.AuditLog.constructor | backend/admin.js:188 | the log starts empty |
| Admin.AuditLog.LogAudit | backend/admin.js:187-192 | the new entry is last, the log is the newest 500 of the old log plus the entry, and below the cap nothing is dropped |
| Admin.AuditLog.Entries | backend/admin.js:183-185 | `getAuditLog` of a well-formed log gives at most 500 entries |
| Admin.RecentDropsOldest | backend/admin.js:189-190 | logging onto a full log drops exactly the oldest entry |
| Admin.UndoubleDoubled | backend/admin.js:200 | the CSV escaping of quotes in details is undone by reading doubled quotes back as one, so no detail text is lost |
| Admin.AuditLines | backend/admin.js:200 | one CSV line per audit entry, in order |
| Admin.DoubleQuotesNoBreak | backend/admin.js:200 | escaping quotes introduces no line break |
| Admin.ExportAuditLogLines | backend/admin.js:197-202 | when no field holds a line break, splitting the export on newlines gives back the header followed by one line per entry |
| Admin.ExportAuditLog | backend/admin.js:197-202 | the export starts with the header; with an empty log it is the header alone, otherwise a line break follows the header |
| Admin.AuditLineNoBreak | backend/admin.js:200 | an entry without line breaks gives a single CSV line |
| Buttons.AccessList | backend/buttons.js:39-53 | an absent or empty access-list cell reads as the empty list |
| Buttons.IsLegacy | backend/buttons.js:27-29 | a legacy row has an access type ("All" or one containing "Specific") in column 2 and none in column 5 |
| Buttons.ParseButton | backend/buttons.js:23-59 | a row parses exactly when its access-list cell (column 3 in the legacy layout, 6 otherwise) is absent, empty or a JSON array of strings; the id and name come from columns 0 and 1; a legacy row has no description or icon, the default colour, its access type, content, creator and time in columns 2, 4, 5 and 7, its owner position in 6 or "", and never excludes pledges; a new-layout row takes description, icon and owner position from columns 2, 3 and 9 or "", the colour from 4 or the default, access type, content, creator and time from 5, 7, 8 and 11, and the pledge flag only when column 10 holds "TRUE". That is the corrected reading of `row[10] \|\| false`; `ParseButtonAsWritten` and Findings row backend/buttons.js:57 give the reading as written, and `CustomButtons`, `Shown` and `Visible` inherit the corrected one |
| Buttons.ParseButtonAsWritten | backend/buttons.js:57 | parses the same rows as the corrected reader, but any non-empty exclude-pledges cell, "FALSE" included, counts as true |
| Buttons.ParseButtons | backend/buttons.js:23-61 | every button read comes from a non-blank data row that parses to it, and the read fails exactly when some non-blank data row fails to parse |
| Buttons.PrependNothing | backend/buttons.js:22-64 | a proof step of `ReadButtons`' loop invariant, not a rule of the source: putting no buttons before a read leaves it unchanged |
| Buttons.PrependStep | backend/buttons.js:22-64 | a proof step of `ReadButtons`' loop invariant, not a rule of the source: adding buttons to the front one at a time equals adding them all at once |
| Buttons.ReadButtons | backend/buttons.js:13-69 | the loop gives exactly the buttons of the sheet, or none when a row fails to parse |
| Buttons.CustomButtons | backend/buttons.js:13-69 | `getCustomButtons` on the rows: no data rows give []; every button comes from a non-blank data row that parses to it; a row whose access list does not parse empties the whole list |
| Buttons.ViewerRow | backend/buttons.js:92-99 | the row found is the first Sigma row whose non-empty email cell equals the user's email ignoring case, and `None` means there is no such row |
| Buttons.FindViewer | backend/buttons.js:80-100 | the loop finds the viewer's name and positions; the development user is "Admin" with every officer position, and any other viewer's positions are non-empty and trimmed |
| Buttons.PiecesTrimmed | backend/buttons.js:96 | the positions split from the cell are trimmed and blank pieces are dropped |
| Buttons.Fetched | backend/buttons.js:124-127 | absent content stays absent, and content that does not name the storage host is shown unchanged |
| Buttons.Shown | backend/buttons.js:106-120 | development shows every button; outside it a pledge never sees a button that excludes pledges, and only buttons for "All", "Specific Bros" or "Specific Officers" can be shown |
| Buttons.Visible | backend/buttons.js:102-138 | a display entry is produced exactly for each button the viewer may see, and never more entries than buttons |
| Buttons.ButtonsForDisplay | backend/buttons.js:75-145 | the loop gives exactly the display entries of the visible buttons |
| Buttons.AdminSeesAll | backend/buttons.js:107-111 | in development mode every button is shown |
| Buttons.PledgeNeverSeesExcluded | backend/buttons.js:102-107 | a pledge is shown only buttons that do not exclude pledges |
| Buttons.AllIsSeen | backend/buttons.js:107-113 | a button open to "All" is shown to every viewer it does not exclude as a pledge |
| Buttons.Managed | backend/buttons.js:377-381 | a button is kept exactly when the user created it or holds its owner position |
| Buttons.ButtonsForManager | backend/buttons.js:371-386 | in development mode every button is returned; otherwise exactly the buttons the user created (ignoring case) or owns through a listed position |
| Buttons.CreatorManages | backend/buttons.js:378 | a user always manages the buttons they created |
| Buttons.StoredContent | backend/buttons.js:166-172 | content that is not offloaded is stored as given; offloaded content with a non-empty upload URL is stored as that URL, and without one as the content |
| Buttons.Offloaded | backend/buttons.js:168 | content is offloaded only when it holds "<" and is over 1000 UTF-16 code units, so over 500 characters; HTML over 1000 characters always is |
| Buttons.UpTo | backend/buttons.js:152 | the text before the first occurrence of the character, which is a prefix without that character |
| Buttons.UpToSplit | backend/buttons.js:152 | that prefix is the first piece of splitting on the character |
| Buttons.LastSlash | backend/buttons.js:153 | the index of the last slash, with no slash after it, or -1 |
| Buttons.ExtractFileName | backend/buttons.js:151-155 | a file name found is non-empty and holds no slash or question mark |
| Buttons.ExtractBuilt | backend/buttons.js:151-155 | the name after the last slash is recovered from a URL, whatever query follows it |
| Buttons.UpToPrefix | backend/buttons.js:152 | the text before the separator is recovered exactly |
| Buttons.UploadNameFound | backend/buttons.js:151-172 | the file name a button's content is uploaded under is the one extracted from its URL when it is later replaced or deleted |
| Buttons.ButtonRow | backend/buttons.js:278-286 | an updated row has all twelve columns |
| Buttons.ButtonRowReadsBack | backend/buttons.js:278-286 | reading an updated row back gives the draft's fields with their defaults, the stored creator and owner position when the draft has none, and the stored exclude flag when the draft leaves it unset |
| Buttons.NewButtonReadsBack | backend/buttons.js:174-181 | a saved button reads back with its creator, access list and owner position, and excludes pledges exactly when the draft asked it to |
| Buttons.NewButtonRow | backend/buttons.js:174-181 | the appended row has twelve columns: the id first, the stored content in column 7, the saver as creator, the draft's owner position, an absent exclude flag written as false, and the time last |
| Buttons.SavedFalseExcludesAsWritten | backend/buttons.js:57 | a button saved (line 180) without excluding pledges is read back by the code as written as excluding them and is hidden from a pledge, while the corrected reader shows it |
| Buttons.BulkRow | backend/buttons.js:217-224 | a personalised row has all twelve columns |
| Buttons.BulkRowReadsBack | backend/buttons.js:217-224 | a personalised button reads back with its name put into the template, an access list holding only that name, the bulk access type, the creator, and pledges not excluded |
| Buttons.PersonalButtonShown | backend/buttons.js:114-117 | a "Specific Bros" personalised button built by the bulk save is shown exactly to the brother whose name it carries, ignoring case |
| Buttons.SaveCustomButtonAsWritten | backend/buttons.js:160-196 | the new row is appended, but only the parsed-button memo is dropped, so a cached copy of the sheet no longer agrees with the workbook |
| Buttons.SaveCustomButton | backend/buttons.js:160-196 | exactly the new row is appended to the Buttons sheet and the cache stays coherent with the workbook |
| Buttons.SaveBulkButtonsAsWritten | backend/buttons.js:201-242 | no items changes nothing and reports 0; otherwise one row per item is appended, but only the parsed-button memo is dropped, so a cached copy of the sheet no longer agrees with the workbook |
| Buttons.BulkRows | backend/buttons.js:207-225 | the loop builds one row per item, each the personalised row for that item |
| Buttons.SaveBulkButtons | backend/buttons.js:201-242 | no items changes nothing and reports 0; otherwise the Buttons sheet keeps its rows and gains exactly one personalised row per item, in order, and the count reported is the number of items |
| Buttons.FindButton | backend/buttons.js:253-254 | the row found is the first from the start whose id cell equals the id, and `None` means there is none |
| Buttons.FindButtonRow | backend/buttons.js:317-331 | the loop finds the first data row with the id |
| Buttons.UpdateButton | backend/buttons.js:247-306 | an unknown id is refused with the sheet untouched; otherwise only the first row with the id is overwritten with the updated row |
| Buttons.UpdatedRowReadsBack | backend/buttons.js:288-294 | the overwritten row reads back as the row written |
| Buttons.DeleteButton | backend/buttons.js:311-365 | an unknown id and a missing Buttons tab are refused with the sheet untouched; otherwise exactly the first row with the id is removed |
| Buttons.DeleteUncoversNext | backend/buttons.js:311-365 | after the delete, the next row with the same id, if any, is found one row higher |

## Left out

- The Sheets client, authentication to it, and the HTTP calls are not modelled. The workbook is an abstract store; a failed call is the `ServiceError` result where the source catches it.
- `getRange` and `setValue` are left out. `setValue` is `SetValues` with a one-cell block.
- The `flushAllSheetCaches` operation is left out.
- Expiry of the sheet caches is not modelled: a cached tab, email flag or tab id lives until it is deleted, so no TTL or check period appears for them. The session cache's time-to-live is modelled by `Auth.SessionStore`.
- The parsed-buttons memo `customButtons` is not modelled. Reads parse the Buttons tab through the sheet cache; the memo would hold that same parse until it is dropped.
- There is no mutex waiting, fairness or interleaving. Each guarded body is one atomic method. `backend/polls.js` and `backend/admin.js` take no lock, so lost updates between their concurrent read-modify-write calls are not captured.
- Change notifications (`notifySSE`, `broadcastSSE`, `sendGlobalAnnouncement`) are left out. They fail silently in the source and change no state here.
- The blob store is not modelled. An upload is given as its resulting URL, or `None`. Fetching a stored page is a function parameter. Deletes of old files are not modelled; `Buttons.UploadNameFound` states only that the right file name is found.
- `decodeURIComponent` in `extractFileNameFromUrl` is not modelled. File names are compared as written.
- `generateButtonId`, `crypto.randomUUID`, poll ids, session ids and `new Date()` timestamps are parameters. Their randomness and format are not modelled.
- `Json`: the decoder accepts only what `JSON.stringify` writes for string arrays and vote objects. It takes no whitespace and no non-string values, so a hand-edited cell outside that form reads as a parse failure.
- Sheets.Workbook.Update: stores every written string verbatim and reads it back as written. Every write in the source passes `valueInputOption: 'USER_ENTERED'`, so Sheets parses each string as typed input: numbers (dropping leading zeros), dates, formulas starting with `=`, `+` or `-`, and a leading apostrophe. That parsing is not modelled, so the read-back lemmas below hold only for text that Sheets keeps as it is.
- Sheets.Workbook.Append: stores every written string verbatim, as Sheets.Workbook.Update does.
- Sheets.Workbook.Replace: stores every written string verbatim, as Sheets.Workbook.Update does.
- Rush.NewRecruitReads: holds only for written cells that Sheets keeps as typed.
- Rush.UpdatedRecruitForm: holds only for written cells that Sheets keeps as typed.
- Rush.ListAtWritten: holds only for a JSON list cell that Sheets keeps as typed.
- Rush.UpsertOverwrites: holds only for comment text and ids that Sheets keeps as typed.
- Buttons.ButtonRowReadsBack: holds only for written cells that Sheets keeps as typed.
- Buttons.NewButtonReadsBack: holds only for written cells that Sheets keeps as typed.
- Buttons.BulkRowReadsBack: holds only for written cells that Sheets keeps as typed.
- Polls.VoteReadsBack: holds only for a vote cell that Sheets keeps as typed.
- Thresholds, booleans and numbers are kept as the text the sheet holds. Number parsing is limited to whole numbers, as the id allocator and tiers need.
- Floating point is not modelled: `toFixed`, the yield rate and average points. The score multipliers are compared in whole numbers, with `round(points × 1.5)` written as `(3 × points + 1) / 2` and `round(points × 1.2)` as `(12 × points + 5) / 10`.
- `Admin.AllBrothers`: the `localeCompare` sort of `getAllBrothers` is not modelled. The contract states which brothers are listed, not their order.
- `Polls.SortPolls`: creation times are compared through a given time function. `Date.parse` and its `NaN` for a malformed date are not modelled.
- Dicts.Put: a key that is a canonical array index ("7", "42") is placed, in a JavaScript object and by `JSON.parse`, before every other key in numeric order, whatever the insertion order. Assigning `__proto__` sets the prototype and adds no entry. Both cases are not modelled: a voter named that way is stored as an ordinary entry in insertion order.
- Dicts.FromPairs: builds its entries with `Dicts.Put`, so the same two key forms are not modelled.
- Columns.ParseCellRef: the reading of column letters in either case follows the A1 notation of the Sheets service, which is outside this model.
- `Admin.DeleteBrother` requires that tab ids are distinct in the workbook, as the Sheets service guarantees. The same holds for `Buttons.DeleteButton` and `Admin.DeactivateAlumni`.
- `Sheets.DeleteRow` promises that the cache stays coherent only when tab ids are distinct and every memoised id still names its tab. The source never clears the memo, so after a tab is deleted and re-created the row is removed from whichever tab the stale id names.
- Some rush operations are left out: `getRushEvents`, `getRushEvent`, `addRushEventToSheet`, `deleteRushEvent`, `calculateRushStatistics`, `calculateRushEngagement` and `getRushPageDetails`. They are reporting and tab creation outside the record updates modelled here.
- Timestamp coercion in `getCommentsForRush` is left out.
- Some admin operations are left out: `getSystemStats`, `forceLogoutAllUsers`, `resetAllPasswords` and `clearAllCache`. They read process statistics or flush a whole cache, and carry no rule beyond that.
- `Rush.UpdatedRow`: a recruit row shorter than its header is padded with empty cells where the source would leave holes. Both read back as empty.
- `Auth.ValidateIdToken`: the network request to the token service is not modelled. Its answer (the payload, or `None` on failure) is an input.
- Text.Lower: `toLowerCase` is modelled for the capitals of Basic Latin, Latin-1, Greek and Cyrillic only. Capitals of other scripts are kept, and folds that change the length (such as 'İ') or depend on context (the final sigma) are not modelled.
- Text.ToLower: lower-cases with `Text.Lower`, so it folds only those capitals.
- Text.Normalize: the lookup key folds only the capitals `Text.Lower` covers.
- Text.ToLowerIdempotent: proved for the fold of `Text.Lower`, not for the full Unicode mapping.
- Text.TrimLowerCommute: proved for the fold of `Text.Lower` and the white space `Text.IsSpace` lists.
- Text.NormalizeIdempotent: proved for the fold of `Text.Lower`, not for the full Unicode mapping.
- Text.Utf16Length: a Dafny string holds Unicode scalar values, so a JavaScript string with an unpaired surrogate has no counterpart here.
- Express routes, page rendering, `backend/config.js` and the service worker are not part of this model.

## Findings

| source | as written | input that shows it | evidently intended | confidence | as-written member | corrected member |
|---|---|---|---|---|---|---|
| backend/rush.js:757 (also 644, 797, 810, 856, 909, 918) | the column letter is `String.fromCharCode(65 + c)` | column index 26 gives "[", so the address "[2" names no cell; column index 32 gives "a", so the write lands in column A instead of AG | bijective base-26 column names (A..Z, AA, AB, ...) | high; not executed | Columns.ColumnLetterFails | Columns.ParseCellRefOf |
| backend/rush.js:591, 620, 649 | `addOrUpdateRecruitWithPhoto` holds `rushMutex` and calls `getNextAvailableId`, which acquires the same non-reentrant mutex | any add of a new recruit (no recruit id) | allocate the id inside the critical section already held | high; not executed | Rush.AddNewRecruitDeadlocks | Rush.AddRecruitCompletes |
| backend/sigma.js:72 | `fullName.split(' ')[1]` is `undefined` for a one-word name | the name "Alex" greets "Welcome brother undefined!" | an empty second word | medium; not executed | Sigma.OneWordNameGreetsUndefined | Sigma.WelcomeNamesSecondWord |
| backend/buttons.js:57 | `row[10] \|\| false` treats any non-empty cell as true | a button saved with `excludePledges` false is stored as "FALSE" and read back as excluding pledges | read "FALSE" as false | medium; not executed | Buttons.SavedFalseExcludesAsWritten | Buttons.NewButtonReadsBack |
| backend/buttons.js:190 | saving drops only the `customButtons` memo, not `sheetData_Buttons` | a save while the Buttons tab is cached: the next read still returns the old tab | clear the tab's cached copy as update and delete do | medium; not executed | Buttons.SaveCustomButtonAsWritten | Buttons.SaveCustomButton |
| backend/buttons.js:236 | bulk saving drops only the `customButtons` memo, not `sheetData_Buttons` | a bulk save of one item while the Buttons tab is cached: the next read still returns the old tab | clear the tab's cached copy as update and delete do | medium; not executed | Buttons.SaveBulkButtonsAsWritten | Buttons.SaveBulkButtons |
| backend/admin.js:136 | `deactivateAlumni` clears only the Sigma tab's cache, not the alumni's `validEmail:` flags | an alumnus signed in within the flag's lifetime, then deactivated: `isValidEmail` still answers true and the middleware admits them | drop each alumnus's flag, as `deleteBrother` does | high; not executed | Admin.AlumnusStillAdmittedAsWritten | Admin.DeactivateAlumni |
