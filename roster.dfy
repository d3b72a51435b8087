/** The roster reconciler of `backend/roster.js`: a client sends the whole
    roster it wants plus an explicit removal list, and the Sigma sheet is
    rewritten so that removed brothers go, listed brothers get their email,
    name and position cells rewritten, and brothers not yet on the sheet are
    appended. */
module Roster {
  import opened Wrappers
  import opened Text
  import opened Dicts
  import opened Sheets
  import opened Seqs

  // ---------------------------------------------------------------------------
  // Who may edit the roster
  // ---------------------------------------------------------------------------

  /** The officer titles that may manage the roster. */
  const Managers: set<string> := {"Alpha", "Beta", "Sigma", "Chi"}

  /** `canManageRoster`: some comma-separated, trimmed position is exactly one
      of the manager titles. A missing position arrives as "". */
  function CanManageRoster(position: string): (r: bool)
    ensures r <==> exists i :: 0 <= i < |Split(position, ',')| && Trim(Split(position, ',')[i]) in Managers
  {
    var pieces := TrimmedPieces(position, ',');
    assert forall i :: 0 <= i < |Split(position, ',')| ==> TrimAll(Split(position, ','))[i] in TrimAll(Split(position, ','));
    exists p :: p in pieces && p in Managers
  }

  /** A position with no comma qualifies exactly when, trimmed, it is a
      manager title; a blank position never does. */
  lemma CanManageRosterOne(position: string)
    requires ',' !in position
    ensures CanManageRoster(position) <==> Trim(position) in Managers
    ensures !CanManageRoster("")
  {
    SplitNone(position, ',');
    SplitNone("", ',');
    assert Trim("") == "" by {
      var e := Trim("");
      assert |e| <= 0;
    }
  }

  /** A comma-separated list qualifies when its first entry does or the
      rest does. */
  lemma CanManageRosterFirst(first: string, rest: string)
    requires ',' !in first
    ensures CanManageRoster(first + [','] + rest) <==> Trim(first) in Managers || CanManageRoster(rest)
  {
    SplitFirst(first, ',', rest);
    var ps := Split(first + [','] + rest, ',');
    var tail := Split(rest, ',');
    assert ps == [first] + tail;
    assert forall i :: 0 <= i < |tail| ==> ps[i + 1] == tail[i];
    if CanManageRoster(first + [','] + rest) {
      var i :| 0 <= i < |ps| && Trim(ps[i]) in Managers;
      if i > 0 {
        assert Trim(tail[i - 1]) in Managers;
      }
    }
  }

  // ---------------------------------------------------------------------------
  // The desired roster and the removal list
  // ---------------------------------------------------------------------------

  /** One brother as the client sends it; a missing field arrives as "". */
  datatype Entry = Entry(email: string, name: string, position: string)

  /** The cells 4, 5 and 6 to write for one brother. */
  datatype Fields = Fields(email: string, name: string, position: string)

  /** The fields of an entry: the email trimmed but not lower-cased, a blank
      name "Unknown" and a blank position "None". */
  function FieldsOf(b: Entry): (f: Fields)
    ensures f.email == Trim(b.email)
    ensures f.name != "" && (Trim(b.name) != "" ==> f.name == Trim(b.name))
    ensures f.position != "" && (Trim(b.position) != "" ==> f.position == Trim(b.position))
  {
    Fields(Trim(b.email),
           if Trim(b.name) == "" then "Unknown" else Trim(b.name),
           if Trim(b.position) == "" then "None" else Trim(b.position))
  }

  /** The stored email keeps the key of the entry. */
  lemma FieldsOfKey(b: Entry)
    ensures Normalize(FieldsOf(b).email) == Normalize(b.email)
  {
    NormalizeIdempotent(b.email);
  }

  /** `updateMap`: each entry with a non-blank email, keyed by its normalized
      email, in first-seen order; a later entry with the same key replaces
      the earlier one's fields in place. */
  function UpdatesOf(roster: seq<Entry>): (m: Dict<Fields>)
    ensures UniqueKeys(m)
    decreases |roster|
  {
    if roster == [] then []
    else
      var init := UpdatesOf(roster[..|roster| - 1]);
      var b := roster[|roster| - 1];
      if Normalize(b.email) == "" then init
      else
        PutUnique(init, Normalize(b.email), FieldsOf(b));
        Put(init, Normalize(b.email), FieldsOf(b))
  }

  /** The last entry of the roster whose normalized email is `k`. */
  function LastWith(roster: seq<Entry>, k: string): (r: Option<Entry>)
    ensures r.Some? ==> Normalize(r.value.email) == k
    ensures r.Some? ==> exists i :: (0 <= i < |roster| && roster[i] == r.value
      && forall j :: i < j < |roster| ==> Normalize(roster[j].email) != k)
    ensures r.None? ==> forall i :: 0 <= i < |roster| ==> Normalize(roster[i].email) != k
    decreases |roster|
  {
    if roster == [] then None
    else if Normalize(roster[|roster| - 1].email) == k then Some(roster[|roster| - 1])
    else
      var r := LastWith(roster[..|roster| - 1], k);
      if r.Some? then LastWithSome(roster, k, r.value); r
      else LastWithNone(roster, k); r
  }

  /** The last entry with the key before the roster's last entry, which has
      another key, is the last one in the whole roster. */
  lemma LastWithSome(roster: seq<Entry>, k: string, e: Entry)
    requires roster != [] && Normalize(roster[|roster| - 1].email) != k
    requires var init := roster[..|roster| - 1];
      exists i :: (0 <= i < |init| && init[i] == e
        && forall j :: i < j < |init| ==> Normalize(init[j].email) != k)
    ensures exists i :: (0 <= i < |roster| && roster[i] == e
      && forall j :: i < j < |roster| ==> Normalize(roster[j].email) != k)
  {
    var init := roster[..|roster| - 1];
    var i :| 0 <= i < |init| && init[i] == e
      && forall j :: i < j < |init| ==> Normalize(init[j].email) != k;
    assert roster[i] == init[i];
    forall j | i < j < |roster|
      ensures Normalize(roster[j].email) != k
    {
      if j < |init| {
        assert roster[j] == init[j];
      }
    }
  }

  /** No entry with the key before the last entry, which has another key,
      means none in the whole roster. */
  lemma LastWithNone(roster: seq<Entry>, k: string)
    requires roster != [] && Normalize(roster[|roster| - 1].email) != k
    requires var init := roster[..|roster| - 1];
      forall i :: 0 <= i < |init| ==> Normalize(init[i].email) != k
    ensures forall i :: 0 <= i < |roster| ==> Normalize(roster[i].email) != k
  {
    var init := roster[..|roster| - 1];
    assert forall i :: 0 <= i < |init| ==> roster[i] == init[i];
  }

  /** A key of the update map is the normalized email of some entry, and its
      fields are those of the last entry with that key. */
  lemma {:induction false} UpdatesOfLookup(roster: seq<Entry>, k: string)
    ensures Lookup(UpdatesOf(roster), k) ==
      (if k == "" || LastWith(roster, k).None? then None else Some(FieldsOf(LastWith(roster, k).value)))
    decreases |roster|
  {
    if roster != [] {
      UpdatesOfLookup(roster[..|roster| - 1], k);
    }
  }

  /** `removeSet`: the non-blank normalized emails of the removal list. */
  function RemoveKeys(removed: seq<Entry>): (s: set<string>)
    ensures "" !in s
    ensures forall k :: k in s <==> k != "" && exists i :: 0 <= i < |removed| && Normalize(removed[i].email) == k
    decreases |removed|
  {
    if removed == [] then {}
    else
      var init := removed[..|removed| - 1];
      var k := Normalize(removed[|removed| - 1].email);
      assert forall i :: 0 <= i < |init| ==> init[i] == removed[i];
      RemoveKeys(init) + (if k == "" then {} else {k})
  }

  // ---------------------------------------------------------------------------
  // What happens to each row
  // ---------------------------------------------------------------------------

  /** The key of a sheet row: its normalized column-4 email, "" when absent. */
  function RowKey(row: Row): string {
    if 4 < |row| then Normalize(row[4]) else ""
  }

  /** A data row that is queued for deletion. */
  predicate Doomed(row: Row, removeSet: set<string>) {
    RowKey(row) != "" && RowKey(row) in removeSet
  }

  /** A data row whose cells 4 to 6 are rewritten. */
  predicate Refreshed(row: Row, removeSet: set<string>, m: Dict<Fields>) {
    RowKey(row) != "" && RowKey(row) !in removeSet && Lookup(m, RowKey(row)).Some?
  }

  /** The row padded with "" to seven cells, then cells 4, 5 and 6 set. */
  function Overwrite(row: Row, f: Fields): (r: Row)
    ensures |r| == Max(|row|, 7)
    ensures r[4] == f.email && r[5] == f.name && r[6] == f.position
    ensures forall j :: 0 <= j < |r| && j != 4 && j != 5 && j != 6 ==>
      r[j] == (if j < |row| then row[j] else "")
  {
    Pad(row, 7)[4 := f.email][5 := f.name][6 := f.position]
  }

  /** One data row after the scan. */
  function ProcessRow(row: Row, removeSet: set<string>, m: Dict<Fields>): Row {
    if Refreshed(row, removeSet, m) then Overwrite(row, Lookup(m, RowKey(row)).value) else row
  }

  /** Rewriting a row never changes its key, so it stays matched to the same
      brother. */
  lemma ProcessRowKey(row: Row, removeSet: set<string>, m: Dict<Fields>, roster: seq<Entry>)
    requires m == UpdatesOf(roster)
    ensures RowKey(ProcessRow(row, removeSet, m)) == RowKey(row)
  {
    if Refreshed(row, removeSet, m) {
      var k := RowKey(row);
      UpdatesOfLookup(roster, k);
      FieldsOfKey(LastWith(roster, k).value);
    }
  }

  /** The table after the scan: the header as it was, every data row
      processed. */
  function Processed(t: Table, removeSet: set<string>, m: Dict<Fields>): (p: Table)
    ensures |p| == |t|
    ensures |t| > 0 ==> p[0] == t[0]
    ensures forall i :: 1 <= i < |t| ==> p[i] == ProcessRow(t[i], removeSet, m)
  {
    seq(|t|, i requires 0 <= i < |t| => if i == 0 then t[0] else ProcessRow(t[i], removeSet, m))
  }

  /** `rowsToDelete` after the scan of rows [1, n): the doomed indices, in
      increasing order. */
  function Queue(t: Table, removeSet: set<string>, n: nat): seq<nat>
    requires n <= |t|
    decreases n
  {
    if n <= 1 then []
    else Queue(t, removeSet, n - 1) + (if Doomed(t[n - 1], removeSet) then [n - 1] else [])
  }

  /** The queue holds exactly the doomed data rows below `n`, each once, in
      increasing order. */
  lemma QueueShape(t: Table, removeSet: set<string>, n: nat)
    requires n <= |t|
    ensures var q := Queue(t, removeSet, n);
      (forall x :: x in q <==> 1 <= x < n && Doomed(t[x], removeSet))
      && (forall a :: 0 <= a < |q| ==> 1 <= q[a] < n)
      && Increasing(q)
  {
    forall x
      ensures x in Queue(t, removeSet, n) <==> 1 <= x < n && Doomed(t[x], removeSet)
    {
      QueueMembers(t, removeSet, n, x);
    }
    QueueBounds(t, removeSet, n);
    QueueIncreasing(t, removeSet, n);
  }

  lemma {:induction false} QueueMembers(t: Table, removeSet: set<string>, n: nat, x: int)
    requires n <= |t|
    ensures x in Queue(t, removeSet, n) <==> 1 <= x < n && Doomed(t[x], removeSet)
    decreases n
  {
    if n > 1 {
      QueueMembers(t, removeSet, n - 1, x);
      var init := Queue(t, removeSet, n - 1);
      if Doomed(t[n - 1], removeSet) {
        assert Queue(t, removeSet, n) == init + [n - 1];
        assert x in init + [n - 1] <==> x in init || x == n - 1;
      } else {
        assert Queue(t, removeSet, n) == init;
      }
    }
  }

  lemma {:induction false} QueueBounds(t: Table, removeSet: set<string>, n: nat)
    requires n <= |t|
    ensures forall a :: 0 <= a < |Queue(t, removeSet, n)| ==> 1 <= Queue(t, removeSet, n)[a] < n
    decreases n
  {
    if n > 1 {
      QueueBounds(t, removeSet, n - 1);
      var init := Queue(t, removeSet, n - 1);
      var tail := if Doomed(t[n - 1], removeSet) then [n - 1] else [];
      assert Queue(t, removeSet, n) == init + tail;
      forall a | 0 <= a < |init + tail|
        ensures 1 <= (init + tail)[a] < n
      {
        if a < |init| {
          assert (init + tail)[a] == init[a];
        } else {
          assert (init + tail)[a] == tail[a - |init|] == n - 1;
        }
      }
    }
  }

  lemma {:induction false} QueueIncreasing(t: Table, removeSet: set<string>, n: nat)
    requires n <= |t|
    ensures Increasing(Queue(t, removeSet, n))
    decreases n
  {
    if n > 1 {
      QueueIncreasing(t, removeSet, n - 1);
      QueueBounds(t, removeSet, n - 1);
      var init := Queue(t, removeSet, n - 1);
      if Doomed(t[n - 1], removeSet) {
        assert Queue(t, removeSet, n) == init + [n - 1];
        SnocIncreasing(init, n - 1);
      } else {
        assert Queue(t, removeSet, n) == init;
      }
    }
  }

  /** `updateCount` after the scan of rows [1, n). */
  function Refreshes(t: Table, removeSet: set<string>, m: Dict<Fields>, n: nat): nat
    requires n <= |t|
    decreases n
  {
    if n <= 1 then 0
    else Refreshes(t, removeSet, m, n - 1) + (if Refreshed(t[n - 1], removeSet, m) then 1 else 0)
  }

  /** `originalEmails` after the scan of rows [1, n): the non-blank keys. */
  function KeysUpTo(t: Table, n: nat): set<string>
    requires n <= |t|
    decreases n
  {
    if n <= 1 then {}
    else
      var k := RowKey(t[n - 1]);
      KeysUpTo(t, n - 1) + (if k == "" then {} else {k})
  }

  /** The keys seen are the non-blank keys of the data rows below `n`. */
  lemma {:induction false} KeysUpToMembers(t: Table, n: nat, k: string)
    requires n <= |t|
    ensures k in KeysUpTo(t, n) <==> k != "" && exists i :: 1 <= i < n && RowKey(t[i]) == k
    decreases n
  {
    if n > 1 {
      KeysUpToMembers(t, n - 1, k);
      var last := RowKey(t[n - 1]);
      assert KeysUpTo(t, n) == KeysUpTo(t, n - 1) + (if last == "" then {} else {last});
      if k != "" && last == k {
        assert 1 <= n - 1 < n && RowKey(t[n - 1]) == k;
      }
      if k != "" && exists i :: 1 <= i < n && RowKey(t[i]) == k {
        var i :| 1 <= i < n && RowKey(t[i]) == k;
        if i < n - 1 {
          assert k in KeysUpTo(t, n - 1);
        }
      }
    }
  }

  // ---------------------------------------------------------------------------
  // Deleting the queued rows
  // ---------------------------------------------------------------------------

  /** The rows at indices `lo` and above that the queue does not name, in
      their order. */
  function Keep(t: Table, lo: nat, q: seq<nat>): Table
    decreases |t| - lo
  {
    if lo >= |t| then [] else (if lo in q then [] else [t[lo]]) + Keep(t, lo + 1, q)
  }

  /** A stretch with nothing queued is kept whole. */
  lemma {:induction false} KeepSkip(t: Table, a: nat, b: nat, q: seq<nat>)
    requires a <= b <= |t|
    requires forall x :: x in q ==> !(a <= x < b)
    ensures Keep(t, a, q) == t[a..b] + Keep(t, b, q)
    decreases b - a
  {
    if a < b {
      KeepSkip(t, a + 1, b, q);
      assert t[a..b] == [t[a]] + t[a + 1..b];
      Assoc([t[a]], t[a + 1..b], Keep(t, b, q));
    }
  }

  /** Every row the queue does not name survives. */
  lemma {:induction false} KeepHas(t: Table, lo: nat, q: seq<nat>, i: nat)
    requires lo <= i < |t| && i !in q
    ensures t[i] in Keep(t, lo, q)
    decreases i - lo
  {
    if lo < i {
      KeepHas(t, lo + 1, q, i);
    }
  }

  /** Only rows of the table survive. */
  lemma {:induction false} KeepFrom(t: Table, lo: nat, q: seq<nat>, row: Row)
    requires row in Keep(t, lo, q)
    ensures exists i :: lo <= i < |t| && i !in q && t[i] == row
    decreases |t| - lo
  {
    if lo < |t| && !(lo !in q && row == t[lo]) {
      KeepFrom(t, lo + 1, q, row);
    }
  }

  /** Exactly the queued rows go. */
  lemma {:induction false} KeepLength(t: Table, lo: nat, q: seq<nat>)
    requires lo <= |t|
    requires Increasing(q)
    requires forall a :: 0 <= a < |q| ==> lo <= q[a] < |t|
    ensures |Keep(t, lo, q)| == |t| - lo - |q|
    decreases |t| - lo
  {
    if lo < |t| {
      if lo in q {
        assert q[0] == lo by {
          var a :| 0 <= a < |q| && q[a] == lo;
          assert q[0] <= q[a];
        }
        assert lo !in q[1..] by {
          forall a | 0 <= a < |q[1..]|
            ensures q[1..][a] != lo
          {
            assert q[1..][a] == q[a + 1] > q[0];
          }
        }
        KeepLength(t, lo + 1, q[1..]);
        KeepSameOn(t, lo + 1, q, q[1..]);
      } else {
        KeepLength(t, lo + 1, q);
      }
    } else {
      EmptyRange(q, lo, |t|);
    }
  }

  /** `Keep` from `lo` only looks at queue entries from `lo` on. */
  lemma {:induction false} KeepSameOn(t: Table, lo: nat, q: seq<nat>, q': seq<nat>)
    requires forall x :: lo <= x ==> (x in q <==> x in q')
    ensures Keep(t, lo, q) == Keep(t, lo, q')
    decreases |t| - lo
  {
    if lo < |t| {
      KeepSameOn(t, lo + 1, q, q');
    }
  }

  /** The splice loop: the queue is walked from its last entry down and each
      named row is cut out, so the indices still to be cut stay valid. */
  method DeleteQueued(rows: Table, q: seq<nat>) returns (out: Table)
    requires Increasing(q)
    requires forall a :: 0 <= a < |q| ==> q[a] < |rows|
    ensures out == Keep(rows, 0, q)
  {
    out := rows;
    var j := |q|;
    RemainingEnds(rows, q);
    while j > 0
      invariant 0 <= j <= |q|
      invariant out == Remaining(rows, q, j)
      decreases j
    {
      var x := q[j - 1];
      RemainingStep(rows, q, j);
      out := out[..x] + out[x + 1..];
      j := j - 1;
    }
  }

  /** The rows still there once the queue from position `j` on is deleted. */
  function Remaining(rows: Table, q: seq<nat>, j: nat): Table
    requires j <= |q| && forall a :: 0 <= a < |q| ==> q[a] < |rows|
  {
    var lo := if j < |q| then q[j] else |rows|;
    rows[..lo] + Keep(rows, lo, q)
  }

  /** Deleting the row at position `j - 1` of the queue, which the rows
      still there hold at its old index, extends the deletion by one. */
  lemma RemainingStep(rows: Table, q: seq<nat>, j: nat)
    requires Increasing(q) && forall a :: 0 <= a < |q| ==> q[a] < |rows|
    requires 0 < j <= |q|
    ensures q[j - 1] < |Remaining(rows, q, j)|
    ensures Remaining(rows, q, j - 1) == DeleteRange(Remaining(rows, q, j), q[j - 1], q[j - 1] + 1)
  {
    var lo := if j < |q| then q[j] else |rows|;
    var out := Remaining(rows, q, j);
    CutStep(rows, q, j, lo, out);
    assert |out| >= lo;
  }

  /** Nothing deleted yet leaves the rows as they are; the whole queue
      deleted leaves what `Keep` keeps. */
  lemma RemainingEnds(rows: Table, q: seq<nat>)
    requires Increasing(q) && forall a :: 0 <= a < |q| ==> q[a] < |rows|
    ensures Remaining(rows, q, |q|) == rows
    ensures Remaining(rows, q, 0) == Keep(rows, 0, q)
  {
    assert rows[..|rows|] + Keep(rows, |rows|, q) == rows;
    var lo := if |q| > 0 then q[0] else |rows|;
    KeepSkip(rows, 0, lo, q);
  }

  /** One step of the splice loop. */
  lemma CutStep(rows: Table, q: seq<nat>, j: nat, lo: nat, out: Table)
    requires Increasing(q)
    requires forall a :: 0 <= a < |q| ==> q[a] < |rows|
    requires 0 < j <= |q| && lo == (if j < |q| then q[j] else |rows|)
    requires out == rows[..lo] + Keep(rows, lo, q)
    ensures q[j - 1] < lo
    ensures out[..q[j - 1]] + out[q[j - 1] + 1..] == rows[..q[j - 1]] + Keep(rows, q[j - 1], q)
  {
    QueueGap(q, j, lo);
    CutQueued(rows, q, q[j - 1], lo, out);
  }

  /** Cutting a queued index out of the rows kept so far, when nothing is
      queued between it and `lo`. */
  lemma CutQueued(rows: Table, q: seq<nat>, x: nat, lo: nat, out: Table)
    requires x in q && x < lo <= |rows|
    requires forall y :: y in q ==> !(x + 1 <= y < lo)
    requires out == rows[..lo] + Keep(rows, lo, q)
    ensures out[..x] + out[x + 1..] == rows[..x] + Keep(rows, x, q)
  {
    KeepSkip(rows, x + 1, lo, q);
    assert Keep(rows, x, q) == Keep(rows, x + 1, q);
    CutAt(rows, lo, Keep(rows, lo, q), x, out);
  }

  /** Nothing is queued strictly between position `j - 1` of the queue and
      the next position (or the end of the rows). */
  lemma QueueGap(q: seq<nat>, j: nat, lo: nat)
    requires Increasing(q)
    requires 0 < j <= |q| && (j < |q| ==> lo == q[j])
    requires j == |q| ==> forall a :: 0 <= a < |q| ==> q[a] < lo
    ensures q[j - 1] < lo && forall y :: y in q ==> !(q[j - 1] + 1 <= y < lo)
  {
    var x := q[j - 1];
    forall y | y in q
      ensures !(x + 1 <= y < lo)
    {
      var a :| 0 <= a < |q| && q[a] == y;
      if a < j - 1 {
        assert q[a] < q[j - 1];
      } else if a > j - 1 {
        assert a >= j;
        if a > j {
          assert q[j] < q[a];
        }
      }
    }
  }

  /** Cutting index `x` out of `rows[..lo] + rest`. */
  lemma CutAt(rows: Table, lo: nat, rest: Table, x: nat, out: Table)
    requires x < lo <= |rows| && out == rows[..lo] + rest
    ensures out[..x] + out[x + 1..] == rows[..x] + (rows[x + 1..lo] + rest)
  {
    assert out[..x] == rows[..x];
    assert out[x + 1..] == rows[x + 1..lo] + rest;
  }

  /** The example of the deletion rule: rows [H, A, B, C] with rows 1 and 3
      queued become [H, B]. */
  lemma DeleteQueuedExample(h: Row, a: Row, b: Row, c: Row)
    ensures Keep([h, a, b, c], 0, [1, 3]) == [h, b]
  {
    var t := [h, a, b, c];
    assert Keep(t, 4, [1, 3]) == [];
    assert Keep(t, 3, [1, 3]) == [];
    assert Keep(t, 2, [1, 3]) == [b];
    assert Keep(t, 1, [1, 3]) == [b];
  }

  // ---------------------------------------------------------------------------
  // Appending the brothers not on the sheet
  // ---------------------------------------------------------------------------

  /** A fresh row: `width` empty cells with cells 4, 5 and 6 set. */
  function NewRow(width: nat, f: Fields): (r: Row)
    requires width >= 7
    ensures |r| == width && r[4] == f.email && r[5] == f.name && r[6] == f.position
    ensures forall j :: 0 <= j < width && j != 4 && j != 5 && j != 6 ==> r[j] == ""
  {
    seq(width, _ => "")[4 := f.email][5 := f.name][6 := f.position]
  }

  /** The rows appended for the update-map entries whose key is not among
      the sheet's original keys, in update-map order. */
  function Additions(m: Dict<Fields>, present: set<string>, width: nat): (r: Table)
    requires width >= 7
    ensures |r| <= |m|
    ensures forall j :: 0 <= j < |r| ==> |r[j]| == width
    decreases |m|
  {
    if m == [] then []
    else
      var init := Additions(m[..|m| - 1], present, width);
      var e := m[|m| - 1];
      init + (if e.0 in present then [] else [NewRow(width, e.1)])
  }

  /** Each added row is the fresh row of an update-map entry whose key was
      not on the sheet, and each such entry has its row. */
  lemma {:induction false} AdditionsExactly(m: Dict<Fields>, present: set<string>, width: nat, row: Row)
    requires width >= 7
    ensures row in Additions(m, present, width) <==>
      exists i :: 0 <= i < |m| && m[i].0 !in present && row == NewRow(width, m[i].1)
    decreases |m|
  {
    if m != [] {
      var init := m[..|m| - 1];
      AdditionsExactly(init, present, width, row);
      assert forall i :: 0 <= i < |init| ==> init[i] == m[i];
    }
  }

  /** The width of an appended row: the header's, but at least seven. */
  function Width(t: Table): (w: nat)
    requires t != []
    ensures w >= 7 && w >= |t[0]|
  {
    Max(|t[0]|, 7)
  }

  // ---------------------------------------------------------------------------
  // The whole reconciliation
  // ---------------------------------------------------------------------------

  /** The Sigma sheet the reconciler writes back. */
  function Reconciled(t: Table, roster: seq<Entry>, removed: seq<Entry>): Table
    requires t != []
  {
    var rs := RemoveKeys(removed);
    var m := UpdatesOf(roster);
    Keep(Processed(t, rs, m), 0, Queue(t, rs, |t|)) + Additions(m, KeysUpTo(t, |t|), Width(t))
  }

  /** The counts the reconciler reports. */
  datatype Outcome = Outcome(message: string, updateCount: nat, removeCount: nat, addCount: nat)

  /** The message: the non-zero counts joined by ", ", or "No changes". */
  function Message(updated: nat, removedCount: nat, added: nat): (s: string)
    ensures s == "No changes" <==> updated == 0 && removedCount == 0 && added == 0
  {
    var parts := (if updated > 0 then [NatToString(updated) + " updated"] else [])
      + (if removedCount > 0 then [NatToString(removedCount) + " removed"] else [])
      + (if added > 0 then [NatToString(added) + " added"] else []);
    if parts == [] then "No changes"
    else
      var s := JoinWith(parts, ", ");
      assert s[|s| - 1] == 'd' by {
        JoinWithLast(parts, ", ");
      }
      s
  }

  /** `parts.join(sep)`. */
  function JoinWith(parts: seq<string>, sep: string): string
    decreases |parts|
  {
    if parts == [] then ""
    else if |parts| == 1 then parts[0]
    else parts[0] + sep + JoinWith(parts[1..], sep)
  }

  lemma {:induction false} JoinWithLast(parts: seq<string>, sep: string)
    requires parts != [] && forall i :: 0 <= i < |parts| ==> parts[i] != [] && parts[i][|parts[i]| - 1] == 'd'
    ensures var s := JoinWith(parts, sep); s != [] && s[|s| - 1] == 'd'
    decreases |parts|
  {
    if |parts| > 1 {
      JoinWithLast(parts[1..], sep);
    }
  }

  /** The failure when the read gives nothing. */
  const EmptySheet := "Sigma sheet is empty or could not be read"

  /** `removeSet` built by the loop over the removal list. */
  method CollectRemovals(removed: seq<Entry>) returns (rs: set<string>)
    ensures rs == RemoveKeys(removed)
  {
    rs := {};
    var k := 0;
    while k < |removed|
      invariant 0 <= k <= |removed|
      invariant rs == RemoveKeys(removed[..k])
      decreases |removed| - k
    {
      var key := Normalize(removed[k].email);
      assert removed[..k + 1][..k] == removed[..k];
      if key != "" {
        rs := rs + {key};
      }
      k := k + 1;
    }
    assert removed[..|removed|] == removed;
  }

  /** `updateMap` built by the loop over the desired roster. */
  method CollectUpdates(roster: seq<Entry>) returns (m: Dict<Fields>)
    ensures m == UpdatesOf(roster)
  {
    m := [];
    var k := 0;
    while k < |roster|
      invariant 0 <= k <= |roster|
      invariant m == UpdatesOf(roster[..k])
      decreases |roster| - k
    {
      var b := roster[k];
      var key := Normalize(b.email);
      assert roster[..k + 1][..k] == roster[..k];
      if key != "" {
        m := Put(m, key, FieldsOf(b));
      }
      k := k + 1;
    }
    assert roster[..|roster|] == roster;
  }

  /** The scan of the data rows: queued rows, rewritten rows, the update
      count and the keys seen. */
  method Scan(t: Table, rs: set<string>, m: Dict<Fields>)
    returns (rows: Table, q: seq<nat>, updated: nat, seen: set<string>)
    ensures rows == Processed(t, rs, m)
    ensures q == Queue(t, rs, |t|)
    ensures updated == Refreshes(t, rs, m, |t|)
    ensures seen == KeysUpTo(t, |t|)
  {
    rows := t;
    q := [];
    updated := 0;
    seen := {};
    if |t| == 0 {
      return;
    }
    var i := 1;
    ScannedStart(t, rs, m);
    while i < |t|
      invariant 1 <= i <= |t|
      invariant rows == Scanned(t, rs, m, i)
      invariant q == Queue(t, rs, i)
      invariant updated == Refreshes(t, rs, m, i)
      invariant seen == KeysUpTo(t, i)
      decreases |t| - i
    {
      rows, q, updated, seen := ScanRow(t, rs, m, i, rows, q, updated, seen);
      i := i + 1;
    }
    ScannedEnd(t, rs, m);
  }

  /** One pass of the scan's loop: row `i` is queued, rewritten or left, and
      its key noted. */
  method ScanRow(t: Table, rs: set<string>, m: Dict<Fields>, i: nat,
                 rows: Table, q: seq<nat>, updated: nat, seen: set<string>)
    returns (rows': Table, q': seq<nat>, updated': nat, seen': set<string>)
    requires 1 <= i < |t|
    requires rows == Scanned(t, rs, m, i) && q == Queue(t, rs, i)
    requires updated == Refreshes(t, rs, m, i) && seen == KeysUpTo(t, i)
    ensures rows' == Scanned(t, rs, m, i + 1) && q' == Queue(t, rs, i + 1)
    ensures updated' == Refreshes(t, rs, m, i + 1) && seen' == KeysUpTo(t, i + 1)
  {
    ScanStep(t, rs, m, i);
    rows', q', updated', seen' := rows, q, updated, seen;
    var row := t[i];
    var key := RowKey(row);
    if key != "" {
      seen' := seen + {key};
      if key in rs {
        q' := q + [i];
        assert Doomed(t[i], rs) && !Refreshed(t[i], rs, m);
      } else {
        var f := Lookup(m, key);
        if f.Some? {
          rows' := rows[i := Overwrite(row, f.value)];
          updated' := updated + 1;
          assert !Doomed(t[i], rs) && Refreshed(t[i], rs, m);
        } else {
          assert !Doomed(t[i], rs) && !Refreshed(t[i], rs, m);
        }
      }
    } else {
      assert !Doomed(t[i], rs) && !Refreshed(t[i], rs, m);
    }
  }

  /** The table part-way through the scan: rows below `i` processed, the
      rest as read. */
  function Scanned(t: Table, rs: set<string>, m: Dict<Fields>, i: nat): Table
    requires 1 <= i <= |t|
  {
    Processed(t, rs, m)[..i] + t[i..]
  }

  /** The scan's accumulators after one more row. */
  lemma ScanStep(t: Table, rs: set<string>, m: Dict<Fields>, i: nat)
    requires 1 <= i < |t|
    ensures Scanned(t, rs, m, i + 1) == Scanned(t, rs, m, i)[i := ProcessRow(t[i], rs, m)]
    ensures Queue(t, rs, i + 1) == Queue(t, rs, i) + (if Doomed(t[i], rs) then [i] else [])
    ensures Refreshes(t, rs, m, i + 1) == Refreshes(t, rs, m, i) + (if Refreshed(t[i], rs, m) then 1 else 0)
    ensures KeysUpTo(t, i + 1) == KeysUpTo(t, i) + (if RowKey(t[i]) == "" then {} else {RowKey(t[i])})
  {
    var p := Processed(t, rs, m);
    SpliceStep(p, t, i);
  }

  lemma ScannedStart(t: Table, rs: set<string>, m: Dict<Fields>)
    requires |t| > 0
    ensures Scanned(t, rs, m, 1) == t
  {
    assert Processed(t, rs, m)[..1] == t[..1];
  }

  lemma ScannedEnd(t: Table, rs: set<string>, m: Dict<Fields>)
    requires |t| > 0
    ensures Scanned(t, rs, m, |t|) == Processed(t, rs, m)
  {
    assert t[|t|..] == [];
  }

  /** The loop over the update map appending the brothers not seen. */
  method Append(rows: Table, m: Dict<Fields>, seen: set<string>, width: nat) returns (out: Table, added: nat)
    requires width >= 7
    ensures out == rows + Additions(m, seen, width)
    ensures added == |Additions(m, seen, width)|
  {
    out := rows;
    added := 0;
    var k := 0;
    while k < |m|
      invariant 0 <= k <= |m|
      invariant out == rows + Additions(m[..k], seen, width)
      invariant added == |Additions(m[..k], seen, width)|
      decreases |m| - k
    {
      assert m[..k + 1][..k] == m[..k];
      var (key, f) := m[k];
      if key !in seen {
        out := out + [NewRow(width, f)];
        added := added + 1;
      }
      k := k + 1;
    }
    assert m[..|m|] == m;
  }

  /** `saveRosterChangesSimple`, the body guarded by the roster mutex: drop
      the cached Sigma sheet, read it, reconcile, write it back whole, then
      drop the cached sheet again and the email flag of every listed
      removal. */
  method SaveRosterChanges(book: Workbook, cache: Cache, roster: seq<Entry>, removed: seq<Entry>)
    returns (r: Result<Outcome>)
    modifies book`tables, cache`sheetData, cache`validEmail
    ensures var t := old(Contents(book, "Sigma"));
      t == [] ==> (r == Err(EmptySheet) && book.tables == old(book.tables)
        && cache.validEmail == old(cache.validEmail)
        && cache.sheetData == (if "Sigma" in book.tables then old(cache.sheetData)["Sigma" := []]
                              else old(cache.sheetData) - {"Sigma"}))
    ensures var t := old(Contents(book, "Sigma"));
      t != [] ==> (r.Ok? && book.tables == old(book.tables)["Sigma" := Reconciled(t, roster, removed)]
        && cache.sheetData == old(cache.sheetData) - {"Sigma"}
        && cache.validEmail == old(cache.validEmail) - RemoveKeys(removed))
    ensures var t := old(Contents(book, "Sigma"));
      r.Ok? ==> (t != []
        && r.value.updateCount == Refreshes(t, RemoveKeys(removed), UpdatesOf(roster), |t|)
        && r.value.removeCount == |Queue(t, RemoveKeys(removed), |t|)|
        && r.value.addCount == |Additions(UpdatesOf(roster), KeysUpTo(t, |t|), Width(t))|
        && r.value.message == Message(r.value.updateCount, r.value.removeCount, r.value.addCount))
    ensures old(Coherent(book, cache)) ==> Coherent(book, cache)
  {
    cache.sheetData := cache.sheetData - {"Sigma"};
    var data := GetParentSheet(book, cache, "Sigma");
    if |data| == 0 {
      return Err(EmptySheet);
    }
    var rows, outcome := Reconcile(data, roster, removed);
    var _ := book.Replace("Sigma", rows);
    ClearSheetCache(cache, "Sigma");
    DropAfterPut(old(cache.sheetData), "Sigma", data);
    cache.validEmail := cache.validEmail - RemoveKeys(removed);
    r := Ok(outcome);
  }

  /** The reconciliation itself, on the sheet as read: the removal set and
      the update map, the scan, the deletions from the bottom up and the
      appended rows, with the counts it reports. */
  method Reconcile(data: Table, roster: seq<Entry>, removed: seq<Entry>) returns (rows: Table, o: Outcome)
    requires data != []
    ensures rows == Reconciled(data, roster, removed)
    ensures o.updateCount == Refreshes(data, RemoveKeys(removed), UpdatesOf(roster), |data|)
    ensures o.removeCount == |Queue(data, RemoveKeys(removed), |data|)|
    ensures o.addCount == |Additions(UpdatesOf(roster), KeysUpTo(data, |data|), Width(data))|
    ensures o.message == Message(o.updateCount, o.removeCount, o.addCount)
  {
    var rs := CollectRemovals(removed);
    var m := CollectUpdates(roster);
    var q, updated, seen;
    rows, q, updated, seen := Scan(data, rs, m);
    QueueShape(data, rs, |data|);
    rows := DeleteQueued(rows, q);
    var width := Max(|data[0]|, 7);
    var added;
    rows, added := Append(rows, m, seen, width);
    o := Outcome(Message(updated, |q|, added), updated, |q|, added);
  }

  // ---------------------------------------------------------------------------
  // What the reconciliation guarantees
  // ---------------------------------------------------------------------------

  /** The header row is written back as it was. */
  lemma HeaderKept(t: Table, roster: seq<Entry>, removed: seq<Entry>)
    requires t != []
    ensures Reconciled(t, roster, removed) != [] && Reconciled(t, roster, removed)[0] == t[0]
  {
    var rs := RemoveKeys(removed);
    var p := Processed(t, rs, UpdatesOf(roster));
    QueueShape(t, rs, |t|);
    assert 0 !in Queue(t, rs, |t|);
  }

  /** A data row with no key, or whose key is in neither list, is written
      back unchanged. */
  lemma RowFate(t: Table, roster: seq<Entry>, removed: seq<Entry>, i: nat)
    requires t != [] && 1 <= i < |t|
    ensures var k := RowKey(t[i]);
      (k == "" || (k !in RemoveKeys(removed) && LastWith(roster, k).None?)) ==>
        t[i] in Reconciled(t, roster, removed)
  {
    var rs := RemoveKeys(removed);
    var m := UpdatesOf(roster);
    var k := RowKey(t[i]);
    var q := Queue(t, rs, |t|);
    var p := Processed(t, rs, m);
    QueueShape(t, rs, |t|);
    if k == "" || (k !in rs && LastWith(roster, k).None?) {
      UpdatesOfLookup(roster, k);
      assert p[i] == t[i];
      KeepHas(p, 0, q, i);
    }
  }

  /** No surviving data row of the old sheet carries a key listed for
      removal, even when the desired roster lists that key too. */
  lemma RemovedExactly(t: Table, roster: seq<Entry>, removed: seq<Entry>, row: Row)
    requires t != []
    requires row in Keep(Processed(t, RemoveKeys(removed), UpdatesOf(roster)), 0, Queue(t, RemoveKeys(removed), |t|))
    ensures RowKey(row) == "" || RowKey(row) !in RemoveKeys(removed) || row == t[0]
  {
    var rs := RemoveKeys(removed);
    var m := UpdatesOf(roster);
    var p := Processed(t, rs, m);
    var q := Queue(t, rs, |t|);
    QueueShape(t, rs, |t|);
    KeepFrom(p, 0, q, row);
    var i :| 0 <= i < |p| && i !in q && p[i] == row;
    if i > 0 {
      ProcessRowKey(t[i], rs, m, roster);
    }
  }

  /** The length of the written sheet: the old rows, less the removed,
      plus the added. */
  lemma ReconciledLength(t: Table, roster: seq<Entry>, removed: seq<Entry>)
    requires t != []
    ensures |Reconciled(t, roster, removed)| ==
      |t| - |Queue(t, RemoveKeys(removed), |t|)| + |Additions(UpdatesOf(roster), KeysUpTo(t, |t|), Width(t))|
  {
    var rs := RemoveKeys(removed);
    var p := Processed(t, rs, UpdatesOf(roster));
    var q := Queue(t, rs, |t|);
    QueueShape(t, rs, |t|);
    KeepLength(p, 0, q);
  }

  /** A brother is appended exactly when the desired roster lists them and no
      data row of the old sheet has their key; being listed for removal as
      well does not stop the append. */
  lemma AddedExactly(t: Table, roster: seq<Entry>, removed: seq<Entry>, k: string)
    requires t != []
    ensures (exists row :: row in Additions(UpdatesOf(roster), KeysUpTo(t, |t|), Width(t)) && RowKey(row) == k)
      <==> k != "" && LastWith(roster, k).Some? && forall i :: 1 <= i < |t| ==> RowKey(t[i]) != k
  {
    var m := UpdatesOf(roster);
    var present := KeysUpTo(t, |t|);
    var w := Width(t);
    UpdatesOfLookup(roster, k);
    KeysUpToMembers(t, |t|, k);
    if exists row :: row in Additions(m, present, w) && RowKey(row) == k {
      var row :| row in Additions(m, present, w) && RowKey(row) == k;
      AdditionsExactly(m, present, w, row);
      var i :| 0 <= i < |m| && m[i].0 !in present && row == NewRow(w, m[i].1);
      MapEntryKey(roster, i);
      assert m[i].0 == k;
      LookupAt(m, i);
    }
    if k != "" && LastWith(roster, k).Some? && forall i :: 1 <= i < |t| ==> RowKey(t[i]) != k {
      var f := Lookup(m, k).value;
      var i := LookupIndex(m, k);
      AdditionsExactly(m, present, w, NewRow(w, m[i].1));
      MapEntryKey(roster, i);
    }
  }

  /** An entry of the update map is keyed by the normalized email it
      holds. */
  lemma {:induction false} MapEntryKey(roster: seq<Entry>, i: nat)
    requires i < |UpdatesOf(roster)|
    ensures var e := UpdatesOf(roster)[i]; e.0 != "" && Normalize(e.1.email) == e.0
    decreases |roster|
  {
    var init := UpdatesOf(roster[..|roster| - 1]);
    var b := roster[|roster| - 1];
    var k := Normalize(b.email);
    if k == "" {
      MapEntryKey(roster[..|roster| - 1], i);
    } else {
      FieldsOfKey(b);
      if i == |init| {
        assert UpdatesOf(roster)[i] == (k, FieldsOf(b));
      } else {
        MapEntryKey(roster[..|roster| - 1], i);
        PutAt(init, k, FieldsOf(b), i);
      }
    }
  }

  /** Every cached `validEmail:` flag still names an email of the written
      sheet: flags of removed keys are dropped, and every other keyed row is
      written back with its key. */
  lemma FlagsStayListed(t: Table, roster: seq<Entry>, removed: seq<Entry>, flags: set<string>)
    requires t != [] && flags <= EmailKeys(t)
    ensures flags - RemoveKeys(removed) <= EmailKeys(Reconciled(t, roster, removed))
  {
    var rs := RemoveKeys(removed);
    var m := UpdatesOf(roster);
    var p := Processed(t, rs, m);
    var q := Queue(t, rs, |t|);
    var u := Reconciled(t, roster, removed);
    QueueShape(t, rs, |t|);
    forall k | k in flags - rs
      ensures k in EmailKeys(u)
    {
      var i :| 1 <= i < |t| && 4 < |t[i]| && t[i][4] != "" && Normalize(t[i][4]) == k;
      ProcessRowKey(t[i], rs, m, roster);
      assert RowKey(p[i]) == k;
      assert i !in q;
      assert 4 < |p[i]| && p[i][4] != "" && Normalize(p[i][4]) == k by {
        if Refreshed(t[i], rs, m) {
          UpdatesOfLookup(roster, k);
          assert Normalize("") == "";
        }
      }
      KeepInTail(p, q, i);
      KeptRowKey(u, Keep(p, 0, q), Additions(m, KeysUpTo(t, |t|), Width(t)), p[i]);
    }
  }

  /** A row kept at index `i` >= 1 lands after the header. */
  lemma KeepInTail(p: Table, q: seq<nat>, i: nat)
    requires 1 <= i < |p| && i !in q && 0 !in q
    ensures p[i] in Keep(p, 0, q)[1..]
  {
    KeepHas(p, 1, q, i);
    assert Keep(p, 0, q) == [p[0]] + Keep(p, 1, q);
  }

  /** A non-empty email cell of a row after the header is a key of the
      table. */
  lemma KeptRowKey(u: Table, kept: Table, extra: Table, row: Row)
    requires u == kept + extra && kept != [] && row in kept[1..]
    requires 4 < |row| && row[4] != ""
    ensures Normalize(row[4]) in EmailKeys(u)
  {
    var j :| 0 <= j < |kept[1..]| && kept[1..][j] == row;
    assert u[j + 1] == row;
  }
}
