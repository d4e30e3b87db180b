/**
 * Folding the options page's edits into the store: the grid rows
 * (`sanitizeRows`, `buildContactsFromRows`) and an imported file
 * (`parseImportedContacts`, `handleImport`), plus the export that an import
 * reads back.
 */
module LocalEdits {
  import opened Types
  import opened JsText
  import ContactStore

  /** One grid row as AppendGrid hands it over; `None` is an undefined cell. */
  datatype GridRow = GridRow(id: Option<string>, text: Option<string>)

  /** A row ready to fold: an id and the label it should carry (`None`
      only for an imported `{label: null}`). */
  datatype Row = Row(id: string, name: Option<string>)

  /** `(x || "")`: an undefined cell reads as the empty string. */
  function OrEmpty(s: Option<string>): string {
    if s.Some? then s.value else ""
  }

  /** One row of `sanitizeRows`: both cells trimmed, an undefined cell
      read as "". */
  function SanitizeRow(g: GridRow): (r: Row)
    ensures Trimmed(r.id) && r.name.Some? && Trimmed(r.name.value)
    ensures g.id.None? ==> r.id == ""
    ensures g.id.Some? ==> r.id == Trim(g.id.value)
    ensures g.text.None? ==> r.name == Some("")
    ensures g.text.Some? ==> r.name == Some(Trim(g.text.value))
  {
    Row(Trim(OrEmpty(g.id)), Some(Trim(OrEmpty(g.text))))
  }

  /** What a sanitized row looks like: a non-empty trimmed id and a trimmed label. */
  predicate IsSanitized(r: Row) {
    r.id != "" && Trimmed(r.id) && r.name.Some? && Trimmed(r.name.value)
  }

  /** `sanitizeRows`: trims both cells and drops every row whose id is
      empty, keeping the order of the rest. */
  function SanitizeRows(grid: seq<GridRow>): (rows: seq<Row>)
    ensures |rows| <= |grid|
    ensures forall i :: 0 <= i < |rows| ==> IsSanitized(rows[i])
  {
    if grid == [] then []
    else
      var row := SanitizeRow(grid[0]);
      var rest := SanitizeRows(grid[1..]);
      if row.id != "" then [row] + rest else rest
  }

  /** A grid row survives `sanitizeRows`, sanitized, exactly when its
      trimmed id is non-empty, and every surviving row comes from one. */
  lemma {:induction false} SanitizeRowsKeeps(grid: seq<GridRow>)
    ensures forall i :: 0 <= i < |grid| ==> (SanitizeRow(grid[i]).id != "" <==> SanitizeRow(grid[i]) in SanitizeRows(grid))
    ensures forall r :: r in SanitizeRows(grid) ==> exists i :: 0 <= i < |grid| && r == SanitizeRow(grid[i])
  {
    if grid != [] {
      SanitizeRowsKeeps(grid[1..]);
      assert forall i :: 1 <= i < |grid| ==> grid[i] == grid[1..][i - 1];
    }
  }

  /** Grid row `i` is the last row whose trimmed id is its own, non-empty one. */
  predicate IsLastGridRow(grid: seq<GridRow>, i: int)
    requires 0 <= i < |grid|
  {
    SanitizeRow(grid[i]).id != ""
    && forall j :: i < j < |grid| ==> SanitizeRow(grid[j]).id != SanitizeRow(grid[i]).id
  }

  /** Sanitizing keeps the order of the grid: the label an id ends with
      is that of the last grid row whose trimmed id it is. */
  lemma LastGridRowDecides(grid: seq<GridRow>)
    ensures forall i :: 0 <= i < |grid| && IsLastGridRow(grid, i) ==>
      SanitizeRow(grid[i]).id in LastLabels(SanitizeRows(grid))
      && LastLabels(SanitizeRows(grid))[SanitizeRow(grid[i]).id] == SanitizeRow(grid[i]).name
  {
    forall i | 0 <= i < |grid| && IsLastGridRow(grid, i)
      ensures SanitizeRow(grid[i]).id in LastLabels(SanitizeRows(grid))
        && LastLabels(SanitizeRows(grid))[SanitizeRow(grid[i]).id] == SanitizeRow(grid[i]).name
    {
      LastGridRowDecidesAt(grid, i);
    }
  }

  lemma {:induction false} LastGridRowDecidesAt(grid: seq<GridRow>, i: nat)
    requires i < |grid| && IsLastGridRow(grid, i)
    ensures SanitizeRow(grid[i]).id in LastLabels(SanitizeRows(grid))
    ensures LastLabels(SanitizeRows(grid))[SanitizeRow(grid[i]).id] == SanitizeRow(grid[i]).name
  {
    if i == 0 {
      FirstGridRowDecides(grid);
    } else {
      var tail := grid[1..];
      LastGridRowInTail(grid, i);
      LastGridRowDecidesAt(tail, i - 1);
      SanitizeRowsKeeps(tail);
      assert SanitizeRow(tail[i - 1]) in SanitizeRows(tail);
      TailRowWins(SanitizeRow(grid[0]), SanitizeRows(tail), SanitizeRow(grid[i]).id);
    }
  }

  /** The first grid row, when no later row shares its id, decides it. */
  lemma FirstGridRowDecides(grid: seq<GridRow>)
    requires |grid| > 0 && IsLastGridRow(grid, 0)
    ensures SanitizeRow(grid[0]).id in LastLabels(SanitizeRows(grid))
    ensures LastLabels(SanitizeRows(grid))[SanitizeRow(grid[0]).id] == SanitizeRow(grid[0]).name
  {
    var tail := grid[1..];
    var rest := SanitizeRows(tail);
    var id := SanitizeRow(grid[0]).id;
    SanitizeRowsKeeps(tail);
    forall r | r in rest
      ensures r.id != id
    {
      var k :| 0 <= k < |tail| && r == SanitizeRow(tail[k]);
      assert grid[k + 1] == tail[k];
    }
    HeadRowWins(SanitizeRow(grid[0]), rest);
  }

  /** A last grid row other than the first is a last row of the tail. */
  lemma LastGridRowInTail(grid: seq<GridRow>, i: nat)
    requires 0 < i < |grid| && IsLastGridRow(grid, i)
    ensures grid[1..][i - 1] == grid[i] && IsLastGridRow(grid[1..], i - 1)
  {
    var tail := grid[1..];
    forall j | i - 1 < j < |tail|
      ensures SanitizeRow(tail[j]).id != SanitizeRow(grid[i]).id
    {
      assert tail[j] == grid[j + 1];
    }
  }

  /** A row no later row overrides decides its id. */
  lemma HeadRowWins(row: Row, rest: seq<Row>)
    requires row.id != ""
    requires forall r :: r in rest ==> r.id != row.id
    ensures row.id in LastLabels([row] + rest) && LastLabels([row] + rest)[row.id] == row.name
  {
    LastLabelsAppend([row], rest);
    assert LastLabels([row]) == LastLabels([])[row.id := row.name];
  }

  /** An id that a later row carries is decided by the later rows, whether
      or not the row in front is kept. */
  lemma TailRowWins(row: Row, rest: seq<Row>, id: string)
    requires id in RowIds(rest)
    ensures var rows := if row.id != "" then [row] + rest else rest;
      id in LastLabels(rows) && LastLabels(rows)[id] == LastLabels(rest)[id]
  {
    if row.id != "" {
      LastLabelsAppend([row], rest);
    }
  }

  /** The grid rows that show a sanitized row list unchanged. */
  function ToGrid(rows: seq<Row>): (grid: seq<GridRow>)
    ensures |grid| == |rows|
  {
    if rows == [] then []
    else [GridRow(Some(rows[0].id), rows[0].name)] + ToGrid(rows[1..])
  }

  /** Sanitizing is idempotent: rows that were already sanitized come back
      unchanged when they are shown in the grid and saved again. */
  lemma {:induction false} SanitizeIdempotent(grid: seq<GridRow>)
    ensures SanitizeRows(ToGrid(SanitizeRows(grid))) == SanitizeRows(grid)
  {
    var rows := SanitizeRows(grid);
    SanitizedRowsAreFixed(rows);
  }

  lemma {:induction false} SanitizedRowsAreFixed(rows: seq<Row>)
    requires forall i :: 0 <= i < |rows| ==>
      && rows[i].id != "" && Trimmed(rows[i].id)
      && rows[i].name.Some? && Trimmed(rows[i].name.value)
    ensures SanitizeRows(ToGrid(rows)) == rows
  {
    if rows != [] {
      var grid := ToGrid(rows);
      assert grid[1..] == ToGrid(rows[1..]);
      TrimKeepsTrimmed(rows[0].id);
      TrimKeepsTrimmed(rows[0].name.value);
      assert SanitizeRow(grid[0]) == rows[0];
      SanitizedRowsAreFixed(rows[1..]);
    }
  }

  // ---------------------------------------------------------------------
  // Folding rows into the store
  // ---------------------------------------------------------------------

  function RowIds(rows: seq<Row>): set<string> {
    set r | r in rows :: r.id
  }

  /** Row `i` is the last row carrying its id. */
  predicate IsLastFor(rows: seq<Row>, i: int)
    requires 0 <= i < |rows|
  {
    forall j :: i < j < |rows| ==> rows[j].id != rows[i].id
  }

  /** The label each id is left with when the rows are written one after
      the other into a map, a later row overwriting an earlier one. */
  function LastLabels(rows: seq<Row>): (m: map<string, Option<string>>)
    ensures m.Keys == RowIds(rows)
  {
    if rows == [] then map[]
    else
      var init := rows[..|rows| - 1];
      var last := rows[|rows| - 1];
      assert RowIds(rows) == RowIds(init) + {last.id} by {
        assert rows == init + [last];
      }
      LastLabels(init)[last.id := last.name]
  }

  /** Writing `b` after `a`: an id of `b` ends with its label in `b`, any
      other id with its label in `a`. */
  lemma {:induction false} LastLabelsAppend(a: seq<Row>, b: seq<Row>)
    ensures forall id :: id in RowIds(b) ==> LastLabels(a + b)[id] == LastLabels(b)[id]
    ensures forall id :: id in RowIds(a) && id !in RowIds(b) ==> LastLabels(a + b)[id] == LastLabels(a)[id]
    decreases |b|
  {
    if b == [] {
      assert a + b == a;
    } else {
      var init := b[..|b| - 1];
      var last := b[|b| - 1];
      assert (a + b)[..|a + b| - 1] == a + init;
      assert (a + b)[|a + b| - 1] == last;
      LastLabelsAppend(a, init);
    }
  }

  /** The last row carrying an id decides the label that id is left with. */
  lemma {:induction false} LastRowDecides(rows: seq<Row>)
    ensures forall i :: 0 <= i < |rows| && IsLastFor(rows, i) ==>
      rows[i].id in LastLabels(rows) && LastLabels(rows)[rows[i].id] == rows[i].name
  {
    if rows != [] {
      var init := rows[..|rows| - 1];
      var last := rows[|rows| - 1];
      LastRowDecides(init);
      forall i | 0 <= i < |rows| && IsLastFor(rows, i)
        ensures rows[i].id in LastLabels(rows) && LastLabels(rows)[rows[i].id] == rows[i].name
      {
        if i < |rows| - 1 {
          assert rows[i] == init[i] && rows[i].id != last.id;
          assert IsLastFor(init, i);
        }
      }
    }
  }

  /** The row keeps the label the id already shows: the id is live and its
      label is the same. */
  predicate Unchanged(prev: Store, id: string, name: Option<string>) {
    id in prev && prev[id].name.Some? && prev[id].name == name
  }

  /** The entry a row produces: an unchanged label keeps its timestamp
      (`Number(prevEntry.updated_at) || timestamp`), anything else is
      stamped with `timestamp`. */
  function FoldRow(prev: Store, id: string, name: Option<string>, timestamp: nat): Entry {
    if Unchanged(prev, id, name) then Entry(name, OrElse(prev[id].updatedAt, timestamp))
    else Entry(name, timestamp)
  }

  /** The entry an id that no row mentions is left with: a tombstone is
      carried over as it is, a live contact becomes a fresh tombstone. */
  function FoldMissing(e: Entry, timestamp: nat): Entry {
    if e.name.None? then e else Entry(None, timestamp)
  }

  /** The store after an edit that leaves each id in `labels` with that
      label and removes every other id. */
  function FoldLabels(prev: Store, labels: map<string, Option<string>>, timestamp: nat): (next: Store)
    ensures next.Keys == labels.Keys + prev.Keys
    ensures forall id :: id in labels ==> next[id].name == labels[id]
    ensures forall id :: id in labels && Unchanged(prev, id, labels[id]) ==>
      next[id].updatedAt == OrElse(prev[id].updatedAt, timestamp)
    ensures forall id :: id in labels && !Unchanged(prev, id, labels[id]) ==>
      next[id].updatedAt == timestamp
    ensures forall id :: id in prev && id !in labels && prev[id].name.None? ==> next[id] == prev[id]
    ensures forall id :: id in prev && id !in labels && prev[id].name.Some? ==>
      next[id] == Entry(None, timestamp)
    ensures WellFormed(prev) && timestamp > 0 ==> WellFormed(next)
  {
    map id | id in labels.Keys + prev.Keys ::
      if id in labels then FoldRow(prev, id, labels[id], timestamp)
      else FoldMissing(prev[id], timestamp)
  }

  /** `buildContactsFromRows`, stated row by row: the last row of each id
      decides its label; an unchanged live label keeps its timestamp and
      any other row is stamped; ids no row mentions become tombstones
      unless they already are one. */
  function BuildFromRows(prev: Store, rows: seq<Row>, timestamp: nat): (next: Store)
    ensures next.Keys == RowIds(rows) + prev.Keys
    ensures forall i :: 0 <= i < |rows| && IsLastFor(rows, i) ==>
      && next[rows[i].id].name == rows[i].name
      && (Unchanged(prev, rows[i].id, rows[i].name) ==>
            next[rows[i].id].updatedAt == OrElse(prev[rows[i].id].updatedAt, timestamp))
      && (!Unchanged(prev, rows[i].id, rows[i].name) ==> next[rows[i].id].updatedAt == timestamp)
    ensures forall id :: id in prev && id !in RowIds(rows) ==>
      next[id] == (if prev[id].name.None? then prev[id] else Entry(None, timestamp))
    ensures WellFormed(prev) && timestamp > 0 ==> WellFormed(next)
  {
    LastRowDecides(rows);
    FoldLabels(prev, LastLabels(rows), timestamp)
  }

  /** The save stated on the grid itself: the last grid row of each
      trimmed id decides its label and stamp. */
  lemma GridSaveDecides(prev: Store, grid: seq<GridRow>, timestamp: nat)
    ensures var next := BuildFromRows(prev, SanitizeRows(grid), timestamp);
      forall i :: 0 <= i < |grid| && IsLastGridRow(grid, i) ==>
        var row := SanitizeRow(grid[i]);
        && row.id in next && next[row.id].name == row.name
        && (Unchanged(prev, row.id, row.name) ==> next[row.id].updatedAt == OrElse(prev[row.id].updatedAt, timestamp))
        && (!Unchanged(prev, row.id, row.name) ==> next[row.id].updatedAt == timestamp)
  {
    LastGridRowDecides(grid);
  }

  /** Rows that all carry a label leave every id they mention with one. */
  lemma {:induction false} LabelledRowsLeaveLabels(rows: seq<Row>)
    requires forall i :: 0 <= i < |rows| ==> rows[i].name.Some?
    ensures forall id :: id in LastLabels(rows) ==> LastLabels(rows)[id].Some?
  {
    if rows != [] {
      LabelledRowsLeaveLabels(rows[..|rows| - 1]);
    }
  }

  /** After a save, every id the sanitized grid shows is a live contact. */
  lemma {:induction false} SavedRowsAreLive(prev: Store, rows: seq<Row>, timestamp: nat)
    requires forall i :: 0 <= i < |rows| ==> IsSanitized(rows[i])
    ensures forall id :: id in RowIds(rows) ==> IsLive(BuildFromRows(prev, rows, timestamp)[id])
  {
    LabelledRowsLeaveLabels(rows);
  }

  /** The first pass of `buildContactsFromRows`: each row in turn is
      written into `next` and its id recorded in `seen`. */
  method WriteRows(prev: Store, rows: seq<Row>, timestamp: nat) returns (next: Store, seen: set<string>)
    ensures seen == next.Keys == LastLabels(rows).Keys
    ensures forall id :: id in next ==> next[id] == FoldRow(prev, id, LastLabels(rows)[id], timestamp)
  {
    next := map[];
    seen := {};
    var i := 0;
    while i < |rows|
      invariant 0 <= i <= |rows|
      invariant seen == next.Keys == LastLabels(rows[..i]).Keys
      invariant forall id :: id in next ==> next[id] == FoldRow(prev, id, LastLabels(rows[..i])[id], timestamp)
    {
      var row := rows[i];
      assert rows[..i + 1][..i] == rows[..i];
      next := next[row.id := FoldRow(prev, row.id, row.name, timestamp)];
      seen := seen + {row.id};
      i := i + 1;
    }
    assert rows[..i] == rows;
  }

  /** `buildContactsFromRows` as the source runs it: a pass over the rows,
      then a pass over the previous store for the ids no row mentioned. */
  method BuildContactsFromRows(prev: Store, rows: seq<Row>, timestamp: nat) returns (next: Store)
    ensures next == BuildFromRows(prev, rows, timestamp)
  {
    var seen;
    next, seen := WriteRows(prev, rows, timestamp);
    ghost var labels := LastLabels(rows);
    var todo := prev.Keys;
    while todo != {}
      invariant todo <= prev.Keys
      invariant forall id :: id in next <==> id in labels || (id in prev && id !in todo)
      invariant forall id :: id in next && id in labels ==> next[id] == FoldRow(prev, id, labels[id], timestamp)
      invariant forall id :: id in next && id !in labels ==> next[id] == FoldMissing(prev[id], timestamp)
      decreases todo
    {
      var id :| id in todo;
      if id !in seen {
        next := next[id := FoldMissing(prev[id], timestamp)];
      }
      todo := todo - {id};
    }
    LookupExtensional(next, FoldLabels(prev, labels, timestamp));
  }

  // ---------------------------------------------------------------------
  // Import and export
  // ---------------------------------------------------------------------

  /** One value of an imported file after JSON decoding. */
  datatype ImportValue =
    | ImportString(text: string)              // `{id: "label"}`
    | ImportLabelled(name: Option<string>)    // an object with a `label` key (null allowed)
    | ImportOther                             // anything else: dropped

  /** An imported file after `JSON.parse`. */
  datatype ImportFile =
    | ImportUnparseable
    | ImportArray
    | ImportScalar                 // a number, string, boolean or null
    | ImportObject(entries: map<string, ImportValue>)

  /** The id filter of `parseImportedContacts`: non-empty, no comma, and
      not a numeral (`isNaN(id)`). */
  predicate AcceptedId(id: string) {
    id != "" && ',' !in id && !IsNumeric(id)
  }

  function ImportedLabel(v: ImportValue): Option<string>
    requires !v.ImportOther?
  {
    if v.ImportString? then Some(v.text) else v.name
  }

  /** `parseImportedContacts`: keeps the accepted ids whose value is a
      string or a labelled object, mapped to that label. */
  function ParseImportedContacts(data: map<string, ImportValue>): (r: map<string, Option<string>>)
    ensures forall id :: id in r <==> id in data && AcceptedId(id) && !data[id].ImportOther?
    ensures forall id :: id in r && data[id].ImportString? ==> r[id] == Some(data[id].text)
    ensures forall id :: id in r && data[id].ImportLabelled? ==> r[id] == data[id].name
  {
    map id | id in data && AcceptedId(id) && !data[id].ImportOther? :: ImportedLabel(data[id])
  }

  /** The contacts `handleImport` leaves: `None` when the file is rejected
      (unparseable, an array, not an object) or holds no usable contact;
      otherwise the file replaces the grid, so the fold is over the
      imported labels alone. */
  function ImportContacts(prev: Store, file: ImportFile, timestamp: nat): (r: Option<Store>)
    ensures r.Some? <==> file.ImportObject? && ParseImportedContacts(file.entries) != map[]
    ensures r.Some? ==> r.value.Keys == prev.Keys + ParseImportedContacts(file.entries).Keys
    ensures r.Some? ==> forall id :: id in prev && IsLive(prev[id]) && id !in ParseImportedContacts(file.entries) ==>
      r.value[id] == Entry(None, timestamp)
    ensures r.Some? ==> forall id :: id in prev && !IsLive(prev[id]) && id !in ParseImportedContacts(file.entries) ==>
      r.value[id] == prev[id]
    ensures r.Some? ==> var labels := ParseImportedContacts(file.entries);
      forall id :: id in labels ==>
        && r.value[id].name == labels[id]
        && (Unchanged(prev, id, labels[id]) ==> r.value[id].updatedAt == OrElse(prev[id].updatedAt, timestamp))
        && (!Unchanged(prev, id, labels[id]) ==> r.value[id].updatedAt == timestamp)
  {
    if !file.ImportObject? then None
    else
      var labels := ParseImportedContacts(file.entries);
      if labels == map[] then None else Some(FoldLabels(prev, labels, timestamp))
  }

  /** `exportOptions`: the live contacts as `{id: {label}}`. */
  function ExportContacts(s: Store): (r: map<string, ImportValue>)
    ensures r.Keys == LiveIds(s)
    ensures forall id :: id in r ==> r[id] == ImportLabelled(s[id].name)
  {
    map id | id in s && IsLive(s[id]) :: ImportLabelled(s[id].name)
  }

  /** The labels the grid shows for a store (`rowsFromContacts`). */
  function LiveLabels(s: Store): map<string, Option<string>> {
    map id | id in s && IsLive(s[id]) :: s[id].name
  }

  /** Folding a store's own live labels back into it changes nothing,
      timestamps included. */
  lemma SaveWithoutEditsKeepsStore(s: Store, timestamp: nat)
    requires WellFormed(s)
    ensures FoldLabels(s, LiveLabels(s), timestamp) == s
  {
    var next := FoldLabels(s, LiveLabels(s), timestamp);
    forall id | id in s
      ensures next[id] == s[id]
    {
      if IsLive(s[id]) {
        assert Unchanged(s, id, LiveLabels(s)[id]);
      }
    }
  }

  /** Rows that each carry the label `labels` gives their id leave every
      id with that label, whatever their order. */
  lemma {:induction false} ConsistentRowsLabels(rows: seq<Row>, labels: map<string, Option<string>>)
    requires forall i :: 0 <= i < |rows| ==> rows[i].id in labels && rows[i].name == labels[rows[i].id]
    ensures forall id :: id in LastLabels(rows) ==> LastLabels(rows)[id] == labels[id]
  {
    if rows != [] {
      ConsistentRowsLabels(rows[..|rows| - 1], labels);
    }
  }

  /** `rowsFromContacts`, as `ensureGrid` shows it: one row per live
      contact (in any order, repeats allowed) with its label, plus rows
      without an id, such as the one blank row of an empty store. */
  predicate ShowsLiveContacts(s: Store, grid: seq<GridRow>) {
    && (forall i :: 0 <= i < |grid| ==>
          || SanitizeRow(grid[i]).id == ""
          || (grid[i].id.Some? && grid[i].id.value in s && IsLive(s[grid[i].id.value])
              && grid[i].text == s[grid[i].id.value].name))
    && (forall id :: id in s && IsLive(s[id]) ==> exists i :: 0 <= i < |grid| && grid[i].id == Some(id))
  }

  /** Every live id is non-empty and free of surrounding whitespace, and so
      is every live label: what the grid shows survives `sanitizeRows`. */
  predicate TrimmedLiveContacts(s: Store) {
    forall id :: id in s && IsLive(s[id]) ==> id != "" && Trimmed(id) && Trimmed(s[id].name.value)
  }

  /** A shown row of a trimmed live contact sanitizes to that contact's
      id and label. */
  lemma ShownRowIsSanitized(s: Store, g: GridRow)
    requires TrimmedLiveContacts(s)
    requires g.id.Some? && g.id.value in s && IsLive(s[g.id.value]) && g.text == s[g.id.value].name
    ensures SanitizeRow(g) == Row(g.id.value, s[g.id.value].name)
  {
    TrimKeepsTrimmed(g.id.value);
    TrimKeepsTrimmed(s[g.id.value].name.value);
  }

  /** Sanitizing the shown grid keeps every live contact, each with its
      label, and nothing else. */
  lemma ShownGridRows(s: Store, grid: seq<GridRow>)
    requires TrimmedLiveContacts(s)
    requires ShowsLiveContacts(s, grid)
    ensures LastLabels(SanitizeRows(grid)) == LiveLabels(s)
  {
    ShownRowsAreLive(s, grid);
    ShownGridKeepsLiveIds(s, grid);
    RowsCoveringLabels(SanitizeRows(grid), LiveLabels(s));
  }

  /** Rows that carry exactly the ids of `labels`, each with its label
      there, leave exactly `labels`. */
  lemma RowsCoveringLabels(rows: seq<Row>, labels: map<string, Option<string>>)
    requires forall i :: 0 <= i < |rows| ==> rows[i].id in labels && rows[i].name == labels[rows[i].id]
    requires forall id :: id in labels ==> id in RowIds(rows)
    ensures LastLabels(rows) == labels
  {
    var m := LastLabels(rows);
    ConsistentRowsLabels(rows, labels);
    RowIdsWithin(rows, labels.Keys);
    assert m.Keys == labels.Keys;
  }

  /** Rows whose ids all lie in `ids` mention no other id. */
  lemma RowIdsWithin(rows: seq<Row>, ids: set<string>)
    requires forall i :: 0 <= i < |rows| ==> rows[i].id in ids
    ensures RowIds(rows) <= ids
  {
    forall id | id in RowIds(rows)
      ensures id in ids
    {
      var r :| r in rows && r.id == id;
      var i :| 0 <= i < |rows| && rows[i] == r;
    }
  }

  /** Every row of the sanitized shown grid is a live contact with its label. */
  lemma ShownRowsAreLive(s: Store, grid: seq<GridRow>)
    requires TrimmedLiveContacts(s)
    requires ShowsLiveContacts(s, grid)
    ensures forall i :: 0 <= i < |SanitizeRows(grid)| ==>
      SanitizeRows(grid)[i].id in LiveLabels(s) && SanitizeRows(grid)[i].name == LiveLabels(s)[SanitizeRows(grid)[i].id]
  {
    var rows := SanitizeRows(grid);
    SanitizeRowsKeeps(grid);
    forall i | 0 <= i < |rows|
      ensures rows[i].id in LiveLabels(s) && rows[i].name == LiveLabels(s)[rows[i].id]
    {
      assert rows[i] in rows;
      var k :| 0 <= k < |grid| && rows[i] == SanitizeRow(grid[k]);
      assert IsSanitized(rows[i]);
      ShownRowIsSanitized(s, grid[k]);
    }
  }

  /** Every live contact has a row in the sanitized shown grid. */
  lemma ShownGridKeepsLiveIds(s: Store, grid: seq<GridRow>)
    requires TrimmedLiveContacts(s)
    requires ShowsLiveContacts(s, grid)
    ensures forall id :: id in LiveLabels(s) ==> id in RowIds(SanitizeRows(grid))
  {
    SanitizeRowsKeeps(grid);
    forall id | id in LiveLabels(s)
      ensures id in RowIds(SanitizeRows(grid))
    {
      var k :| 0 <= k < |grid| && grid[k].id == Some(id);
      TrimKeepsTrimmed(id);
      ShownRowIsSanitized(s, grid[k]);
      assert SanitizeRow(grid[k]) in SanitizeRows(grid);
    }
  }

  /** Saving the grid the page shows, unedited, leaves the store as it
      was, as long as its live ids and labels are already trimmed (a padded
      label would be trimmed and re-stamped, a padded id re-keyed). */
  lemma SaveShownGridKeepsStore(s: Store, grid: seq<GridRow>, timestamp: nat)
    requires WellFormed(s) && TrimmedLiveContacts(s)
    requires ShowsLiveContacts(s, grid)
    ensures BuildFromRows(s, SanitizeRows(grid), timestamp) == s
  {
    ShownGridRows(s, grid);
    SaveWithoutEditsKeepsStore(s, timestamp);
  }

  /** Importing an exported file into the store it came from changes
      nothing, as long as every live id passes the import filter. */
  lemma {:induction false} ExportImportRoundTrip(s: Store, timestamp: nat)
    requires WellFormed(s)
    requires forall id :: id in s && IsLive(s[id]) ==> AcceptedId(id)
    requires LiveIds(s) != {}
    ensures ImportContacts(s, ImportObject(ExportContacts(s)), timestamp) == Some(s)
  {
    var labels := ParseImportedContacts(ExportContacts(s));
    assert labels == LiveLabels(s);
    var id :| id in LiveIds(s);
    assert id in labels;
    SaveWithoutEditsKeepsStore(s, timestamp);
  }

  /** Every Stellar-style id survives the import filter, and a numeral is
      always dropped. */
  lemma ImportIdFilter(id: string)
    ensures |id| > 0 && 'A' <= id[0] <= 'Z' && id[0] != 'I' && ',' !in id ==> AcceptedId(id)
    ensures DecimalDigits(id) ==> !AcceptedId(id)
  {
    if |id| > 0 && 'A' <= id[0] <= 'Z' && id[0] != 'I' {
      LetterLedIdIsNotNumeric(id);
    }
    if DecimalDigits(id) {
      DigitsAreNumeric(id);
    }
  }
}
