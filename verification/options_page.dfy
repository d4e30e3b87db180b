/**
 * The options page (options.js): saving the grid, importing a file,
 * entering an API key, checking it, and the sync round it runs after each.
 * The page keeps `state = {contacts, meta}`; every handler here maps one
 * state to the next.
 */
module OptionsPage {
  import opened Types
  import opened JsText
  import opened SyncMeta
  import Merge
  import ChangeSet
  import LocalEdits

  datatype PageState = PageState(contacts: Store, meta: Meta)

  /** The state after an API key edit, and whether a key check is scheduled. */
  datatype KeyInput = KeyInput(state: PageState, validate: bool)

  /** `handleApiKeyInput`: a key that differs from the stored one (after
      trimming) resets the sync metadata and schedules a check of the new
      key, unless it is empty; the same key changes nothing. */
  function HandleApiKeyInput(s: PageState, input: string): (r: KeyInput)
    ensures r.state.contacts == s.contacts
    ensures Trim(input) != s.meta.apiKey ==> r.state.meta == ForNewKey(Trim(input))
    ensures Trim(input) == s.meta.apiKey ==> r.state == s
    ensures r.validate <==> Trim(input) != "" && Trim(input) != s.meta.apiKey
  {
    var key := Trim(input);
    var changed := key != s.meta.apiKey;
    KeyInput(if changed then s.(meta := ForNewKey(key)) else s, key != "" && changed)
  }

  /** The state after a save, and whether a sync round follows. */
  datatype Saved = Saved(state: PageState, syncFollows: bool)

  /** `handleSave`: the sanitized grid replaces the contacts (the last row
      of each id decides its label and stamp, ids dropped from the grid
      become tombstones, tombstones stay as they are); a new key resets the
      sync metadata; a sync round follows whenever a key is set. */
  function HandleSave(s: PageState, grid: seq<LocalEdits.GridRow>, keyInput: string, timestamp: nat): (r: Saved)
    ensures var rows := LocalEdits.SanitizeRows(grid);
      && r.state.contacts.Keys == LocalEdits.RowIds(rows) + s.contacts.Keys
      && (forall i :: 0 <= i < |grid| && LocalEdits.IsLastGridRow(grid, i) ==>
            var row := LocalEdits.SanitizeRow(grid[i]);
            && row.id in r.state.contacts && r.state.contacts[row.id].name == row.name
            && (LocalEdits.Unchanged(s.contacts, row.id, row.name) ==>
                  r.state.contacts[row.id].updatedAt == OrElse(s.contacts[row.id].updatedAt, timestamp))
            && (!LocalEdits.Unchanged(s.contacts, row.id, row.name) ==> r.state.contacts[row.id].updatedAt == timestamp))
      && (forall id :: id in s.contacts && IsLive(s.contacts[id]) && id !in LocalEdits.RowIds(rows) ==>
            r.state.contacts[id] == Entry(None, timestamp))
      && (forall id :: id in s.contacts && !IsLive(s.contacts[id]) && id !in LocalEdits.RowIds(rows) ==>
            r.state.contacts[id] == s.contacts[id])
      && (forall id :: id in LocalEdits.RowIds(rows) ==> IsLive(r.state.contacts[id]))
    ensures Trim(keyInput) != s.meta.apiKey ==> r.state.meta == ForNewKey(Trim(keyInput))
    ensures Trim(keyInput) == s.meta.apiKey ==> r.state.meta == s.meta
    ensures r.syncFollows <==> Trim(keyInput) != ""
    ensures WellFormed(s.contacts) && timestamp > 0 ==> WellFormed(r.state.contacts)
  {
    var rows := LocalEdits.SanitizeRows(grid);
    var key := Trim(keyInput);
    var contacts := LocalEdits.BuildFromRows(s.contacts, rows, timestamp);
    var meta := if key != s.meta.apiKey then ForNewKey(key) else s.meta;
    LocalEdits.SavedRowsAreLive(s.contacts, rows, timestamp);
    LocalEdits.GridSaveDecides(s.contacts, grid, timestamp);
    Saved(PageState(contacts, meta), key != "")
  }

  /** `handleImport`: the contacts after an import (`None`: the file was
      rejected and nothing changes). The key check and sync round that
      follow are `ValidateApiKey` and `SyncContacts`. */
  function HandleImport(s: PageState, file: LocalEdits.ImportFile, timestamp: nat): (r: Option<PageState>)
    ensures r.None? <==> !file.ImportObject? || LocalEdits.ParseImportedContacts(file.entries) == map[]
    ensures r.Some? ==> var labels := LocalEdits.ParseImportedContacts(file.entries);
      && r.value.meta == s.meta
      && r.value.contacts.Keys == s.contacts.Keys + labels.Keys
      && (forall id :: id in labels ==> r.value.contacts[id].name == labels[id])
      && (forall id :: id in labels && LocalEdits.Unchanged(s.contacts, id, labels[id]) ==>
            r.value.contacts[id].updatedAt == OrElse(s.contacts[id].updatedAt, timestamp))
      && (forall id :: id in labels && !LocalEdits.Unchanged(s.contacts, id, labels[id]) ==>
            r.value.contacts[id].updatedAt == timestamp)
      && (forall id :: id in s.contacts && IsLive(s.contacts[id]) && id !in labels ==>
            r.value.contacts[id] == Entry(None, timestamp))
      && (forall id :: id in s.contacts && !IsLive(s.contacts[id]) && id !in labels ==>
            r.value.contacts[id] == s.contacts[id])
  {
    var imported := LocalEdits.ImportContacts(s.contacts, file, timestamp);
    if imported.None? then None else Some(s.(contacts := imported.value))
  }

  /** A sync round of the options page: the state it leaves and the
      request it sends (`None`: no request). */
  datatype Round = Round(state: PageState, payload: Option<Payload>)

  /** `syncContacts` of the options page. Without a key nothing happens.
      Otherwise the attempt is stamped, the change set since the watermark
      is sent, and the outcome is recorded: a delivered response is merged
      with the sweep and advances the watermark to `syncMoment`; a failure
      leaves the contacts and the watermark alone and records the error.
      `mergeNow` is the clock reading the merge stamps an unstamped upsert
      with, taken after `syncMoment`. The page does not rate-limit its own
      rounds. */
  function SyncContacts(s: PageState, now: nat, outcome: SyncOutcome, syncMoment: nat, mergeNow: nat): (r: Round)
    ensures s.meta.apiKey == "" ==> r == Round(s, None)
    ensures s.meta.apiKey != "" ==>
      && r.payload == Some(Payload(now, ChangeSet.ChangedItems(s.contacts, s.meta.lastSyncAt, now)))
      && r.state.meta.lastSyncAttempt == now
      && r.state.meta.apiKey == s.meta.apiKey
      && r.state.meta.lastApiCheck == s.meta.lastApiCheck
    ensures s.meta.apiKey != "" && !outcome.Delivered? ==>
      && r.state.contacts == s.contacts
      && r.state.meta.lastSyncAt == s.meta.lastSyncAt
      && r.state.meta.lastSyncError.Some?
    ensures s.meta.apiKey != "" && outcome.Rejected? ==>
      r.state.meta.lastSyncError == Some(ReadErrorMessage(outcome.status, outcome.statusText, outcome.body))
    ensures s.meta.apiKey != "" && outcome.Failed? ==>
      r.state.meta.lastSyncError == Some(FailureMessage(outcome.message))
    ensures s.meta.apiKey != "" && outcome.Delivered? ==>
      && r.state.contacts == Merge.ApplyRemoteOptions(s.contacts, outcome.items, syncMoment, s.meta.lastSyncAt, mergeNow)
      && r.state.meta.lastSyncAt == syncMoment
      && r.state.meta.lastSyncError == None
    ensures s.meta.apiKey != "" && outcome.Delivered? && outcome.items.Items? && syncMoment > 0 ==>
      forall id :: id in r.state.contacts ==> !Merge.Expired(r.state.contacts[id], syncMoment)
  {
    if s.meta.apiKey == "" then Round(s, None)
    else
      var meta := s.meta.(lastSyncAttempt := now);
      var payload := Payload(now, ChangeSet.ChangedItems(s.contacts, meta.lastSyncAt, now));
      var contacts :=
        if outcome.Delivered? then Merge.ApplyRemoteOptions(s.contacts, outcome.items, syncMoment, meta.lastSyncAt, mergeNow)
        else s.contacts;
      Round(PageState(contacts, SettleMeta(meta, outcome, syncMoment)), Some(payload))
  }

  /** How the key check request ended. */
  datatype CheckOutcome =
    | Accepted
    | CheckRejected(status: nat, statusText: string, body: ErrorBody)
    | CheckFailed(message: string)

  datatype Checked = Checked(meta: Meta, ok: bool)

  /** `validateApiKey`: without a key nothing is checked; otherwise the
      result is recorded in `lastApiCheck` with its moment, an error with a
      non-empty detail. Only `lastApiCheck` changes. */
  function ValidateApiKey(meta: Meta, outcome: CheckOutcome, now: nat): (r: Checked)
    ensures r.ok <==> meta.apiKey != "" && outcome.Accepted?
    ensures meta.apiKey == "" ==> r.meta == meta
    ensures meta.apiKey != "" ==>
      && r.meta.lastApiCheck.Some?
      && r.meta.lastApiCheck.value.ok == r.ok
      && r.meta.lastApiCheck.value.checkedAt == now
      && (!r.ok ==> |r.meta.lastApiCheck.value.detail| > 0)
      && (outcome.Accepted? ==> r.meta.lastApiCheck.value.detail == "")
      && (outcome.CheckRejected? ==>
            r.meta.lastApiCheck.value.detail == ReadErrorMessage(outcome.status, outcome.statusText, outcome.body))
      && (outcome.CheckFailed? ==> r.meta.lastApiCheck.value.detail == FailureMessage(outcome.message))
      && r.meta == meta.(lastApiCheck := r.meta.lastApiCheck)
  {
    if meta.apiKey == "" then Checked(meta, false)
    else
      match outcome
      case Accepted => Checked(meta.(lastApiCheck := Some(ApiCheck(true, "", now))), true)
      case CheckRejected(status, statusText, body) =>
        Checked(meta.(lastApiCheck := Some(ApiCheck(false, ReadErrorMessage(status, statusText, body), now))), false)
      case CheckFailed(message) =>
        Checked(meta.(lastApiCheck := Some(ApiCheck(false, FailureMessage(message), now))), false)
  }

  /** The key check touches nothing a sync round reads or writes: the
      round that follows it sends the same request and leaves the same
      contacts and watermark as without the check. */
  lemma CheckLeavesSyncAlone(s: PageState, check: CheckOutcome, checkedAt: nat, now: nat, outcome: SyncOutcome, syncMoment: nat, mergeNow: nat)
    ensures var checked := s.(meta := ValidateApiKey(s.meta, check, checkedAt).meta);
      var withCheck := SyncContacts(checked, now, outcome, syncMoment, mergeNow);
      var without := SyncContacts(s, now, outcome, syncMoment, mergeNow);
      && withCheck.payload == without.payload
      && withCheck.state.contacts == without.state.contacts
      && withCheck.state.meta.lastSyncAt == without.state.meta.lastSyncAt
      && withCheck.state.meta.lastSyncError == without.state.meta.lastSyncError
  {
  }

  /** Entering a new key makes the next round send every entry. */
  lemma NewKeyResendsEverything(s: PageState, input: string, now: nat)
    requires Trim(input) != s.meta.apiKey
    ensures var t := HandleApiKeyInput(s, input).state;
      ChangeSet.ChangedItems(t.contacts, t.meta.lastSyncAt, now).Keys == s.contacts.Keys
  {
    ChangeSet.EverythingPendingFromZero(s.contacts, now);
  }

  /** Saving with a new key also makes the next round send every entry. */
  lemma SaveWithNewKeyResendsEverything(s: PageState, grid: seq<LocalEdits.GridRow>, keyInput: string, timestamp: nat, now: nat)
    requires Trim(keyInput) != s.meta.apiKey
    ensures var t := HandleSave(s, grid, keyInput, timestamp).state;
      ChangeSet.ChangedItems(t.contacts, t.meta.lastSyncAt, now).Keys == t.contacts.Keys
  {
    var t := HandleSave(s, grid, keyInput, timestamp).state;
    ChangeSet.EverythingPendingFromZero(t.contacts, now);
  }

  /** A failed round changes neither the contacts nor the watermark, so
      the next round, whenever it runs, sends the same change set again
      (the store being well-formed, no entry's stamp depends on the moment
      of sending). */
  lemma FailedRoundResendsSameChangeSet(s: PageState, now: nat, outcome: SyncOutcome, syncMoment: nat, mergeNow: nat, later: nat, next: SyncOutcome, nextMoment: nat, nextMergeNow: nat)
    requires WellFormed(s.contacts)
    requires s.meta.apiKey != "" && !outcome.Delivered?
    ensures var first := SyncContacts(s, now, outcome, syncMoment, mergeNow);
      var second := SyncContacts(first.state, later, next, nextMoment, nextMergeNow);
      && first.payload.Some? && second.payload.Some?
      && second.payload.value.items == first.payload.value.items
  {
    var a := ChangeSet.ChangedItems(s.contacts, s.meta.lastSyncAt, now);
    var b := ChangeSet.ChangedItems(s.contacts, s.meta.lastSyncAt, later);
    assert a.Keys == b.Keys;
    forall id | id in a
      ensures a[id] == b[id]
    {
      assert s.contacts[id].updatedAt > 0;
    }
    assert a == b;
  }

  /** Saving the grid the page shows, unedited and with the stored key,
      leaves the page state exactly as it was, provided the live ids and
      labels carry no surrounding whitespace. */
  lemma SaveShownGridKeepsState(s: PageState, grid: seq<LocalEdits.GridRow>, timestamp: nat)
    requires WellFormed(s.contacts) && LocalEdits.TrimmedLiveContacts(s.contacts)
    requires LocalEdits.ShowsLiveContacts(s.contacts, grid)
    requires Trimmed(s.meta.apiKey)
    ensures HandleSave(s, grid, s.meta.apiKey, timestamp).state == s
  {
    LocalEdits.SaveShownGridKeepsStore(s.contacts, grid, timestamp);
    TrimKeepsTrimmed(s.meta.apiKey);
  }
}
