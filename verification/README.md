# Stellar Contacts sync engine in Dafny

A model of the contact-sync engine of the Stellar Contacts browser
extension. The extension keeps a map from Stellar account id to a
human-readable label, shows it in an editable grid on its options page, and
rewrites account ids on web pages into their labels. When the user sets an
API key, the store is synchronised with a server by a last-write-wins
protocol with tombstones. The engine exists twice: once in the options
page (`options.js`) and once in the content script (`app.js`).

The model covers five parts.

- **Store normalisation** (`contact_store.dfy`, module `ContactStore`).
  The persisted map is decoded. A legacy bare label, or an object with an
  unusable `updated_at`, is stamped with the load time and flagged for
  re-saving. The live views `activeContacts` and `toPlainContacts` are
  modelled here too.
- **Local edit folding** (`local_edits.dfy`, module `LocalEdits`). This
  covers the grid filter `sanitizeRows`, the fold `buildContactsFromRows`
  (as a pure function and as the two-pass loop of the source), and the
  import filter `parseImportedContacts`. Import and export are included.
- **Change-set extraction** (`change_set.dfy`, module `ChangeSet`). This is
  `changedItems`, which is identical in both files.
- **Last-write-wins merge** (`merge.dfy`, module `Merge`). There are two
  variants of `applyRemoteItems`. The options page's variant overwrites and
  then sweeps expired tombstones. The content script's variant skips no-op
  writes and reports a change. It is modelled as a pure function and as the
  in-place loop.
- **Sync orchestration**. `sync_meta.dfy` holds the metadata record, the
  error message lookup and the bookkeeping of a request's outcome.
  `options_page.dfy` holds the options page handlers: key input, save,
  import, key check and sync round. `content_script.dfy` holds the content
  script's gate: the API key guard, the in-flight flag and the 60000 ms
  rate limit.

`convergence.dfy` relates whole rounds. When the server echoes a change
set, only the live contacts are left. On the options page, when every
incoming entry carries its own stamp and nothing is newer than the sync
moment, nothing is left to send; in the content script only tombstones
remain, since it never sweeps. A deletion in the grid always
reaches the server.

Shared definitions live in `types.dfy`: `Entry(name, updatedAt)`, where
`name == None` is a tombstone and `updatedAt == 0` stands for a missing or
invalid timestamp (`Number(x) || 0`). `js_text.dfy` holds the JavaScript
string semantics the filters rely on. These are `String.prototype.trim`
with the whitespace set of ECMA-262, the `isNaN` test on a string (the
StringNumericLiteral grammar of ECMA-262 section 7.1.4.1), and the decimal
rendering of a status code.

Clock readings (`Date.now()`) are parameters. `now` is the reading at the
start of a round or handler. `syncMoment` is the reading after the response
arrives. Storage, `fetch` and `JSON.parse` become tagged inputs: the
`Persisted`, `ImportFile`, `SyncOutcome` and `CheckOutcome` datatypes.

Where the two copies of the engine differ, the model keeps both behaviours.

- The options page's merge stamps an upsert that has no timestamp with a
  fresh clock reading. It writes even when nothing changes, and it returns
  before the sweep when `items` is not an object.
- The content script's merge stamps with the sync moment. It never sweeps,
  so a tombstone is resent until the server echoes it back.
- Both merges may store an entry under the empty id if the server sends
  one. The next load drops it.

Saving the grid trims every id and label, so a stored label with surrounding
whitespace is re-stamped by a save that did not edit it.

An import replaces the whole grid (options.js:553-557). A live contact
that is missing from the file therefore becomes a tombstone. A file that
decodes to `null` passes the type guard but yields no contacts, so it is
rejected like any other file without contacts.

## Model

| member | source | states |
|---|---|---|
| JsText.Trim | options.js:222-223 | The trimmed id or label has no leading or trailing whitespace, in the ECMA-262 sense. |
| JsText.TrimIsInfix | options.js:222-223 | Trimming removes only whitespace, and only from the two ends. The result is a contiguous slice of the input. |
| JsText.TrimIdempotent | options.js:222-223 | Trimming twice is the same as trimming once. |
| JsText.DigitsAreNumeric | options.js:523 | A string of decimal digits passes `isNaN` as a number, so the import filter drops it. |
| JsText.LetterLedIdIsNotNumeric | options.js:523 | A string that starts with a capital letter other than `I` is not numeric. |
| JsText.DecimalRoundTrip | options.js:325 | The decimal rendering of a status code reads back as the same number. |
| ContactStore.Normalize | options.js:44-77 | Input that is absent, unparseable or not an object yields an empty store, with no re-save. The keys are the stored ids minus the empty id. A label, or `null` for a tombstone, is kept. A usable timestamp is kept and an unusable one becomes `now`. `needsSave` is set iff some entry was upgraded. With `now > 0` every stamp is positive. `normalizeStoredContacts` (app.js:30-62) is the same code. |
| ContactStore.LegacyUpgrade | options.js:69-72 | A flat `{id: "label"}` map loads as `{label, updated_at: now}` with `needsSave` set. |
| ContactStore.ReloadIsIdentity | options.js:79-95 | Persisting a well-formed store and loading it again gives back the same store, with nothing to re-save. |
| ContactStore.UpgradeSettlesAfterOneSave | options.js:85-87 | After the one re-save that follows an upgrade, the next load finds nothing to upgrade and changes nothing. |
| ContactStore.ActiveContacts | options.js:97-105 | The result holds exactly the live entries, with their values unchanged. |
| ContactStore.ToPlainContacts | app.js:82-90 | The result maps exactly the live ids to their labels. |
| ContactStore.TombstonesAreInvisible | app.js:84-88 | The page rewriter sees a tombstoned id exactly as if it were absent. |
| LocalEdits.SanitizeRow | options.js:221-224 | The id is the trimmed id cell and the label is the trimmed label cell, a missing cell reading as "". The label is always present. |
| LocalEdits.SanitizeRows | options.js:219-226 | No rows are added, and every kept row has a non-empty trimmed id and a trimmed label. |
| LocalEdits.SanitizeRowsKeeps | options.js:219-226 | A grid row is kept, sanitized, iff its trimmed id is non-empty, and every kept row comes from some grid row. |
| LocalEdits.LastGridRowDecides | options.js:219-226 | For the last grid row of each non-empty trimmed id, the fold of the sanitized rows gives that id the row's trimmed label. |
| LocalEdits.SanitizeIdempotent | options.js:219-226 | Showing sanitized rows in the grid and sanitizing them again returns them unchanged. |
| LocalEdits.LastRowDecides | options.js:264-276 | Each row id ends with the label of the last row that carries it. |
| LocalEdits.FoldLabels | options.js:259-288 | The keys are the labelled ids plus the previous ids. An unchanged live label keeps its timestamp, or gets `timestamp` if it had none. Any other label gets `timestamp`. A tombstone that is not mentioned is carried over. A live id that is not mentioned becomes `{null, timestamp}`. Well-formedness is preserved. |
| LocalEdits.BuildFromRows | options.js:264-285 | The same properties stated row by row: the last row of an id decides its label and timestamp, and the ids no row mentions are tombstoned. |
| LocalEdits.WriteRows | options.js:264-276 | The row pass visits the ids of the rows, and each id holds the fold of its last row. |
| LocalEdits.BuildContactsFromRows | options.js:259-288 | The two-pass loop of the source computes exactly `BuildFromRows`. |
| LocalEdits.GridSaveDecides | options.js:219-285 | For the last grid row of each non-empty trimmed id, the saved store gives that id the row's trimmed label, keeping the old stamp iff the live label is unchanged. |
| LocalEdits.SavedRowsAreLive | options.js:269-274 | After a save, every id that the sanitized grid shows is a live contact. |
| LocalEdits.SaveWithoutEditsKeepsStore | options.js:264-285 | Folding a well-formed store's own live labels back into it changes nothing, timestamps included. |
| LocalEdits.SaveShownGridKeepsStore | options.js:107-116 | Sanitizing and folding the grid a well-formed store shows (`rowsFromContacts` in any order, plus id-less rows such as the blank row of an empty store) gives back the same store, provided its live ids and labels are already trimmed. |
| LocalEdits.ParseImportedContacts | options.js:519-533 | An id is kept iff it is non-empty, has no comma, is not numeric (`JsText.IsNumeric`, the StringNumericLiteral grammar that `!isNaN` tests), and its value is a string or an object with a `label`. The kept value is that label. |
| LocalEdits.ImportIdFilter | options.js:523 | Letter-led ids without commas pass the filter. Digit strings never pass. |
| LocalEdits.ImportContacts | options.js:544-557 | A file that is not an object, or has no usable contact, is rejected. Otherwise the keys are the previous ids plus the imported ids. Each imported id carries its imported label, with the timestamp rule of a grid save. Every live id missing from the file is tombstoned with `timestamp`, and every tombstone missing from it is kept as it was. |
| LocalEdits.ExportContacts | options.js:495-500 | The export holds exactly the live contacts as `{label}`. |
| LocalEdits.ExportImportRoundTrip | options.js:495-557 | Importing a store's own export back into it changes nothing, when every live id passes the filter. |
| ChangeSet.ChangedItems | options.js:392-411 | An entry is sent iff it is a tombstone, its stamp is 0, or its stamp is above `lastSyncAt`. The label is sent as it is. A nonzero stamp is kept and a zero stamp becomes `now`. The copy in app.js:92-110 is the same code. |
| ChangeSet.EverythingPendingFromZero | options.js:237 | With the watermark reset to 0, every entry is sent. |
| ChangeSet.WatermarkShrinksChangeSet | options.js:399-400 | A later watermark selects a subset of the entries. |
| ChangeSet.TombstonesAlwaysPending | options.js:400 | A tombstone is sent whatever the watermark. |
| Merge.MergeAll | options.js:417-435 | An id without a usable incoming entry, or with a stale one, keeps its local entry (or stays absent). A non-stale tombstone removes the id. A non-stale label is written with its own stamp, or `fallback` when it has none. |
| Merge.Sweep | options.js:437-444 | The sweep removes exactly the tombstones stamped at or before the sweep moment. |
| Merge.ApplyRemoteOptions | options.js:413-445 | If `items` is not an object, nothing changes. Otherwise a stale entry leaves the local entry alone, a tombstone removes the id, and an upsert writes the label with the incoming stamp or `now`. Untouched ids stay. No tombstone at or before `syncedAt \|\| lastSyncAt` remains. Well-formedness is preserved. |
| Merge.ApplyRemoteApp | app.js:112-147 | The stale guard, delete and upsert behave as on the options page, but with the sync moment as the fallback stamp and no sweep. `changed` is true iff the store differs from before. |
| Merge.ChangedIffDiffers | app.js:127-146 | Some id is written or deleted exactly when the merged store differs from the old one. |
| Merge.ApplyRemoteItemsInPlace | app.js:117-144 | The in-place loop, taking ids in any order, computes the same store and flag as `ApplyRemoteApp`. |
| Merge.ApplyRemoteAppIdempotent | app.js:112-147 | Applying the same batch again changes nothing and reports no change. |
| Merge.VariantsDifferBySweep | options.js:437-444 | The options page's merge is the content script's merge followed by the sweep. |
| Merge.LastWriteWinsScenarios | app.js:123-125 | A newer remote label replaces a local one. An older remote label is ignored and reported as no change. |
| SyncMeta.ReadErrorMessage | options.js:322-339 | The message is never empty. An empty or unreadable body gives the status line. Otherwise the result is the JSON `message` if non-empty, else the JSON `error` if non-empty, else the raw text. The copy in app.js:149-166 is the same code. |
| SyncMeta.StatusLineReadsBack | options.js:325 | The status line is the status code in decimal, a space, and the status text, and its leading digits read back as the code. |
| SyncMeta.ErrorMessageExamples | options.js:322-339 | A JSON `message` wins over `error`; `error` is shown alone; a non-JSON body is shown as it is; an empty body gives `502 Bad Gateway`, an unreadable one `500 `. |
| SyncMeta.FailureMessage | options.js:489 | A network failure records the exception's message, or "Network error" if it has none. |
| SyncMeta.SettleMeta | app.js:184-199 | Success sets `lastSyncAt` to the sync moment and clears the error. A failure leaves `lastSyncAt` alone and records `readErrorMessage` of a non-2xx response, or the exception's message or "Network error" for a thrown one (options.js:473-474 and 489 record the same). The key, the attempt time and the key check are untouched. |
| OptionsPage.HandleApiKeyInput | options.js:228-257 | A trimmed key that differs from the stored one resets all sync metadata to its defaults. The same key changes nothing. A check is scheduled iff the key is non-empty and new. |
| OptionsPage.HandleSave | options.js:290-320 | The grid's rows replace the contacts. The last grid row of each trimmed id decides its label; an unchanged live label keeps its stamp and any other gets `timestamp`. Every row id is live, every live id that was dropped is tombstoned, every dropped tombstone is kept, and no id is lost. A new key resets the metadata. A sync follows iff a key is set. |
| OptionsPage.SaveShownGridKeepsState | options.js:290-320 | Saving the shown grid unedited, with the stored key, leaves the page state exactly as it was, when live ids, labels and the key are already trimmed. |
| OptionsPage.HandleImport | options.js:535-576 | A file that is not an object, or yields no contact, changes nothing. Otherwise the metadata is untouched and the keys are the previous ids plus the imported ids. Each imported id carries its imported label; an unchanged live label keeps its stamp and any other gets `timestamp`. Every live id missing from the file is tombstoned, and every tombstone missing from it is kept. |
| OptionsPage.SyncContacts | options.js:447-493 | With no key, nothing happens. Otherwise the attempt is stamped and the change set is sent. A failure keeps the contacts and the watermark and records `readErrorMessage` of the response or the exception's message ("Network error" if none). A success merges with the sweep (unstamped upserts taking the merge's own clock reading), advances the watermark to the sync moment, clears the error, and leaves no expired tombstone. The key, and the record of the last key check, are untouched. |
| OptionsPage.ValidateApiKey | options.js:341-390 | With no key, nothing is checked. Otherwise the outcome is recorded with its time; the detail is "" for an accepted key, `readErrorMessage` of a rejection, or the exception's message ("Network error" if none). The check succeeds iff a key is set and the server accepted it. |
| OptionsPage.CheckLeavesSyncAlone | options.js:360-364 | A key check changes nothing the following sync round reads or writes: the same request goes out and the same contacts, watermark and error result. |
| OptionsPage.NewKeyResendsEverything | options.js:233-241 | After a key change, the next round sends every entry of the store. |
| OptionsPage.SaveWithNewKeyResendsEverything | options.js:300-308 | After saving with a new key, the next round sends every entry. |
| OptionsPage.FailedRoundResendsSameChangeSet | options.js:472-478 | For a well-formed store, after a failed round the next round, at any later clock reading, sends the same change set. |
| ContentScript.BeginSync | app.js:204-213 | A round is skipped iff the key is empty, a round is in flight, or the last attempt was less than 60000 ms ago. A round that starts sets the flag and stamps `lastSyncAttempt` before the request. |
| ContentScript.SyncContacts | app.js:168-202 | The change set is sent. A failure keeps the store and the watermark and records `readErrorMessage` of the response or the exception's message ("Network error" if none). A success merges without the sweep, advances the watermark and clears the error. `updated` is true iff the store changed. The key, the attempt time and the key-check record are untouched. |
| ContentScript.MaybeSyncAndRefresh | app.js:204-222 | A request goes out iff the three guards pass. A skipped trigger changes nothing. A round that runs clears the flag, stamps the attempt, leaves the key and the key-check record alone, and redraws iff the store changed. A delivered round merges without the sweep, moves `lastSyncAt` to the sync moment and clears the error. A failure keeps the store and the watermark, records the error message, and redraws nothing. |
| ContentScript.NoOverlappingRounds | app.js:206-217 | While a round is in flight, every other trigger is skipped. |
| ContentScript.AtMostOneRequestPerMinute | app.js:208-213 | Of two triggers less than 60000 ms apart, at most the first sends a request. |
| ContentScript.FailedRoundIsRetried | app.js:184-201 | After a failed round, the next round one minute later sends exactly the same change set. |
| Convergence.EchoMergesToLiveContacts | options.js:417-435 | Merging the echo of a well-formed store's own change set leaves exactly its live contacts. |
| Convergence.TabEchoRound | app.js:112-147 | In the content script an echoed round leaves the live contacts. It reports a change iff tombstones were dropped. |
| Convergence.PageEchoRound | options.js:413-445 | In the options page an echoed round also leaves exactly the live contacts. |
| Convergence.PageQuiescentAfterSync | options.js:480-484 | After a successful round in which nothing is newer than the sync moment and every incoming entry carries its own stamp, the next change set is empty. |
| Convergence.UnstampedUpsertIsResent | options.js:429-432 | An incoming label without a stamp is stamped with the merge's clock reading; when that reading is later than the sync moment, the next round sends the label back. |
| Convergence.TabPendsOnlyTombstones | app.js:190-194 | After such a round in the content script, only tombstones remain to be sent. |
| Convergence.DeletionIsSent | options.js:278-285 | A live contact removed from the grid is sent on the next round as a tombstone stamped with the save. |

## Left out

- DOM rewriting (`stellarContactsAction`, `processLink`): it consumes only `toPlainContacts`, which is modelled.
- The AppendGrid UI, `ensureGrid`, `setUiTexts`, status rendering and `formatDateTime`: these are presentation only.
- Storage, `fetch`, `FileReader`, `Blob` download and `ext.i18n`: these are browser I/O. Their results are tagged inputs, and a persisted write is the returned state.
- The 400 ms `setTimeout` debounce of the key check: `HandleApiKeyInput` returns whether a check is scheduled. The check itself is `ValidateApiKey`.
- `bg.js`: it only forwards a toolbar click as a message.
- The comment-stripping regex and `JSON.parse`: the model starts from the decoded value.
- Decoding of `syncMeta` (`{...DEFAULT_META, ...syncMeta}`): the model starts from a decoded `Meta`.
- Non-string labels (numbers, booleans, objects) in stored, imported or remote data: labels are strings or `null`.
- Fractional, negative and non-finite timestamps: they collapse to `nat`, with 0 meaning invalid.
- Ids that name `Object.prototype` members: the stores are plain objects, and the model treats such ids like any other. A non-stale remote tombstone for `constructor` finds the inherited function as `current`, so the content script's `delete` changes nothing yet reports a change (app.js:120, 128-131); ApplyRemoteApp's flag is exact only for other ids. An id `__proto__`, stored (options.js:63, 70; app.js:49, 55), saved from the grid (options.js:269) or imported (options.js:526-528), sets the object's prototype instead of adding a key and is lost; the model keeps it, and SavedRowsAreLive calls it live.
- SyncMeta.ReadErrorMessage: the JSON `message` and `error` fields are modelled as strings (absent or falsy reads as ""). The source returns either field whenever it is truthy (options.js:329-330, app.js:156-157), so a body such as `{"message": 42}` or `{"error": {"code": 1}}` records a number or an object as the error; the model cannot represent that.
- Negative remote stamps: `Number(-5) || 0` is -5, which is truthy and below every local stamp, so both merges always skip such an entry as stale (options.js:419-425, app.js:119-125). The model reads the stamp as 0 and applies the entry.
- Clock readings within one handler are partly collapsed. The options page reads the clock separately for the attempt, the payload, the sync moment and each timestamp-less upsert. The model uses `now` for the first two, `syncMoment` for the watermark, and one `mergeNow` for every upsert of the batch. The content script likewise reads the clock separately for the attempt (app.js:208), the payload (app.js:170) and each zero-stamp entry of `changedItems` (app.js:104); the model uses `now` for all three.
- OptionsPage.ValidateApiKey: the stored message is the localized text around the detail. The model keeps only the detail, and "" for a successful check.
- The import chain `validateApiKey` then `syncContacts` (options.js:563-568) is the composition of `HandleImport`, `ValidateApiKey` and `OptionsPage.SyncContacts`. It is not a member of its own.
- Concurrency between tabs and the options page: each is modelled as a sequence of rounds on its own state.
- Interleaving within one tab: a `stellarContactsGo` message runs `loadState` while a request may be pending (app.js:289-291, 64-68), and the round then merges into and persists the reloaded state (app.js:175, 192-193). The model runs each round to completion.
- Interleaving within the options page: it has no in-flight flag, and `syncContacts` can be entered again from `init` (options.js:607), `handleSave` (options.js:319) and `handleImport` (options.js:566) while one is pending. The model runs each round to completion.
- `stellarContactsGo` (app.js:224-232) and the two `loadState` functions: they only chain `Normalize`, the redraw and `MaybeSyncAndRefresh`. The re-save they perform is the `needsSave` flag of `Normalize`.
