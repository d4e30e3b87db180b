/**
 * The content script's sync round (app.js): `maybeSyncAndRefresh` gates
 * a round on the key, the in-flight flag and the rate limit, and
 * `syncContacts` sends the change set and merges the reply without
 * sweeping tombstones.
 */
module ContentScript {
  import opened Types
  import opened SyncMeta
  import Merge
  import ChangeSet

  /** The tab's state: the store, the metadata, and the module-level
      `syncInProgress` flag. */
  datatype TabState = TabState(contacts: Store, meta: Meta, syncInProgress: bool)

  /** `SYNC_MIN_INTERVAL_MS`: at most one attempt per minute. */
  const SyncMinIntervalMs: nat := 60000

  datatype SkipReason = NoApiKey | InFlight | TooSoon

  /** Whether a trigger starts a round, and the state it leaves while the
      request is in flight. */
  datatype Gate = Skip(reason: SkipReason) | Start(state: TabState)

  /** The guards of `maybeSyncAndRefresh`, in order: no key, a round in
      flight, or an attempt less than a minute ago (a clock that went
      backwards counts as too soon). A round that starts raises the flag
      and records its attempt before any request goes out. */
  function BeginSync(s: TabState, now: nat): (g: Gate)
    ensures g.Skip? <==>
      s.meta.apiKey == "" || s.syncInProgress || now - s.meta.lastSyncAttempt < SyncMinIntervalMs
    ensures g.Skip? && s.meta.apiKey == "" ==> g.reason == NoApiKey
    ensures g.Start? ==>
      && g.state.syncInProgress
      && g.state.meta.lastSyncAttempt == now
      && g.state.contacts == s.contacts
      && g.state.meta == s.meta.(lastSyncAttempt := now)
  {
    if s.meta.apiKey == "" then Skip(NoApiKey)
    else if s.syncInProgress then Skip(InFlight)
    else if now - s.meta.lastSyncAttempt < SyncMinIntervalMs then Skip(TooSoon)
    else Start(s.(syncInProgress := true, meta := s.meta.(lastSyncAttempt := now)))
  }

  /** What `syncContacts` leaves behind: the store, the metadata, the
      request it sent, and whether the page must be redrawn. */
  datatype Synced = Synced(contacts: Store, meta: Meta, payload: Payload, updated: bool)

  /** `syncContacts` of the content script: the change set since the
      watermark goes out; a delivered reply is merged (tombstones stay) and
      moves the watermark to the sync moment; a failure changes neither the
      store nor the watermark. The page is redrawn only when the merge
      changed the store. */
  function SyncContacts(contacts: Store, meta: Meta, now: nat, outcome: SyncOutcome, syncMoment: nat): (r: Synced)
    ensures r.payload == Payload(now, ChangeSet.ChangedItems(contacts, meta.lastSyncAt, now))
    ensures r.updated <==> r.contacts != contacts
    ensures !outcome.Delivered? ==>
      && r.contacts == contacts
      && r.meta.lastSyncAt == meta.lastSyncAt
      && r.meta.lastSyncError.Some?
    ensures outcome.Rejected? ==>
      r.meta.lastSyncError == Some(ReadErrorMessage(outcome.status, outcome.statusText, outcome.body))
    ensures outcome.Failed? ==> r.meta.lastSyncError == Some(FailureMessage(outcome.message))
    ensures outcome.Delivered? ==>
      && r.contacts == Merge.ApplyRemoteApp(contacts, outcome.items, syncMoment, syncMoment).contacts
      && r.meta.lastSyncAt == syncMoment
      && r.meta.lastSyncError == None
    ensures r.meta.apiKey == meta.apiKey && r.meta.lastSyncAttempt == meta.lastSyncAttempt
    ensures r.meta.lastApiCheck == meta.lastApiCheck
    ensures WellFormed(contacts) && syncMoment > 0 ==> WellFormed(r.contacts)
  {
    var payload := Payload(now, ChangeSet.ChangedItems(contacts, meta.lastSyncAt, now));
    match outcome
    case Delivered(items) =>
      var merged := Merge.ApplyRemoteApp(contacts, items, syncMoment, syncMoment);
      Synced(merged.contacts, SettleMeta(meta, outcome, syncMoment), payload, merged.changed)
    case _ => Synced(contacts, SettleMeta(meta, outcome, syncMoment), payload, false)
  }

  /** One trigger of `maybeSyncAndRefresh` run to completion: the state it
      leaves, the request it sent (`None`: it was skipped), and whether the
      contacts were pushed to the page again. */
  datatype Round = Round(state: TabState, payload: Option<Payload>, refresh: bool)

  /** `maybeSyncAndRefresh`: a skipped trigger changes nothing; a round
      that runs lowers the flag again whatever its outcome, and redraws the
      page only when the store changed. */
  function MaybeSyncAndRefresh(s: TabState, now: nat, outcome: SyncOutcome, syncMoment: nat): (r: Round)
    ensures r.payload.Some? <==>
      s.meta.apiKey != "" && !s.syncInProgress && now - s.meta.lastSyncAttempt >= SyncMinIntervalMs
    ensures r.payload.None? ==> r.state == s && !r.refresh
    ensures r.payload.Some? ==>
      && !r.state.syncInProgress
      && r.state.meta.lastSyncAttempt == now
      && r.state.meta.apiKey == s.meta.apiKey
      && r.state.meta.lastApiCheck == s.meta.lastApiCheck
      && r.payload.value.items == ChangeSet.ChangedItems(s.contacts, s.meta.lastSyncAt, now)
      && (r.refresh <==> r.state.contacts != s.contacts)
    ensures r.payload.Some? && !outcome.Delivered? ==>
      && r.state.contacts == s.contacts
      && r.state.meta.lastSyncAt == s.meta.lastSyncAt
      && !r.refresh
    ensures r.payload.Some? && outcome.Rejected? ==>
      r.state.meta.lastSyncError == Some(ReadErrorMessage(outcome.status, outcome.statusText, outcome.body))
    ensures r.payload.Some? && outcome.Failed? ==>
      r.state.meta.lastSyncError == Some(FailureMessage(outcome.message))
    ensures r.payload.Some? && outcome.Delivered? ==>
      && r.state.contacts == Merge.ApplyRemoteApp(s.contacts, outcome.items, syncMoment, syncMoment).contacts
      && r.state.meta.lastSyncAt == syncMoment
      && r.state.meta.lastSyncError == None
  {
    match BeginSync(s, now)
    case Skip(_) => Round(s, None, false)
    case Start(t) =>
      var done := SyncContacts(t.contacts, t.meta, now, outcome, syncMoment);
      Round(TabState(done.contacts, done.meta, false), Some(done.payload), done.updated)
  }

  /** While a round is in flight, every other trigger is skipped, whenever
      it fires: at most one request is outstanding per tab. */
  lemma NoOverlappingRounds(s: TabState, now: nat, other: nat)
    requires BeginSync(s, now).Start?
    ensures BeginSync(BeginSync(s, now).state, other) == Skip(InFlight)
  {
  }

  /** The rate limit: of two triggers less than a minute apart, at most
      the first sends a request. */
  lemma AtMostOneRequestPerMinute(s: TabState, t1: nat, t2: nat, o1: SyncOutcome, m1: nat, o2: SyncOutcome, m2: nat)
    requires t2 < t1 + SyncMinIntervalMs
    ensures var first := MaybeSyncAndRefresh(s, t1, o1, m1);
      first.payload.Some? ==> MaybeSyncAndRefresh(first.state, t2, o2, m2).payload.None?
  {
  }

  /** A failed round does not lose local changes: a minute later the next
      round sends exactly the same change set again (the store being
      well-formed, no entry's stamp depends on the moment of sending). */
  lemma FailedRoundIsRetried(s: TabState, t1: nat, o1: SyncOutcome, m1: nat, t2: nat, o2: SyncOutcome, m2: nat)
    requires WellFormed(s.contacts)
    requires !o1.Delivered?
    requires t2 >= t1 + SyncMinIntervalMs
    ensures var first := MaybeSyncAndRefresh(s, t1, o1, m1);
      var second := MaybeSyncAndRefresh(first.state, t2, o2, m2);
      first.payload.Some? ==> second.payload.Some? && second.payload.value.items == first.payload.value.items
  {
    var first := MaybeSyncAndRefresh(s, t1, o1, m1);
    if first.payload.Some? {
      var a := ChangeSet.ChangedItems(s.contacts, s.meta.lastSyncAt, t1);
      var b := ChangeSet.ChangedItems(s.contacts, s.meta.lastSyncAt, t2);
      assert a.Keys == b.Keys;
      forall id | id in a
        ensures a[id] == b[id]
      {
        assert s.contacts[id].updatedAt > 0;
      }
      assert a == b;
    }
  }
}
