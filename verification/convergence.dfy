/**
 * Properties of whole sync rounds, across the outgoing change set, the
 * server's reply and the two merge variants: what an acknowledged round
 * leaves behind, and that a local deletion is always sent.
 */
module Convergence {
  import opened Types
  import opened SyncMeta
  import ContactStore
  import LocalEdits
  import ChangeSet
  import Merge
  import OptionsPage
  import ContentScript

  /** A reply that hands the sent change set back unchanged, as a server
      does that accepted every item and has nothing newer. */
  function Echo(items: map<string, Entry>): (entries: map<string, Option<Entry>>)
    ensures entries.Keys == items.Keys
    ensures forall id :: id in entries ==> entries[id] == Some(items[id])
  {
    map id | id in items :: Some(items[id])
  }

  /** Merging the echo of a well-formed store's own change set, at any
      watermark, leaves exactly its live contacts: every sent tombstone
      deletes its id and every sent label is written back as it was. */
  lemma {:induction false} EchoMergesToLiveContacts(s: Store, lastSyncAt: nat, now: nat, fallback: nat)
    requires WellFormed(s)
    ensures Merge.MergeAll(s, Echo(ChangeSet.ChangedItems(s, lastSyncAt, now)), fallback)
      == ContactStore.ActiveContacts(s)
  {
    var entries := Echo(ChangeSet.ChangedItems(s, lastSyncAt, now));
    var merged := Merge.MergeAll(s, entries, fallback);
    var live := ContactStore.ActiveContacts(s);
    forall id
      ensures Lookup(merged, id) == Lookup(live, id)
    {
      if id in entries {
        assert entries[id] == Some(s[id]);
      }
    }
    LookupExtensional(merged, live);
  }

  /** The content script, after an echoed round, holds exactly its live
      contacts, and it redraws the page precisely when tombstones were
      dropped. */
  lemma TabEchoRound(s: Store, lastSyncAt: nat, now: nat, syncMoment: nat)
    requires WellFormed(s)
    ensures var r := Merge.ApplyRemoteApp(s, Merge.Items(Echo(ChangeSet.ChangedItems(s, lastSyncAt, now))), syncMoment, syncMoment);
      && r.contacts == ContactStore.ActiveContacts(s)
      && (r.changed <==> exists id :: id in s && s[id].name.None?)
  {
    EchoMergesToLiveContacts(s, lastSyncAt, now, syncMoment);
    var live := ContactStore.ActiveContacts(s);
    if exists id :: id in s && s[id].name.None? {
      var id :| id in s && s[id].name.None?;
      assert id !in live;
    } else {
      LookupExtensional(live, s);
    }
  }

  /** The options page, after an echoed round, also holds exactly its
      live contacts: the sweep finds nothing left to purge. */
  lemma PageEchoRound(s: Store, lastSyncAt: nat, now: nat, syncMoment: nat)
    requires WellFormed(s)
    ensures Merge.ApplyRemoteOptions(s, Merge.Items(Echo(ChangeSet.ChangedItems(s, lastSyncAt, now))), syncMoment, lastSyncAt, syncMoment)
      == ContactStore.ActiveContacts(s)
  {
    var entries := Echo(ChangeSet.ChangedItems(s, lastSyncAt, now));
    EchoMergesToLiveContacts(s, lastSyncAt, now, syncMoment);
    var live := ContactStore.ActiveContacts(s);
    assert Merge.Sweep(live, OrElse(syncMoment, lastSyncAt)) == live;
  }

  /** After a delivered round of the options page in which nothing, local
      or remote, is newer than the sync moment and every incoming entry
      carries its own stamp, the store is quiescent: the next round sends
      nothing, whenever it runs. */
  lemma {:induction false} PageQuiescentAfterSync(s: OptionsPage.PageState, now: nat, entries: map<string, Option<Entry>>, syncMoment: nat, mergeNow: nat, later: nat)
    requires s.meta.apiKey != "" && syncMoment > 0
    requires WellFormed(s.contacts)
    requires forall id :: id in s.contacts ==> s.contacts[id].updatedAt <= syncMoment
    requires forall id :: id in entries && entries[id].Some? ==>
      0 < entries[id].value.updatedAt <= syncMoment
    ensures var t := OptionsPage.SyncContacts(s, now, Delivered(Merge.Items(entries)), syncMoment, mergeNow).state;
      ChangeSet.ChangedItems(t.contacts, t.meta.lastSyncAt, later) == map[]
  {
    var t := OptionsPage.SyncContacts(s, now, Delivered(Merge.Items(entries)), syncMoment, mergeNow).state;
    var r := t.contacts;
    forall id | id in r
      ensures !ChangeSet.Dirty(r[id], syncMoment)
    {
      if Merge.UpsertsAt(s.contacts, entries, id) {
        assert r[id] == Merge.Upserted(entries, id, mergeNow);
      } else {
        assert r[id] == s.contacts[id];
      }
    }
    var pending := ChangeSet.ChangedItems(r, t.meta.lastSyncAt, later);
    assert pending.Keys == {};
  }

  /** An incoming label without a stamp is stamped by the options page
      with a clock reading taken after the sync moment, so whenever that
      reading is later the label is sent back on the next round. */
  lemma UnstampedUpsertIsResent(s: OptionsPage.PageState, now: nat, entries: map<string, Option<Entry>>, syncMoment: nat, mergeNow: nat, later: nat, id: string)
    requires s.meta.apiKey != ""
    requires id in entries && entries[id].Some?
    requires entries[id].value.name.Some? && entries[id].value.updatedAt == 0
    requires mergeNow > syncMoment
    ensures var t := OptionsPage.SyncContacts(s, now, Delivered(Merge.Items(entries)), syncMoment, mergeNow).state;
      var pending := ChangeSet.ChangedItems(t.contacts, t.meta.lastSyncAt, later);
      id in pending && pending[id] == Entry(entries[id].value.name, mergeNow)
  {
    assert Merge.UpsertsAt(s.contacts, entries, id);
  }

  /** The content script keeps its tombstones after a round it did not
      echo, but nothing else: once nothing is newer than the sync moment,
      the next change set holds tombstones only. */
  lemma {:induction false} TabPendsOnlyTombstones(s: ContentScript.TabState, now: nat, entries: map<string, Option<Entry>>, syncMoment: nat, later: nat)
    requires syncMoment > 0
    requires WellFormed(s.contacts)
    requires forall id :: id in s.contacts ==> s.contacts[id].updatedAt <= syncMoment
    requires forall id :: id in entries && entries[id].Some? ==> entries[id].value.updatedAt <= syncMoment
    ensures var r := ContentScript.SyncContacts(s.contacts, s.meta, now, Delivered(Merge.Items(entries)), syncMoment);
      forall id :: id in ChangeSet.ChangedItems(r.contacts, r.meta.lastSyncAt, later) ==> r.contacts[id].name.None?
  {
    var r := ContentScript.SyncContacts(s.contacts, s.meta, now, Delivered(Merge.Items(entries)), syncMoment);
    forall id | id in r.contacts && r.contacts[id].name.Some?
      ensures !ChangeSet.Dirty(r.contacts[id], syncMoment)
    {
      assert Lookup(r.contacts, id) == Some(r.contacts[id]);
      if Merge.UpsertsAt(s.contacts, entries, id) {
        assert r.contacts[id] == Merge.Upserted(entries, id, syncMoment);
      } else {
        assert r.contacts[id] == s.contacts[id];
      }
    }
  }

  /** Removing a live contact from the grid always reaches the server: the
      next round sends a tombstone for it, stamped with the save. */
  lemma DeletionIsSent(s: OptionsPage.PageState, grid: seq<LocalEdits.GridRow>, keyInput: string, timestamp: nat, id: string, now: nat)
    requires id in s.contacts && IsLive(s.contacts[id])
    requires id !in LocalEdits.RowIds(LocalEdits.SanitizeRows(grid))
    requires timestamp > 0
    ensures var t := OptionsPage.HandleSave(s, grid, keyInput, timestamp).state;
      var items := ChangeSet.ChangedItems(t.contacts, t.meta.lastSyncAt, now);
      id in items && items[id] == Entry(None, timestamp)
  {
  }
}
