/**
 * The incoming half of a sync round: `applyRemoteItems`, last-write-wins
 * by timestamp with tombstones. options.js and app.js carry two variants:
 * the options page overwrites unconditionally and then sweeps expired
 * tombstones; the content script skips no-op writes and reports whether
 * the store changed.
 */
module Merge {
  import opened Types

  /** The `items` member of a sync response after JSON decoding. A `None`
      value is a falsy entry (null), which both variants skip. */
  datatype RemoteItems =
    | NotAnObject
    | Items(entries: map<string, Option<Entry>>)

  /** The incoming entry of an id, if there is a usable one. */
  function Incoming(entries: map<string, Option<Entry>>, id: string): Option<Entry> {
    if id in entries then entries[id] else None
  }

  /** The stale-write guard: the incoming entry carries a timestamp and it
      is older than the local one, so the local entry wins. An incoming
      entry without a timestamp is never stale. */
  predicate IsStale(incoming: Entry, s: Store, id: string) {
    incoming.updatedAt != 0 && incoming.updatedAt < StampOf(s, id)
  }

  /** The batch carries a stale entry for `id`. */
  predicate StaleAt(s: Store, entries: map<string, Option<Entry>>, id: string) {
    Incoming(entries, id).Some? && IsStale(Incoming(entries, id).value, s, id)
  }

  /** The batch carries a tombstone for `id` that is not stale. */
  predicate DeletesAt(s: Store, entries: map<string, Option<Entry>>, id: string) {
    Incoming(entries, id).Some? && !IsStale(Incoming(entries, id).value, s, id)
    && Incoming(entries, id).value.name.None?
  }

  /** The batch carries a label for `id` that is not stale. */
  predicate UpsertsAt(s: Store, entries: map<string, Option<Entry>>, id: string) {
    Incoming(entries, id).Some? && !IsStale(Incoming(entries, id).value, s, id)
    && Incoming(entries, id).value.name.Some?
  }

  /** The incoming label of `id` with its own timestamp, or `fallback` when it has none. */
  function Upserted(entries: map<string, Option<Entry>>, id: string, fallback: nat): Entry
    requires Incoming(entries, id).Some?
  {
    var e := Incoming(entries, id).value;
    Entry(e.name, OrElse(e.updatedAt, fallback))
  }

  /** What one incoming entry leaves at its id (`None`: nothing). A stale
      entry is ignored, a tombstone deletes the id, anything else is
      written with its own timestamp or `fallback` when it has none. */
  function Resolve(s: Store, id: string, e: Entry, fallback: nat): Option<Entry> {
    if IsStale(e, s, id) then Lookup(s, id)
    else if e.name.None? then None
    else Some(Entry(e.name, OrElse(e.updatedAt, fallback)))
  }

  /** The value an id has after the merge loop. */
  function Merged(s: Store, entries: map<string, Option<Entry>>, id: string, fallback: nat): Option<Entry> {
    var incoming := Incoming(entries, id);
    if incoming.None? then Lookup(s, id) else Resolve(s, id, incoming.value, fallback)
  }

  /** The merge loop, one id at a time: every id of the batch is
      independent of the others, so the order of the loop is immaterial. */
  function MergeAll(s: Store, entries: map<string, Option<Entry>>, fallback: nat): (r: Store)
    ensures forall id :: Incoming(entries, id).None? ==> Lookup(r, id) == Lookup(s, id)
    ensures forall id :: StaleAt(s, entries, id) ==> Lookup(r, id) == Lookup(s, id)
    ensures forall id :: DeletesAt(s, entries, id) ==> id !in r
    ensures forall id :: UpsertsAt(s, entries, id) ==> id in r && r[id] == Upserted(entries, id, fallback)
  {
    var r := map id | id in s.Keys + entries.Keys && Merged(s, entries, id, fallback).Some? ::
      Merged(s, entries, id, fallback).value;
    assert forall id :: id !in s.Keys + entries.Keys ==> Merged(s, entries, id, fallback).None?;
    r
  }

  /** A tombstone old enough to be purged by the options page's sweep. */
  predicate Expired(e: Entry, syncMoment: nat) {
    e.name.None? && e.updatedAt <= syncMoment
  }

  /** The options page's post-merge sweep. */
  function Sweep(s: Store, syncMoment: nat): (r: Store)
    ensures forall id :: id in r <==> id in s && !Expired(s[id], syncMoment)
    ensures forall id :: id in r ==> r[id] == s[id]
  {
    map id | id in s && !Expired(s[id], syncMoment) :: s[id]
  }

  /** `applyRemoteItems` of the options page. The sweep moment is
      `syncedAt || lastSyncAt || 0`; an upsert without a timestamp is
      stamped with the clock reading `now`. A response whose `items` is not
      an object leaves the store alone, sweep included. */
  function ApplyRemoteOptions(s: Store, items: RemoteItems, syncedAt: nat, lastSyncAt: nat, now: nat): (r: Store)
    ensures items.NotAnObject? ==> r == s
    ensures items.Items? ==> var moment := OrElse(syncedAt, lastSyncAt);
      && (forall id :: id in r ==> !Expired(r[id], moment))
      && (forall id :: StaleAt(s, items.entries, id) ==>
            (id in r ==> r[id] == s[id]) && (id in s && !Expired(s[id], moment) ==> id in r))
      && (forall id :: DeletesAt(s, items.entries, id) ==> id !in r)
      && (forall id :: UpsertsAt(s, items.entries, id) ==>
            id in r && r[id] == Upserted(items.entries, id, now))
      && (forall id :: Incoming(items.entries, id).None? ==>
            (id in r <==> id in s && !Expired(s[id], moment)) && (id in r ==> r[id] == s[id]))
    ensures WellFormed(s) && now > 0 ==> WellFormed(r)
  {
    if items.NotAnObject? then s
    else Sweep(MergeAll(s, items.entries, now), OrElse(syncedAt, lastSyncAt))
  }

  datatype MergeResult = MergeResult(contacts: Store, changed: bool)

  /** Whether the content script's loop writes or deletes at `id`: a
      non-stale tombstone deletes a present id; a non-stale upsert writes
      unless the id already holds that very label and timestamp. */
  predicate Writes(s: Store, id: string, e: Entry, syncMoment: nat) {
    && !IsStale(e, s, id)
    && (if e.name.None? then id in s
        else Lookup(s, id) != Some(Entry(e.name, OrElse(e.updatedAt, syncMoment))))
  }

  /** `applyRemoteItems` of the content script. Upserts without a
      timestamp take the sync moment `syncedAt || now`; the result reports
      whether any id was written or deleted. */
  function ApplyRemoteApp(s: Store, items: RemoteItems, syncedAt: nat, now: nat): (r: MergeResult)
    ensures items.NotAnObject? ==> r == MergeResult(s, false)
    ensures r.changed <==> r.contacts != s
    ensures items.Items? ==> var moment := OrElse(syncedAt, now);
      && (forall id :: StaleAt(s, items.entries, id) ==> Lookup(r.contacts, id) == Lookup(s, id))
      && (forall id :: DeletesAt(s, items.entries, id) ==> id !in r.contacts)
      && (forall id :: UpsertsAt(s, items.entries, id) ==>
            id in r.contacts && r.contacts[id] == Upserted(items.entries, id, moment))
      && (forall id :: Incoming(items.entries, id).None? ==> Lookup(r.contacts, id) == Lookup(s, id))
    ensures WellFormed(s) && OrElse(syncedAt, now) > 0 ==> WellFormed(r.contacts)
  {
    if items.NotAnObject? then MergeResult(s, false)
    else
      var moment := OrElse(syncedAt, now);
      var merged := MergeAll(s, items.entries, moment);
      var changed := exists id :: id in items.entries && items.entries[id].Some?
                                  && Writes(s, id, items.entries[id].value, moment);
      ChangedIffDiffers(s, items.entries, moment);
      MergeResult(merged, changed)
  }

  /** The change flag is exact: some id is written or deleted precisely
      when the merged store differs from the old one. */
  lemma ChangedIffDiffers(s: Store, entries: map<string, Option<Entry>>, moment: nat)
    ensures (exists id :: id in entries && entries[id].Some? && Writes(s, id, entries[id].value, moment))
        <==> MergeAll(s, entries, moment) != s
  {
    var r := MergeAll(s, entries, moment);
    if exists id :: id in entries && entries[id].Some? && Writes(s, id, entries[id].value, moment) {
      var id :| id in entries && entries[id].Some? && Writes(s, id, entries[id].value, moment);
      assert Lookup(r, id) != Lookup(s, id);
    } else {
      forall id
        ensures Lookup(r, id) == Lookup(s, id)
      {
        if id in entries && entries[id].Some? {
          assert !Writes(s, id, entries[id].value, moment);
        }
      }
      LookupExtensional(r, s);
    }
  }

  /** The content script's loop as the source runs it: ids are taken one at
      a time, in any order, each written, deleted or skipped in place and
      the change flag raised on every write or delete. */
  method ApplyRemoteItemsInPlace(s: Store, items: RemoteItems, syncedAt: nat, now: nat)
    returns (contacts: Store, changed: bool)
    ensures MergeResult(contacts, changed) == ApplyRemoteApp(s, items, syncedAt, now)
  {
    if items.NotAnObject? {
      return s, false;
    }
    var moment := OrElse(syncedAt, now);
    var entries := items.entries;
    contacts, changed := s, false;
    var todo := entries.Keys;
    while todo != {}
      invariant todo <= entries.Keys
      invariant forall id :: id !in todo ==> Lookup(contacts, id) == Merged(s, entries, id, moment)
      invariant forall id :: id in todo ==> Lookup(contacts, id) == Lookup(s, id)
      invariant changed <==> exists id :: id in entries && id !in todo && entries[id].Some?
                                          && Writes(s, id, entries[id].value, moment)
      decreases todo
    {
      var id :| id in todo;
      var entry := entries[id];
      if entry.Some? {
        var e := entry.value;
        var current := StampOf(contacts, id);
        if !(e.updatedAt != 0 && e.updatedAt < current) {
          if e.name.None? {
            if id in contacts {
              contacts := contacts - {id};
              changed := true;
            }
          } else {
            var next := Entry(e.name, OrElse(e.updatedAt, moment));
            if Lookup(contacts, id) != Some(next) {
              contacts := contacts[id := next];
              changed := true;
            }
          }
        }
      }
      todo := todo - {id};
    }
    LookupExtensional(contacts, MergeAll(s, entries, moment));
  }

  /** Applying the same batch twice is the same as applying it once, and
      the second application reports no change. */
  lemma ApplyRemoteAppIdempotent(s: Store, items: RemoteItems, syncedAt: nat, now: nat)
    ensures var once := ApplyRemoteApp(s, items, syncedAt, now);
      ApplyRemoteApp(once.contacts, items, syncedAt, now) == MergeResult(once.contacts, false)
  {
    if items.Items? {
      var moment := OrElse(syncedAt, now);
      var once := MergeAll(s, items.entries, moment);
      var twice := MergeAll(once, items.entries, moment);
      forall id
        ensures Lookup(twice, id) == Lookup(once, id)
      {
      }
      LookupExtensional(twice, once);
    }
  }

  /** The options page's merge is the content script's merge followed by
      the sweep, when both stamp with the same moment and `items` is an
      object. */
  lemma VariantsDifferBySweep(s: Store, entries: map<string, Option<Entry>>, moment: nat, lastSyncAt: nat, now: nat)
    requires moment > 0
    ensures ApplyRemoteOptions(s, Items(entries), moment, lastSyncAt, moment)
         == Sweep(ApplyRemoteApp(s, Items(entries), moment, now).contacts, moment)
  {
  }

  /** Two concrete cases: a newer remote label replaces the local one; an
      older one is ignored. */
  lemma LastWriteWinsScenarios(now: nat)
    ensures ApplyRemoteApp(map["A" := Entry(Some("X"), 100)],
                           Items(map["A" := Some(Entry(Some("Y"), 200))]), now, now)
         == MergeResult(map["A" := Entry(Some("Y"), 200)], true)
    ensures ApplyRemoteApp(map["A" := Entry(Some("X"), 300)],
                           Items(map["A" := Some(Entry(Some("Y"), 200))]), now, now)
         == MergeResult(map["A" := Entry(Some("X"), 300)], false)
  {
    var r1 := ApplyRemoteApp(map["A" := Entry(Some("X"), 100)], Items(map["A" := Some(Entry(Some("Y"), 200))]), now, now);
    assert Lookup(r1.contacts, "A") == Some(Entry(Some("Y"), 200));
    LookupExtensional(r1.contacts, map["A" := Entry(Some("Y"), 200)]);
    var r2 := ApplyRemoteApp(map["A" := Entry(Some("X"), 300)], Items(map["A" := Some(Entry(Some("Y"), 200))]), now, now);
    LookupExtensional(r2.contacts, map["A" := Entry(Some("X"), 300)]);
  }
}
