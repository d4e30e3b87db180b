/**
 * The outgoing half of a sync round: `changedItems`, identical in
 * options.js and app.js, picks the entries the server has not seen yet.
 */
module ChangeSet {
  import opened Types

  /** An entry still to be sent: a tombstone, an entry without a usable
      timestamp, or one changed after the watermark `lastSyncAt`. */
  predicate Dirty(e: Entry, lastSyncAt: nat) {
    e.name.None? || e.updatedAt == 0 || e.updatedAt > lastSyncAt
  }

  /** `changedItems`: the dirty entries, each with its label and its
      timestamp, an unusable timestamp replaced by `now` so that nothing
      is sent unstamped. */
  function ChangedItems(s: Store, lastSyncAt: nat, now: nat): (items: map<string, Entry>)
    ensures forall id :: id in items <==> id in s && Dirty(s[id], lastSyncAt)
    ensures forall id :: id in items ==> items[id].name == s[id].name
    ensures forall id :: id in items && s[id].updatedAt != 0 ==> items[id].updatedAt == s[id].updatedAt
    ensures forall id :: id in items && s[id].updatedAt == 0 ==> items[id].updatedAt == now
    ensures now > 0 ==> forall id :: id in items ==> items[id].updatedAt > 0
  {
    map id | id in s && Dirty(s[id], lastSyncAt) :: Entry(s[id].name, OrElse(s[id].updatedAt, now))
  }

  /** With the watermark at 0, as after an API key change, every entry is
      sent. */
  lemma EverythingPendingFromZero(s: Store, now: nat)
    ensures ChangedItems(s, 0, now).Keys == s.Keys
  {
  }

  /** Advancing the watermark can only shrink the change set. */
  lemma WatermarkShrinksChangeSet(s: Store, w1: nat, w2: nat, now: nat)
    requires w1 <= w2
    ensures ChangedItems(s, w2, now).Keys <= ChangedItems(s, w1, now).Keys
  {
  }

  /** Tombstones are always resent, whatever the watermark. */
  lemma TombstonesAlwaysPending(s: Store, lastSyncAt: nat, now: nat)
    ensures forall id :: id in s && s[id].name.None? ==> id in ChangedItems(s, lastSyncAt, now)
  {
  }
}
