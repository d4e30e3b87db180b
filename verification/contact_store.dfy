/**
 * Loading the persisted contact map (`normalizeContacts` in options.js and
 * its copy `normalizeStoredContacts` in app.js) and the read-only views the
 * rest of the extension takes of it (`activeContacts`, `toPlainContacts`).
 */
module ContactStore {
  import opened Types

  /** One persisted value after JSON decoding. */
  datatype RawValue =
      /** Not an object: a bare label string from the old flat format, or null. */
    | Bare(name: Option<string>)
      /** An object; `updatedAt` is 0 when `updated_at` is missing, not
          finite or not positive. A missing or null label is `None`. */
    | Structured(name: Option<string>, updatedAt: nat)

  /** The `contacts` storage slot after `JSON.parse`. */
  datatype Persisted =
    | Absent                 // nothing stored (a falsy slot)
    | Unparseable            // JSON.parse threw
    | NotAnObject            // parsed to null, a number, a string or a boolean
    | Parsed(entries: map<string, RawValue>)

  datatype Loaded = Loaded(contacts: Store, needsSave: bool)

  /** A value that has to be rewritten: a bare label, or an object whose timestamp is unusable. */
  predicate NeedsUpgrade(v: RawValue) {
    v.Bare? || v.updatedAt == 0
  }

  function Upgrade(v: RawValue, now: nat): Entry {
    match v
    case Bare(l) => Entry(l, now)
    case Structured(l, t) => Entry(l, OrElse(t, now))
  }

  /** Decodes the stored map: legacy and badly stamped values are upgraded
      with `now` and flagged for re-saving; anything that is not an object
      yields the empty store; an empty id is dropped. */
  function Normalize(raw: Persisted, now: nat): (r: Loaded)
    ensures !raw.Parsed? ==> r == Loaded(map[], false)
    ensures raw.Parsed? ==> r.contacts.Keys == raw.entries.Keys - {""}
    ensures forall id :: id in r.contacts ==>
      && raw.Parsed? && id in raw.entries
      && r.contacts[id].name == raw.entries[id].name
      && (NeedsUpgrade(raw.entries[id]) ==> r.contacts[id].updatedAt == now)
      && (!NeedsUpgrade(raw.entries[id]) ==> r.contacts[id].updatedAt == raw.entries[id].updatedAt)
    ensures r.needsSave <==> exists id :: id in r.contacts && NeedsUpgrade(raw.entries[id])
    ensures now > 0 ==> WellFormed(r.contacts)
  {
    match raw
    case Parsed(m) =>
      var contacts := map id | id in m && id != "" :: Upgrade(m[id], now);
      Loaded(contacts, exists id :: id in contacts && NeedsUpgrade(m[id]))
    case _ => Loaded(map[], false)
  }

  /** `JSON.stringify(state.contacts)` read back by `JSON.parse`: every entry
      becomes an object carrying its label (null for a tombstone) and its
      timestamp. */
  function Encode(s: Store): Persisted {
    Parsed(map id | id in s :: Structured(s[id].name, s[id].updatedAt))
  }

  /** Persisting a well-formed store and loading it again gives back the
      same store, with nothing left to upgrade. */
  lemma ReloadIsIdentity(s: Store, now: nat)
    requires WellFormed(s) && "" !in s
    ensures Normalize(Encode(s), now) == Loaded(s, false)
  {
    var r := Normalize(Encode(s), now);
    assert r.contacts.Keys == s.Keys;
    forall id | id in s
      ensures r.contacts[id] == s[id]
    {
    }
    assert !r.needsSave;
  }

  /** The re-save that `loadState` performs when `needsSave` is set is
      enough: the next load finds nothing to upgrade and changes nothing. */
  lemma UpgradeSettlesAfterOneSave(raw: Persisted, now: nat, later: nat)
    requires now > 0
    ensures var first := Normalize(raw, now).contacts;
      Normalize(Encode(first), later) == Loaded(first, false)
  {
    ReloadIsIdentity(Normalize(raw, now).contacts, later);
  }

  /** A flat legacy map `{id: "label"}` is upgraded to a stamped entry and
      flagged for re-saving. */
  lemma LegacyUpgrade(id: string, text: string, now: nat)
    requires id != ""
    ensures Normalize(Parsed(map[id := Bare(Some(text))]), now)
         == Loaded(map[id := Entry(Some(text), now)], true)
  {
    var r := Normalize(Parsed(map[id := Bare(Some(text))]), now);
    assert id in r.contacts;
  }

  /** `activeContacts`: the live entries, tombstones left out. */
  function ActiveContacts(s: Store): (r: Store)
    ensures r.Keys == LiveIds(s)
    ensures forall id :: id in r ==> r[id] == s[id]
  {
    map id | id in s && IsLive(s[id]) :: s[id]
  }

  /** `toPlainContacts`: the id-to-label view handed to the page rewriter. */
  function ToPlainContacts(s: Store): (r: map<string, string>)
    ensures r.Keys == LiveIds(s)
    ensures forall id :: id in r ==> s[id].name == Some(r[id])
  {
    map id | id in s && IsLive(s[id]) :: s[id].name.value
  }

  /** Tombstones are invisible to the page rewriter: removing one, or
      turning a live contact into one, is seen as the contact being absent. */
  lemma TombstonesAreInvisible(s: Store, id: string, stamp: nat)
    ensures ToPlainContacts(s[id := Entry(None, stamp)]) == ToPlainContacts(s - {id})
    ensures ToPlainContacts(s - {id}).Keys == ToPlainContacts(s).Keys - {id}
  {
    var a := ToPlainContacts(s[id := Entry(None, stamp)]);
    var b := ToPlainContacts(s - {id});
    assert a.Keys == b.Keys;
  }
}
