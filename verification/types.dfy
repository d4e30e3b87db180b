/**
 * The contact store shared by the options page and the content script: an
 * account id maps to a display label and the moment (milliseconds since the
 * epoch) that label was last set.
 */
module Types {

  datatype Option<+T> = None | Some(value: T)

  /** A stored contact. A `None` name (the label) is a tombstone: the contact was deleted
      and the deletion still has to reach the server. An `updatedAt` of 0
      stands for a timestamp that is absent or unusable, which is what
      `Number(x) || 0` produces in the extension. */
  datatype Entry = Entry(name: Option<string>, updatedAt: nat)

  type Store = map<string, Entry>

  /** `t || fallback` on a timestamp: 0 is replaced by the fallback. */
  function OrElse(t: nat, fallback: nat): nat {
    if t != 0 then t else fallback
  }

  function Lookup(s: Store, id: string): Option<Entry> {
    if id in s then Some(s[id]) else None
  }

  /** `Number(current?.updated_at) || 0`: the local timestamp of an id, 0 when absent. */
  function StampOf(s: Store, id: string): nat {
    if id in s then s[id].updatedAt else 0
  }

  predicate IsLive(e: Entry) {
    e.name.Some?
  }

  /** The data-model invariant: every entry carries a usable timestamp. */
  predicate WellFormed(s: Store) {
    forall id :: id in s ==> s[id].updatedAt > 0
  }

  /** The ids holding a live (non-tombstone) contact. */
  function LiveIds(s: Store): set<string> {
    set id | id in s && IsLive(s[id])
  }

  /** Two stores that agree on every id are the same store. */
  lemma LookupExtensional(a: Store, b: Store)
    requires forall id :: Lookup(a, id) == Lookup(b, id)
    ensures a == b
  {
    assert a.Keys == b.Keys by {
      forall id
        ensures id in a <==> id in b
      {
        assert Lookup(a, id) == Lookup(b, id);
      }
    }
    forall id | id in a
      ensures a[id] == b[id]
    {
      assert Lookup(a, id) == Lookup(b, id);
    }
  }
}
