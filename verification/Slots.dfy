// What a forward asks for and what a registered holder occupies, from the
// availability checks of utils/utils.go.

module Slots {

  /** A requested or occupied address; an HTTP one has no scheme yet. */
  datatype Slot =
    | HttpSlot(host: string, path: string, user: string, password: string)
    | AliasSlot(alias: string)

  /** The key of HTTPListeners or AliasListeners; aliases have no scheme. */
  datatype Key = Key(scheme: string, slot: Slot)

  /** The availability check: equal, except that an HTTP path need only extend the holder's. */
  predicate Conflicts(want: Slot, held: Slot) {
    match (want, held)
    case (HttpSlot(h1, p1, u1, w1), HttpSlot(h2, p2, u2, w2)) => h1 == h2 && p2 <= p1 && u1 == u2 && w1 == w2
    case (AliasSlot(a), AliasSlot(b)) => a == b
    case _ => false
  }

  /** An alias stands in the way of itself, and an HTTP address of every one whose path goes on from its own. */
  lemma ConflictsIff(want: Slot, held: Slot)
    ensures Conflicts(want, held) <==>
      if want.AliasSlot? then held == want else held.HttpSlot? && exists rest :: want == held.(path := held.path + rest)
  {
    if Conflicts(want, held) && want.HttpSlot? {
      assert want == held.(path := held.path + want.path[|held.path|..]);
    }
  }

  /** Nothing left after the purge stands in the way of want. */
  predicate Free<T>(routes: map<Key, T>, purged: set<Key>, want: Slot) {
    forall k <- routes :: k in purged || !Conflicts(want, k.slot)
  }

  /** No two entries differ only in scheme. */
  predicate OnePerSlot<T>(routes: map<Key, T>) {
    forall k1 <- routes, k2 <- routes :: k1.slot == k2.slot ==> k1 == k2
  }

  /** Storing a free slot under any scheme keeps the slots distinct. */
  lemma StoreFree<T>(routes: map<Key, T>, purged: set<Key>, k: Key, h: T)
    requires OnePerSlot(routes) && Free(routes, purged, k.slot)
    ensures OnePerSlot((routes - purged)[k := h])
  {
    forall k1 <- routes - purged
      ensures k1.slot != k.slot
    {
      assert !Conflicts(k.slot, k1.slot);
    }
  }
}
