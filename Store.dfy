/** The snapshot register the handlers read and the sync loop writes (store.go). The atomicity
    of atomic.Pointer is not modelled: this is the sequential register it behaves as. */
module Store {
  import opened Wrappers
  import opened ContentTypes

  class AtomicStore {
    /** The published snapshot; None is Go's nil pointer. */
    var ptr: Option<ContentStore>

    /** NewAtomicStore: nothing published yet. */
    constructor ()
      ensures ptr == None
    {
      ptr := None;
    }

    /** Load: the last stored snapshot, or None before any Store; the register is not changed. */
    method Load() returns (cs: Option<ContentStore>)
      ensures cs == ptr
    {
      cs := ptr;
    }

    /** Store: replaces the published snapshot wholesale. */
    method Store(cs: Option<ContentStore>)
      modifies this
      ensures ptr == cs
    {
      ptr := cs;
    }
  }

  /** A fresh store loads nil. */
  method FreshStoreIsEmpty() returns (got: Option<ContentStore>)
    ensures got == None
  {
    var s := new AtomicStore();
    got := s.Load();
  }

  /** Load returns exactly what was stored, and reading twice gives the same answer. */
  method LoadAfterStore(cs: ContentStore) returns (first: Option<ContentStore>, second: Option<ContentStore>)
    ensures first == Some(cs) && second == Some(cs)
  {
    var s := new AtomicStore();
    s.Store(Some(cs));
    first := s.Load();
    second := s.Load();
  }

  /** A later Store replaces the earlier one. */
  method LastStoreWins(a: ContentStore, b: ContentStore) returns (got: Option<ContentStore>)
    ensures got == Some(b)
  {
    var s := new AtomicStore();
    s.Store(Some(a));
    s.Store(Some(b));
    got := s.Load();
  }
}
