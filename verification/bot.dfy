/** The bot as a whole: python-telegram-bot keeps one `user_data` dictionary per
    user id, and each update runs the wizard step of its sender only. */
module Bot {
  import opened Wrappers
  import Wizard
  import Ledger

  /** Every user's `user_data['categoria']`; a user without an entry has no category. */
  datatype Store = Store(categories: map<int, string>)

  function SessionOf(store: Store, userId: int): Wizard.Session {
    if userId in store.categories then Some(store.categories[userId]) else None
  }

  /** Stores a user's session: sets the entry, or removes it (`user_data.clear()`). */
  function WithSession(store: Store, userId: int, s: Wizard.Session): (r: Store)
    ensures SessionOf(r, userId) == s
    ensures forall u | u != userId :: SessionOf(r, u) == SessionOf(store, u)
  {
    match s
    case Some(key) => Store(store.categories[userId := key])
    case None => Store(store.categories - {userId})
  }

  /** The store after an update, and the response it produced. */
  datatype Outcome = Outcome(store: Store, response: Wizard.Response)

  /** Runs one update from `userId` against that user's session. */
  function Dispatch(v: Wizard.Variant, store: Store, userId: int, e: Wizard.Event,
                    clock: Ledger.Clock, sheet: Ledger.Sheet): (r: Outcome)
    ensures r.response == Wizard.Step(v, SessionOf(store, userId), userId, e, clock, sheet)
    ensures SessionOf(r.store, userId) == r.response.session
    ensures forall u | u != userId :: SessionOf(r.store, u) == SessionOf(store, u)
  {
    var response := Wizard.Step(v, SessionOf(store, userId), userId, e, clock, sheet);
    Outcome(WithSession(store, userId, response.session), response)
  }

  /** Clearing a session that is already clear changes nothing. */
  lemma ClearIsIdempotent(store: Store, userId: int)
    ensures WithSession(WithSession(store, userId, None), userId, None) == WithSession(store, userId, None)
    ensures SessionOf(WithSession(store, userId, None), userId) == None
  {
  }

  /** Updates from two different users commute: neither sees the other's session. */
  lemma DistinctUsersCommute(v: Wizard.Variant, store: Store, u1: int, e1: Wizard.Event,
                             u2: int, e2: Wizard.Event, clock: Ledger.Clock, sheet: Ledger.Sheet)
    requires u1 != u2
    ensures var a := Dispatch(v, store, u1, e1, clock, sheet);
      var b := Dispatch(v, store, u2, e2, clock, sheet);
      && Dispatch(v, a.store, u2, e2, clock, sheet).response == b.response
      && Dispatch(v, b.store, u1, e1, clock, sheet).response == a.response
      && Dispatch(v, a.store, u2, e2, clock, sheet).store == Dispatch(v, b.store, u1, e1, clock, sheet).store
  {
    var a := Dispatch(v, store, u1, e1, clock, sheet);
    var b := Dispatch(v, store, u2, e2, clock, sheet);
    var ab := Dispatch(v, a.store, u2, e2, clock, sheet);
    var ba := Dispatch(v, b.store, u1, e1, clock, sheet);
    assert ab.store.categories == ba.store.categories;
  }
}
