/**
 * `utils/tx.js`: runs a callback inside a database transaction, committing when the callback
 * succeeds and rolling back, then rethrowing, when the callback or the commit fails.
 */
module Tx {
  import opened Wrappers

  /** What happens to the transaction, in order; every event names the transaction it concerns. */
  datatype Event = Begin(tx: nat) | RunCallback(tx: nat) | Commit(tx: nat) | Rollback(tx: nat)

  /**
   * A store whose committed state is `committed`. The work of a callback is a function from the
   * state it sees inside the transaction to the state it leaves, or the error it throws.
   */
  class Store<S> {
    var committed: S
    var log: seq<Event>
    var nextTx: nat

    constructor (initial: S)
      ensures committed == initial && log == [] && nextTx == 0
    {
      committed := initial;
      log := [];
      nextTx := 0;
    }

    /**
     * The wrapper. `commitError` and `rollbackError` say whether the database refuses the commit or
     * the rollback. The callback's own return value is not passed on: success is `Ok(())`.
     */
    method WithTransaction(work: (S, nat) -> Result<S>, commitError: Option<Failure>, rollbackError: Option<Failure>)
      returns (outcome: Result<()>)
      modifies this
      ensures var tx := old(nextTx); var result := work(old(committed), tx);
        && nextTx == tx + 1
        // success: the callback's writes become the committed state, and nothing is rolled back
        && (result.Ok? && commitError.None? ==>
              outcome == Ok(()) && committed == result.value
              && log == old(log) + [Begin(tx), RunCallback(tx), Commit(tx)])
        // the callback throws: no commit is attempted, the store is unchanged and the error rethrown
        && (result.Err? ==>
              committed == old(committed)
              && log == old(log) + [Begin(tx), RunCallback(tx), Rollback(tx)]
              && outcome == Err(if rollbackError.Some? then rollbackError.value else result.error))
        // the commit fails: rolled back, unchanged, and the commit's error rethrown
        && (result.Ok? && commitError.Some? ==>
              committed == old(committed)
              && log == old(log) + [Begin(tx), RunCallback(tx), Commit(tx), Rollback(tx)]
              && outcome == Err(if rollbackError.Some? then rollbackError.value else commitError.value))
    {
      var tx := nextTx;
      nextTx := nextTx + 1;
      log := log + [Begin(tx)];
      log := log + [RunCallback(tx)];
      var result := work(committed, tx);
      var failure: Option<Failure> := None;
      if result.Err? {
        failure := Some(result.error);
      } else {
        log := log + [Commit(tx)];
        if commitError.Some? {
          failure := commitError;
        } else {
          committed := result.value;
        }
      }
      if failure.Some? {
        log := log + [Rollback(tx)];
        if rollbackError.Some? {
          return Err(rollbackError.value);
        }
        return Err(failure.value);
      }
      outcome := Ok(());
    }
  }
}
