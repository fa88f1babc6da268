/** The undo-stack database the receiver keeps its tables in, by its contract: the current
    contents, one saved copy per uncommitted revision (oldest first) and a revision number. */
module Chainbase {

  datatype Db<T> = Db(current: T, stack: seq<T>, revision: int) {

    /** The newest revision that can no longer be undone. */
    function Floor(): int {
      revision - |stack|
    }

    /** Opening a session saves the current contents under a new revision. */
    function StartSession(): Db<T> {
      Db(current, stack + [current], revision + 1)
    }

    /** Going back one revision; nothing happens when there is nothing to undo. */
    function Undo(): Db<T> {
      if stack == [] then this
      else Db(stack[|stack| - 1], stack[..|stack| - 1], revision - 1)
    }

    /** Going back n revisions, one by one. */
    function UndoTimes(n: nat): Db<T> {
      if n == 0 then this else UndoTimes(n - 1).Undo()
    }

    /** Making every revision up to r permanent: only the copies newer than r stay. */
    function Commit(r: int): Db<T> {
      var keep := if revision <= r then 0 else revision - r;
      if keep < |stack| then this.(stack := stack[|stack| - keep..]) else this
    }

    /** The revision may be moved only without undo copies, and never backwards. */
    predicate CanSetRevision(r: int) {
      stack == [] && revision <= r
    }

    /** The database as it was at revision r, in one move. */
    function RollbackTo(r: int): (back: Db<T>)
      requires Floor() <= r <= revision
      ensures back.revision == r && back.Floor() == Floor()
    {
      var k := r - Floor();
      if r == revision then this else Db(stack[k], stack[..k], r)
    }
  }

  /** One more undo after a rollback is the rollback to one revision less. */
  lemma UndoAfterRollback<T>(db: Db<T>, r: int)
    requires db.Floor() < r <= db.revision
    ensures db.RollbackTo(r).Undo() == db.RollbackTo(r - 1)
  {
    var k := r - db.Floor();
    if r < db.revision {
      assert db.stack[..k][..k - 1] == db.stack[..k - 1];
    }
  }

  /** Undoing one by one is one rollback. */
  lemma {:induction false} UndoIsRollback<T>(db: Db<T>, n: nat)
    requires n <= |db.stack|
    ensures db.UndoTimes(n) == db.RollbackTo(db.revision - n)
  {
    if 0 < n {
      UndoIsRollback(db, n - 1);
      UndoAfterRollback(db, db.revision - (n - 1));
    }
  }
}
