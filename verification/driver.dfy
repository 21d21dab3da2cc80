/**
 * The JDBC driver, seen from the outside: the calls the access layer makes on a
 * connection and its statements are recorded, in order, as events of a trace.
 */
module Driver {

  import opened DbTypes
  import opened Holders

  datatype Event =
    | SetAutoCommit(on: bool)   // Connection.setAutoCommit
    | Prepare(sql: string)      // Connection.prepareStatement
    | Execute(sql: string)      // Statement.execute of a complete statement
    | AddSql(sql: string)       // Statement.addBatch(sql)
    | Bound(b: Bind)            // a parameter bound on the prepared statement
    | AddBatch                  // PreparedStatement.addBatch(): one batch entry
    | ExecuteBatch              // Statement.executeBatch
    | ExecuteQuery              // PreparedStatement.executeQuery
    | CloseStatement            // Statement.close
    | Commit                    // Connection.commit
    | Rollback                  // Connection.rollback

  /** The number of `ExecuteBatch` events in a trace. */
  function Flushes(trace: seq<Event>): nat {
    if |trace| == 0 then 0
    else Flushes(trace[..|trace| - 1]) + (if trace[|trace| - 1] == ExecuteBatch then 1 else 0)
  }

  lemma {:induction false} FlushesConcat(a: seq<Event>, b: seq<Event>)
    ensures Flushes(a + b) == Flushes(a) + Flushes(b)
    decreases |b|
  {
    if |b| > 0 {
      assert (a + b)[..|a + b| - 1] == a + b[..|b| - 1];
      FlushesConcat(a, b[..|b| - 1]);
    } else {
      assert a + b == a;
    }
  }

  /** Every holder bound to its slot, 1 to n, in order. */
  function Binds(hs: seq<Holder>): (evs: seq<Event>)
    ensures |evs| == |hs| && forall i :: 0 <= i < |hs| ==> evs[i] == Bound(Store(hs[i], i + 1))
  {
    seq(|hs|, i requires 0 <= i < |hs| => Bound(Store(hs[i], i + 1)))
  }

  /** A trace without an `ExecuteBatch` event flushes nothing. */
  lemma {:induction false} NoFlushes(evs: seq<Event>)
    requires ExecuteBatch !in evs
    ensures Flushes(evs) == 0
    decreases |evs|
  {
    if |evs| > 0 {
      assert evs[|evs| - 1] in evs;
      assert forall e :: e in evs[..|evs| - 1] ==> e in evs;
      NoFlushes(evs[..|evs| - 1]);
    }
  }

  lemma {:induction false} BindsNoFlush(hs: seq<Holder>)
    ensures Flushes(Binds(hs)) == 0
  {
    NoFlushes(Binds(hs));
  }
}
