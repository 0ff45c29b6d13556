/** app/database/dependencies.py: get_db, which gives every request a session of its own on the committed tables,
    commits it when the request returns and rolls it back when anything raises. */
module Transactions {
  import opened Claims
  import opened Tables
  import opened Runs
  import opened Observations
  import opened Database
  import opened Application

  /** The database behind the sessions: its committed tables. */
  class Connection {
    const settings: Settings
    var durable: Store

    ghost predicate Valid()
      reads this
    {
      IdentifiersDrawn(durable)
    }

    /** A new database. */
    constructor (settings: Settings)
      ensures Valid() && this.settings == settings && durable == Run(settings, []).store
    {
      this.settings, durable := settings, EMPTY_STORE;
    }

    /** Everything the session's objects hold becomes durable. */
    method Commit(db: Session)
      requires db.Valid()
      modifies this
      ensures Valid() && durable == db.Model()
    {
      durable := db.Flush();
    }

    /** Nothing the session's objects hold becomes durable; only the identifiers drawn meanwhile stay drawn. */
    method Rollback(db: Session)
      requires Valid() && durable.drawn <= db.drawn
      modifies this
      ensures Valid() && SameTables(durable, old(durable)) && durable.drawn == db.drawn
    {
      durable := durable.(drawn := db.drawn);
    }

    /** One request, served by the services on a session of its own: whatever the request and however it ends, the
        durable store moves as the state machine does and the caller gets its reply. The session's objects carry every
        write that the services made before they raised; none of those outlives a rollback. */
    method ServeRequest(request: Request) returns (reply: Reply)
      requires Valid()
      modifies this
      ensures Valid()
      ensures durable == Serve(settings, old(durable), request).store
      ensures reply == Serve(settings, old(durable), request).reply
      ensures IsDurable(request, reply) ==>
        durable == Handle(settings, old(durable), request.call, request.now, request.jwtClock).0
      ensures !IsDurable(request, reply) ==> SameTables(durable, old(durable))
    {
      DurableOutcome(settings, durable, request);
      DrawsOnlyGrow(settings, durable, request.call, request.now, request.jwtClock);
      hide Handle, Session.Valid, IdentifiersDrawn;
      var db := new Session(durable);
      var services := new Services(settings, db);
      reply := services.Dispatch(request.call, request.now, request.jwtClock);
      if request.ending.Transaction? && (reply.Raised? || request.ending.laterFailure) {
        Rollback(db);
      } else {
        Commit(db);
      }
    }

    /** Hence a database that has served any requests holds the store of their run, and serving one more leaves the
        store and gives the reply of the longer run. */
    method ServeNext(request: Request, ghost requests: seq<Request>) returns (reply: Reply)
      requires Valid() && durable == Run(settings, requests).store
      modifies this
      ensures Valid() && durable == Run(settings, requests + [request]).store
      ensures reply == Run(settings, requests + [request]).history[|requests|].reply
    {
      hide Session.Valid, IdentifiersDrawn, Handle, Run;
      RunExtends(settings, requests, request);
      reply := ServeRequest(request);
    }
  }

  /** The service from a new database on: serving any requests one after the other leaves the store of their run, and
      every caller gets the reply that the run records. */
  method ServeAll(settings: Settings, requests: seq<Request>) returns (connection: Connection, replies: seq<Reply>)
    ensures fresh(connection) && connection.Valid() && connection.settings == settings
    ensures connection.durable == Run(settings, requests).store
    ensures |replies| == |requests|
    ensures forall i | 0 <= i < |requests| :: replies[i] == Run(settings, requests).history[i].reply
  {
    hide Run, IdentifiersDrawn;
    connection := new Connection(settings);
    replies := [];
    for k := 0 to |requests|
      invariant fresh(connection) && connection.Valid() && connection.settings == settings
      invariant connection.durable == Run(settings, requests[..k]).store && |replies| == k
      invariant forall i | 0 <= i < k :: replies[i] == Run(settings, requests).history[i].reply
    {
      assert requests[..k + 1] == requests[..k] + [requests[k]];
      HistoryPrefix(settings, requests, k + 1);
      var reply := connection.ServeNext(requests[k], requests[..k]);
      replies := replies + [reply];
    }
    assert requests[..|requests|] == requests;
  }
}
