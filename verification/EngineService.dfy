/** The engine service and its session store as the objects they are: tables changed in place,
    one atomic step at a time, each step proved to be the protocol's. */
module EngineService {
  import opened Wrappers
  import opened Engine

  /** One row per active session, whatever process holds it. */
  class ActiveSessionStore {
    var rows: map<Session, Live>

    constructor ()
      ensures rows == map[]
    {
      rows := map[];
    }

    /** Startup forgets every session an earlier process left behind. */
    method Reset()
      modifies this
      ensures rows == map[]
    {
      rows := map[];
    }

    /** Inserting is the lock: it fails when the session has a row. */
    method Claim(session: Session, message: MessageId, run: RunId) returns (ok: bool)
      modifies this
      ensures ok == (session !in old(rows))
      ensures rows == if ok then old(rows)[session := Live(message, run)] else old(rows)
    {
      if session in rows {
        return false;
      }
      rows := rows[session := Live(message, run)];
      return true;
    }

    method Release(session: Session)
      modifies this
      ensures rows == old(rows) - {session}
    {
      rows := rows - {session};
    }
  }

  class EngineService {
    const store: ActiveSessionStore
    // the live run of each session, and the run waiting for its acknowledgement
    var runs: map<Session, Live>
    var waiters: map<Session, Live>
    var aborted: set<Session>
    // the tasks handling requests, and everything published
    var handlers: map<RunId, Handler>
    var log: seq<Event>
    ghost var progress: map<RunId, Option<Progress>>

    constructor ()
      ensures View() == INITIAL && fresh(store)
    {
      store := new ActiveSessionStore();
      runs, waiters, aborted, handlers, log, progress := map[], map[], {}, map[], [], map[];
    }

    ghost function View(): State
      reads this, store
    {
      State(store.rows, runs, waiters, aborted, handlers, log, progress)
    }

    method Publish(e: Event)
      modifies this`log, this`progress
      ensures View() == Emit(old(View()), e)
    {
      progress := progress[e.run := Extend(ProgressOf(View(), e.run), e)];
      log := log + [e];
    }

    /** The synchronous part of a handler's final block. */
    method Leave(t: RunId)
      requires t in handlers
      modifies this`runs, this`waiters, this`aborted, this`handlers
      ensures View() == Finalize(old(View()), t, old(handlers)[t])
    {
      var h := handlers[t];
      runs := runs - {h.session};
      aborted := aborted - {h.session};
      waiters := waiters - {h.session};
      handlers := handlers[t := h.(pc := if PingAlive(h) then CleaningPing else Releasing, cancelRequested := false)];
    }

    /** The claim, the registration, and the token: without one the run is already leaving. */
    method Claim(t: RunId, minted: bool)
      requires t in handlers && handlers[t].pc.Claiming?
      modifies this`runs, this`waiters, this`aborted, this`handlers, store
      ensures View() == ClaimStep(old(View()), t, old(handlers)[t], minted)
    {
      var h := handlers[t];
      var claimed := store.Claim(h.session, h.message, t);
      if !claimed {
        handlers := handlers[t := h.(pc := Ended)];
        return;
      }
      runs := runs[h.session := Live(h.message, t)];
      if !minted {
        Leave(t);
        return;
      }
      waiters := waiters[h.session := Live(h.message, t)];
      handlers := handlers[t := h.(pc := Acknowledging(false))];
    }

    method AckResponse(session: Session, message: MessageId)
      modifies this`handlers, this`log, this`progress
      ensures View() == AckStep(old(View()), session, message)
    {
      if session !in waiters || waiters[session].message != message || waiters[session].run !in handlers {
        return;
      }
      var t := waiters[session].run;
      handlers := handlers[t := handlers[t].(acked := true)];
      Publish(AckSeen(t, message));
    }

    method Abort(session: Session, message: MessageId)
      modifies this`aborted, this`handlers
      ensures View() == AbortStep(old(View()), session, message)
    {
      if session !in runs || runs[session].message != message || runs[session].run !in handlers {
        return;
      }
      aborted := aborted + {session};
      var t := runs[session].run;
      if !handlers[t].pc.CancellingPing? || !PingAlive(handlers[t]) {
        handlers := handlers[t := handlers[t].(cancelRequested := true)];
      }
    }

    /** The acknowledgement wait ends and the pings begin. */
    method Accept(t: RunId) returns (ok: bool)
      requires t in handlers
      modifies this`waiters, this`handlers
      ensures var next := AcceptStep(old(View()), t, old(handlers)[t]);
              ok == next.Some? && View() == if ok then next.value else old(View())
    {
      var h := handlers[t];
      ok := h.pc.WaitingAck? && h.acked && !h.cancelRequested;
      if ok {
        waiters := waiters - {h.session};
        handlers := handlers[t := h.(pc := Streaming, ping := Sleeping)];
      }
    }

    method Release(t: RunId) returns (ok: bool)
      requires t in handlers
      modifies this`handlers, store
      ensures var next := ReleaseStep(old(View()), t, old(handlers)[t]);
              ok == next.Some? && View() == if ok then next.value else old(View())
    {
      var h := handlers[t];
      ok := h.pc.Releasing?;
      if ok {
        store.Release(h.session);
        handlers := handlers[t := h.(pc := Ended)];
      }
    }

    /** A handler's own next step: it waits, goes on, perhaps publishing, or leaves. */
    method Advance(t: RunId, a: Action) returns (ok: bool)
      requires t in handlers
      modifies this`runs, this`waiters, this`aborted, this`handlers, this`log, this`progress
      ensures var next := MoveStep(old(View()), t, old(handlers)[t], a);
              ok == next.Some? && View() == if ok then next.value else old(View())
    {
      match Move(t, handlers[t], a)
      case Blocked =>
        return false;
      case Leaves =>
        Leave(t);
        return true;
      case Moved(h, shown) =>
        handlers := handlers[t := h];
        if shown.Some? {
          Publish(shown.value);
        }
        return true;
    }

    /** One atomic step is the protocol's, or does nothing because it cannot happen now. */
    method Perform(a: Action) returns (ok: bool)
      modifies this, store
      ensures var next := Apply(old(View()), a);
              ok == next.Some? && View() == if ok then next.value else old(View())
    {
      match a {
        case AckResponse(session, message) =>
          AckResponse(session, message);
          return true;
        case Abort(session, message) =>
          Abort(session, message);
          return true;
        case Request(t, session, message) =>
          if t in handlers { return false; }
          handlers := handlers[t := Handler(session, message, Claiming, NoPing, 0, false, 0, false, false)];
          return true;
        case _ =>
      }
      if a.run !in handlers { return false; }
      if a.Claim? {
        if !handlers[a.run].pc.Claiming? { return false; }
        Claim(a.run, a.minted);
        return true;
      }
      if a.AckAccepted? {
        ok := Accept(a.run);
      } else if a.Release? {
        ok := Release(a.run);
      } else {
        ok := Advance(a.run, a);
      }
    }

    /** Whatever is tried, in whatever order, the service stays in a reachable state. */
    method Serve(attempts: seq<Action>) returns (ghost done: seq<Action>)
      requires View() == INITIAL
      modifies this, store
      ensures After(done) == Some(View()) && Inv(View())
    {
      done := [];
      for i := 0 to |attempts|
        invariant After(done) == Some(View())
      {
        var ok := Perform(attempts[i]);
        if ok {
          assert (done + [attempts[i]])[..|done|] == done;
          done := done + [attempts[i]];
        }
      }
      Reachable(done);
    }
  }
}
