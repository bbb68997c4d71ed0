/** What becomes of aborts and of the final block, over every reachable state and continuation. */
module EngineAborts {
  import opened Wrappers
  import opened Engine

  // ---------- what an accepted abort does ----------

  /** Where a run of actions leads from a state. */
  function From(s: State, actions: seq<Action>): Option<State>
    decreases |actions|
  {
    if actions == [] then Some(s)
    else
      var next := Apply(s, actions[0]);
      if next.None? then None else From(next.value, actions[1..])
  }

  lemma FromStep(s: State, a: Action, next: State, rest: seq<Action>)
    requires Apply(s, a) == Some(next)
    ensures From(s, [a] + rest) == From(next, rest)
  {
    assert ([a] + rest)[1..] == rest;
  }

  ghost predicate FinishShown(log: seq<Event>, t: RunId) { exists e | e in log :: e.Finish? && e.run == t }

  /** Some continuation ends with the run's finish in the output. */
  ghost predicate MayFinish(s: State, t: RunId) {
    exists actions :: From(s, actions).Some? && FinishShown(From(s, actions).value.log, t)
  }

  /** Without a finish, and cancelled before any or past its last chance of one. */
  ghost predicate Doomed(s: State, t: RunId) {
    && t in s.handlers && !FinishShown(s.log, t)
    && var h := s.handlers[t];
    && (IsLive(h) ==> h.cancelRequested && !h.pc.CancellingPing? && !h.pc.PublishingFinish?)
    && !h.pc.Claiming?
  }

  lemma DoomedMove(t: RunId, h: Handler, a: Action)
    requires !h.pc.Claiming? && (IsLive(h) ==> h.cancelRequested && !h.pc.CancellingPing? && !h.pc.PublishingFinish?)
    requires Move(t, h, a).Moved?
    ensures var m := Move(t, h, a);
            && !m.handler.pc.Claiming? && (m.shown.Some? ==> !m.shown.value.Finish?)
            && (IsLive(m.handler) ==>
                  m.handler.cancelRequested && !m.handler.pc.CancellingPing? && !m.handler.pc.PublishingFinish?)
  {
  }

  lemma OtherMove(t: RunId, h: Handler, a: Action)
    requires Move(t, h, a).Moved? && Move(t, h, a).shown.Some?
    ensures Move(t, h, a).shown.value.run == t
  {
  }

  lemma EmitShows(s: State, e: Event, t: RunId)
    requires !FinishShown(s.log, t) && !(e.Finish? && e.run == t)
    ensures !FinishShown(Emit(s, e).log, t)
  {
  }

  lemma DoomedMoves(s: State, u: RunId, a: Action, t: RunId)
    requires Doomed(s, t) && u in s.handlers && MoveStep(s, u, s.handlers[u], a).Some?
    ensures Doomed(MoveStep(s, u, s.handlers[u], a).value, t)
  {
    var m := Move(u, s.handlers[u], a);
    if m.Moved? {
      if u == t { DoomedMove(t, s.handlers[t], a); }
      if m.shown.Some? {
        OtherMove(u, s.handlers[u], a);
        EmitShows(Put(s, u, m.handler), m.shown.value, t);
      }
    }
  }

  /** Nothing anyone does gives a doomed run a finish. */
  lemma DoomedStep(s: State, a: Action, t: RunId)
    requires Doomed(s, t) && Apply(s, a).Some?
    ensures Doomed(Apply(s, a).value, t)
  {
    if a.AckResponse? {
      if session :| session == a.session && session in s.waiters && s.waiters[session].run in s.handlers {
        EmitShows(s, AckSeen(s.waiters[session].run, a.message), t);
      }
    } else if !(a.Request? || a.Abort? || a.Claim? || a.AckAccepted? || a.Release?) {
      DoomedMoves(s, a.run, a, t);
    }
  }

  lemma {:induction false} DoomedStays(s: State, actions: seq<Action>, t: RunId)
    requires Doomed(s, t) && From(s, actions).Some?
    ensures !FinishShown(From(s, actions).value.log, t)
    decreases |actions|
  {
    if actions != [] {
      DoomedStep(s, actions[0], t);
      DoomedStays(Apply(s, actions[0]).value, actions[1..], t);
    }
  }

  lemma {:induction false} RunLogHas(log: seq<Event>, e: Event, t: RunId)
    ensures e in RunLog(log, t) <==> e in log && e.run == t
  {
    if log != [] {
      RunLogHas(log[..|log| - 1], e, t);
      assert log == log[..|log| - 1] + [log[|log| - 1]];
    }
  }

  /** A finish is in the output exactly when the run's progress says so. */
  lemma FinishedShown(schedule: seq<Action>, t: RunId)
    requires After(schedule).Some?
    ensures var s := After(schedule).value;
            ProgressOf(s, t).Some? && (ProgressOf(s, t).value.finished <==> FinishShown(s.log, t))
  {
    var s := After(schedule).value;
    OutputShape(schedule, t);
    var events := RunLog(s.log, t);
    ShapeFinished(events);
    if e :| e in s.log && e.Finish? && e.run == t {
      RunLogHas(s.log, e, t);
      var i :| 0 <= i < |events| && events[i] == e;
    }
    if i :| 0 <= i < |events| && events[i].Finish? {
      RunLogHas(s.log, events[i], t);
    }
  }

  lemma MoveOn(s: State, t: RunId, a: Action, h: Handler, rest: seq<Action>)
    requires t in s.handlers && (a == Cancelled(t) || a == PingStop(t) || a == Joined(t))
    requires Move(t, s.handlers[t], a) == Moved(h, None)
    ensures From(s, [a] + rest) == From(Put(s, t, h), rest)
  {
    assert Apply(s, a) == Some(Put(s, t, h));
    FromStep(s, a, Put(s, t, h), rest);
  }

  /** The actions can happen in that order and show the finish. */
  ghost predicate Finishes(s: State, actions: seq<Action>, t: RunId) {
    From(s, actions).Some? && FinishShown(From(s, actions).value.log, t)
  }

  lemma SendFinishes(s: State, t: RunId)
    requires t in s.handlers && s.handlers[t].pc == PublishingFinish(false)
    ensures Finishes(s, [Send(t)], t)
  {
    var h := s.handlers[t];
    var e := Finish(t, h.order - 1);
    var next := Emit(Put(s, t, h.(pc := PublishingFinish(true))), e);
    assert Apply(s, Send(t)) == Some(next);
    FromStep(s, Send(t), next, []);
    assert [Send(t)] + [] == [Send(t)];
    assert e in next.log;
  }

  lemma JoinFinishes(s: State, t: RunId)
    requires t in s.handlers && s.handlers[t].pc.CancellingPing?
    requires s.handlers[t].ping.Stopped? && !s.handlers[t].cancelRequested
    ensures Finishes(s, [Joined(t)] + [Send(t)], t)
  {
    var next := s.handlers[t].(pc := PublishingFinish(false));
    MoveOn(s, t, Joined(t), next, [Send(t)]);
    SendFinishes(Put(s, t, next), t);
  }

  lemma StopFinishes(s: State, t: RunId)
    requires t in s.handlers && s.handlers[t].pc.CancellingPing?
    requires PingAlive(s.handlers[t]) && !s.handlers[t].cancelRequested
    ensures Finishes(s, [PingStop(t)] + ([Joined(t)] + [Send(t)]), t)
  {
    var next := s.handlers[t].(ping := Stopped);
    MoveOn(s, t, PingStop(t), next, [Joined(t)] + [Send(t)]);
    JoinFinishes(Put(s, t, next), t);
  }

  lemma SwallowFinishes(s: State, t: RunId)
    requires t in s.handlers && s.handlers[t].pc.CancellingPing?
    requires !PingAlive(s.handlers[t]) && s.handlers[t].cancelRequested
    ensures Finishes(s, [Cancelled(t)] + [Send(t)], t)
  {
    var next := s.handlers[t].(pc := PublishingFinish(false), cancelRequested := false);
    MoveOn(s, t, Cancelled(t), next, [Send(t)]);
    SendFinishes(Put(s, t, next), t);
  }

  lemma LateAbortFinishes(s: State, t: RunId)
    requires t in s.handlers && (s.handlers[t].pc.CancellingPing? || s.handlers[t].pc == PublishingFinish(false))
    requires s.handlers[t].pc.CancellingPing? ==> (s.handlers[t].cancelRequested <==> !PingAlive(s.handlers[t]))
    ensures MayFinish(s, t)
  {
    if s.handlers[t].pc.PublishingFinish? {
      SendFinishes(s, t);
    } else if PingAlive(s.handlers[t]) {
      StopFinishes(s, t);
    } else {
      SwallowFinishes(s, t);
    }
  }

  /** In every reachable state: after an accepted abort the run's finish may still appear exactly
      when the run was already joining its ping or publishing the finish. */
  lemma AbortExact(schedule: seq<Action>, x: Session)
    requires After(schedule).Some? && x in After(schedule).value.runs
    ensures var s := After(schedule).value;
            var t := s.runs[x].run;
            && t in s.handlers
            && (MayFinish(AbortStep(s, x, s.runs[x].message), t) <==>
                  s.handlers[t].pc.CancellingPing? || s.handlers[t].pc.PublishingFinish?)
  {
    var s := After(schedule).value;
    Reachable(schedule);
    assert Sound(s, x);
    var t := s.runs[x].run;
    var h := s.handlers[t];
    assert Consistent(s, t, h);
    FinishedShown(schedule, t);
    var aborted := AbortStep(s, x, s.runs[x].message);
    if h.pc == PublishingFinish(true) {
      assert From(aborted, []) == Some(aborted);
    } else if h.pc.CancellingPing? || h.pc.PublishingFinish? {
      LateAbortFinishes(aborted, t);
    } else {
      assert Doomed(aborted, t);
      forall actions | From(aborted, actions).Some? ensures !FinishShown(From(aborted, actions).value.log, t) {
        DoomedStays(aborted, actions, t);
      }
    }
  }

  // ---------- an abort that is lost ----------

  /** One run up to the join of its ping. */
  const TO_STREAMING: seq<Action> :=
    [Request(0, 0, 0), Claim(0, true), Send(0), Sent(0), AckResponse(0, 0), AckAccepted(0)]
  const TO_JOINING: seq<Action> := TO_STREAMING + [Delta(0)] + [Send(0)] + [Sent(0)] + [StreamEnd(0)]

  ghost predicate Leads(schedule: seq<Action>, t: RunId, h: Handler) {
    After(schedule).Some? && t in After(schedule).value.handlers && After(schedule).value.handlers[t] == h
  }

  lemma AfterMore(schedule: seq<Action>, a: Action)
    ensures After(schedule + [a]) == if After(schedule).None? then None else Apply(After(schedule).value, a)
  {
    assert (schedule + [a])[..|schedule|] == schedule;
  }

  lemma MoveLeads(schedule: seq<Action>, t: RunId, h: Handler, a: Action)
    requires Leads(schedule, t, h) && Move(t, h, a).Moved?
    requires a == Delta(t) || a == Send(t) || a == Sent(t) || a == StreamEnd(t) || a == PingStop(t) || a == Joined(t)
    ensures Leads(schedule + [a], t, Move(t, h, a).handler)
    ensures Move(t, h, a).shown.Some? ==> Move(t, h, a).shown.value in After(schedule + [a]).value.log
  {
    AfterMore(schedule, a);
  }

  const WAITING := Handler(0, 0, Acknowledging(false), NoPing, 0, false, 0, false, false)
  const STREAMING := Handler(0, 0, Streaming, Sleeping, 0, false, 0, true, false)

  lemma ClaimReached()
    ensures var s := After([Request(0, 0, 0), Claim(0, true)]);
            && s.Some? && 0 in s.value.handlers && s.value.handlers[0] == WAITING
            && 0 in s.value.waiters && s.value.waiters[0] == Live(0, 0)
  {
    AfterMore([], Request(0, 0, 0));
    AfterMore([Request(0, 0, 0)], Claim(0, true));
    assert [] + [Request(0, 0, 0)] == [Request(0, 0, 0)];
    assert [Request(0, 0, 0)] + [Claim(0, true)] == [Request(0, 0, 0), Claim(0, true)];
  }

  lemma MoveWaits(schedule: seq<Action>, h: Handler, a: Action)
    requires Leads(schedule, 0, h) && Move(0, h, a).Moved? && (a == Send(0) || a == Sent(0))
    requires 0 in After(schedule).value.waiters && After(schedule).value.waiters[0] == Live(0, 0)
    ensures Leads(schedule + [a], 0, Move(0, h, a).handler)
    ensures 0 in After(schedule + [a]).value.waiters && After(schedule + [a]).value.waiters[0] == Live(0, 0)
  {
    AfterMore(schedule, a);
  }

  lemma StreamingReached()
    ensures Leads(TO_STREAMING, 0, STREAMING)
  {
    ClaimReached();
    var a := [Request(0, 0, 0), Claim(0, true)];
    MoveWaits(a, WAITING, Send(0));
    MoveWaits(a + [Send(0)], WAITING.(pc := Acknowledging(true)), Sent(0));
    var b := a + [Send(0)] + [Sent(0)];
    AfterMore(b, AckResponse(0, 0));
    AfterMore(b + [AckResponse(0, 0)], AckAccepted(0));
    assert b + [AckResponse(0, 0)] + [AckAccepted(0)] == TO_STREAMING;
  }

  lemma JoiningReached()
    ensures Leads(TO_JOINING, 0, JOINING)
  {
    StreamingReached();
    var h := STREAMING.(pc := PublishingPartial(false), emitted := true);
    MoveLeads(TO_STREAMING, 0, STREAMING, Delta(0));
    MoveLeads(TO_STREAMING + [Delta(0)], 0, h, Send(0));
    MoveLeads(TO_STREAMING + [Delta(0)] + [Send(0)], 0, h.(pc := PublishingPartial(true)), Sent(0));
    MoveLeads(TO_STREAMING + [Delta(0)] + [Send(0)] + [Sent(0)], 0, h.(pc := Streaming, order := 1), StreamEnd(0));
  }

  const JOINING := STREAMING.(pc := CancellingPing, order := 1, emitted := true)

  lemma AbortAccepted()
    ensures Leads(TO_JOINING + [Abort(0, 0)], 0, JOINING)
    ensures var s := After(TO_JOINING); s.Some? && 0 in s.value.runs && s.value.runs[0] == Live(0, 0)
  {
    JoiningReached();
    Reachable(TO_JOINING);
    assert Registered(After(TO_JOINING).value, 0, JOINING);
    AfterMore(TO_JOINING, Abort(0, 0));
  }

  /** A whole history in which an abort is accepted and the finish is published after it. */
  lemma AbortLost()
    ensures var s := After(TO_JOINING);
            s.Some? && 0 in s.value.runs && s.value.runs[0] == Live(0, 0) && !FinishShown(s.value.log, 0)
    ensures var s := After(TO_JOINING + [Abort(0, 0)] + [PingStop(0)] + [Joined(0)] + [Send(0)]);
            s.Some? && FinishShown(s.value.log, 0)
  {
    AbortAccepted();
    NotFinishedYet();
    FinishReached();
  }

  lemma FinishReached()
    ensures var s := After(TO_JOINING + [Abort(0, 0)] + [PingStop(0)] + [Joined(0)] + [Send(0)]);
            s.Some? && FinishShown(s.value.log, 0)
  {
    StoppedReached();
    var a := TO_JOINING + [Abort(0, 0)] + [PingStop(0)];
    var h := JOINING.(ping := Stopped);
    MoveLeads(a, 0, h, Joined(0));
    MoveLeads(a + [Joined(0)], 0, h.(pc := PublishingFinish(false)), Send(0));
  }

  lemma StoppedReached()
    ensures Leads(TO_JOINING + [Abort(0, 0)] + [PingStop(0)], 0, JOINING.(ping := Stopped))
  {
    AbortAccepted();
    MoveLeads(TO_JOINING + [Abort(0, 0)], 0, JOINING, PingStop(0));
  }

  lemma NotFinishedYet()
    ensures After(TO_JOINING).Some? && !FinishShown(After(TO_JOINING).value.log, 0)
  {
    JoiningReached();
    Reachable(TO_JOINING);
    assert Consistent(After(TO_JOINING).value, 0, JOINING);
    FinishedShown(TO_JOINING, 0);
  }

  // ---------- the release of a session ----------

  /** The final block joins a ping that raised something of its own, or has given up on it. */
  predicate Stuck(h: Handler) { h.pc.Abandoned? || (h.pc.CleaningPing? && h.ping.Broken?) }

  predicate HeldBy(s: State, x: Session, t: RunId) { x in s.rows && s.rows[x].run == t }

  /** Some continuation ends without the run's row. */
  ghost predicate MayFree(s: State, x: Session, t: RunId) {
    exists actions :: From(s, actions).Some? && !HeldBy(From(s, actions).value, x, t)
  }

  lemma StepFrees(s: State, a: Action, next: State, x: Session, t: RunId)
    requires Apply(s, a) == Some(next) && MayFree(next, x, t)
    ensures MayFree(s, x, t)
  {
    var rest :| From(next, rest).Some? && !HeldBy(From(next, rest).value, x, t);
    FromStep(s, a, next, rest);
    assert From(s, [a] + rest) == From(next, rest);
  }

  lemma ReleasingFrees(s: State, t: RunId)
    requires t in s.handlers && s.handlers[t].pc.Releasing?
    ensures MayFree(s, s.handlers[t].session, t)
  {
    var next := ReleaseStep(s, t, s.handlers[t]).value;
    assert From(next, []) == Some(next);
    StepFrees(s, Release(t), next, s.handlers[t].session, t);
  }

  /** A ping being joined by the final block can stop, and then the row goes. */
  lemma CleaningFrees(s: State, t: RunId)
    requires t in s.handlers && s.handlers[t].pc.CleaningPing?
    requires !s.handlers[t].ping.Broken? && !s.handlers[t].cancelRequested
    ensures MayFree(s, s.handlers[t].session, t)
  {
    var h := s.handlers[t];
    if PingAlive(h) {
      var next := Put(s, t, h.(ping := Stopped));
      StoppedFrees(next, t);
      StepFrees(s, PingStop(t), next, h.session, t);
    } else {
      StoppedFrees(s, t);
    }
  }

  lemma StoppedFrees(s: State, t: RunId)
    requires t in s.handlers && s.handlers[t].pc.CleaningPing? && !PingAlive(s.handlers[t])
    requires !s.handlers[t].ping.Broken? && !s.handlers[t].cancelRequested
    ensures MayFree(s, s.handlers[t].session, t)
  {
    var next := Put(s, t, s.handlers[t].(pc := Releasing));
    ReleasingFrees(next, t);
    StepFrees(s, Joined(t), next, s.handlers[t].session, t);
  }

  lemma FinalizedFrees(s: State, t: RunId, h: Handler)
    ensures MayFree(Finalize(s, t, h), h.session, t)
  {
    if PingAlive(h) { CleaningFrees(Finalize(s, t, h), t); } else { ReleasingFrees(Finalize(s, t, h), t); }
  }

  /** Where a failure or a requested cancellation ends the run. */
  predicate CanLeave(h: Handler) {
    h.pc.Acknowledging? || h.pc.WaitingAck? || h.pc.Streaming? || h.pc.PublishingPartial? || h.pc.PublishingFinish?
  }

  lemma LeavingFrees(s: State, t: RunId)
    requires t in s.handlers && CanLeave(s.handlers[t])
    ensures MayFree(s, s.handlers[t].session, t)
  {
    var h := s.handlers[t];
    var a := if h.cancelRequested then Cancelled(t) else Fail(t, false);
    assert Move(t, h, a).Leaves?;
    FinalizedFrees(s, t, h);
    StepFrees(s, a, Finalize(s, t, h), h.session, t);
  }

  /** A run joining its ping goes on to its finish, whatever ended the ping. */
  lemma JoiningFrees(s: State, t: RunId)
    requires t in s.handlers && s.handlers[t].pc.CancellingPing?
    requires PingAlive(s.handlers[t]) ==> !s.handlers[t].cancelRequested
    ensures MayFree(s, s.handlers[t].session, t)
  {
    var h := s.handlers[t];
    if PingAlive(h) {
      var next := Put(s, t, h.(ping := Stopped));
      JoinedFrees(next, t);
      StepFrees(s, PingStop(t), next, h.session, t);
    } else {
      JoinedFrees(s, t);
    }
  }

  lemma JoinedFrees(s: State, t: RunId)
    requires t in s.handlers && s.handlers[t].pc.CancellingPing? && !PingAlive(s.handlers[t])
    ensures MayFree(s, s.handlers[t].session, t)
  {
    var h := s.handlers[t];
    if h.cancelRequested || !h.ping.Broken? {
      var a := if h.cancelRequested then Cancelled(t) else Joined(t);
      var next := Put(s, t, h.(pc := PublishingFinish(false), cancelRequested := false));
      assert Apply(s, a) == Some(next);
      LeavingFrees(next, t);
      StepFrees(s, a, next, h.session, t);
    } else {
      FinalizedFrees(s, t, h);
      StepFrees(s, Joined(t), Finalize(s, t, h), h.session, t);
    }
  }

  /** In every reachable state: the row a run holds can still be released exactly when its final
      block has not met a ping that raised something of its own. */
  lemma ReleaseExact(schedule: seq<Action>, t: RunId)
    requires After(schedule).Some?
    requires t in After(schedule).value.handlers && Holding(After(schedule).value.handlers[t])
    ensures var s := After(schedule).value;
            var h := s.handlers[t];
            && HeldBy(s, h.session, t)
            && (MayFree(s, h.session, t) <==> !(h.pc.Abandoned? || (h.pc.CleaningPing? && h.ping.Broken?)))
  {
    Reachable(schedule);
    var s := After(schedule).value;
    var h := s.handlers[t];
    assert Consistent(s, t, h) && Registered(s, t, h);
    if Stuck(h) {
      forall actions | From(s, actions).Some? ensures HeldBy(From(s, actions).value, h.session, t) {
        StuckStays(s, actions, t);
      }
    } else if h.pc.Releasing? {
      ReleasingFrees(s, t);
    } else if h.pc.CleaningPing? {
      CleaningFrees(s, t);
    } else if h.pc.CancellingPing? {
      JoiningFrees(s, t);
    } else {
      LeavingFrees(s, t);
    }
  }

  /** Once a final block has met such a ping, nothing anyone does releases its session. */
  lemma {:induction false} StuckStays(s: State, actions: seq<Action>, t: RunId)
    requires Inv(s) && t in s.handlers && Stuck(s.handlers[t]) && From(s, actions).Some?
    ensures HeldBy(From(s, actions).value, s.handlers[t].session, t)
    decreases |actions|
  {
    if actions == [] {
      assert Registered(s, t, s.handlers[t]);
    } else {
      StepKeeps(s, actions[0]);
      StuckStep(s, actions[0], t);
      StuckStays(Apply(s, actions[0]).value, actions[1..], t);
    }
  }

  /** Stuck the same way, or further. */
  ghost predicate StillStuck(s: State, t: RunId, x: Session) {
    t in s.handlers && Stuck(s.handlers[t]) && s.handlers[t].session == x
  }

  lemma StuckStep(s: State, a: Action, t: RunId)
    requires Inv(s) && Apply(s, a).Some? && t in s.handlers && Stuck(s.handlers[t])
    ensures StillStuck(Apply(s, a).value, t, s.handlers[t].session)
  {
    if a.AckResponse? || a.Abort? {
      StuckUnlisted(s, a.session, t);
    } else if a.Claim? || a.AckAccepted? || a.Release? {
      StuckTables(s, a, t);
    } else if !a.Request? {
      StuckMoves(s, a, t);
    }
  }

  lemma StuckUnlisted(s: State, x: Session, t: RunId)
    requires Inv(s) && t in s.handlers && Stuck(s.handlers[t])
    ensures x in s.waiters ==> s.waiters[x].run != t
    ensures x in s.runs ==> s.runs[x].run != t
  {
    assert Sound(s, x);
  }

  lemma StuckTables(s: State, a: Action, t: RunId)
    requires Apply(s, a).Some? && t in s.handlers && Stuck(s.handlers[t])
    requires a.Claim? || a.AckAccepted? || a.Release?
    ensures StillStuck(Apply(s, a).value, t, s.handlers[t].session)
  {
  }

  lemma StuckMoves(s: State, a: Action, t: RunId)
    requires Inv(s) && t in s.handlers && Stuck(s.handlers[t])
    requires !(a.Request? || a.Abort? || a.AckResponse?) && a.run in s.handlers
    requires MoveStep(s, a.run, s.handlers[a.run], a).Some?
    ensures StillStuck(MoveStep(s, a.run, s.handlers[a.run], a).value, t, s.handlers[t].session)
  {
    assert Consistent(s, t, s.handlers[t]);
    if a.run == t { StuckMove(t, s.handlers[t], a); }
  }

  lemma StuckMove(t: RunId, h: Handler, a: Action)
    requires Stuck(h) && !PingAlive(h) && !(a.Request? || a.Abort? || a.AckResponse?)
    ensures var m := Move(t, h, a); m.Blocked? || (m.Moved? && Stuck(m.handler) && m.handler.session == h.session)
  {
  }

  // ---------- a release that is lost ----------

  /** A run fails while streaming, and its ping, cancelled by the final block, raises something else. */
  const TO_ABANDONED: seq<Action> := TO_STREAMING + [Fail(0, false)] + [PingFail(0)] + [Joined(0)]

  const ABANDONED := STREAMING.(pc := Abandoned, ping := Broken)

  lemma PingFailLeads(schedule: seq<Action>, t: RunId, h: Handler)
    requires Leads(schedule, t, h) && PingAlive(h)
    ensures Leads(schedule + [PingFail(t)], t, h.(ping := Broken))
  {
    AfterMore(schedule, PingFail(t));
  }

  lemma FailLeads(schedule: seq<Action>, t: RunId, h: Handler)
    requires Leads(schedule, t, h) && Move(t, h, Fail(t, false)).Leaves?
    ensures Leads(schedule + [Fail(t, false)], t,
                  h.(pc := if PingAlive(h) then CleaningPing else Releasing, cancelRequested := false))
  {
    AfterMore(schedule, Fail(t, false));
  }

  lemma ReleaseLeads(schedule: seq<Action>, t: RunId, h: Handler)
    requires Leads(schedule, t, h) && h.pc.Releasing?
    ensures Leads(schedule + [Release(t)], t, h.(pc := Ended))
    ensures h.session !in After(schedule + [Release(t)]).value.rows
  {
    AfterMore(schedule, Release(t));
  }

  lemma AbandonedReached()
    ensures Leads(TO_ABANDONED, 0, ABANDONED)
  {
    StreamingReached();
    FailLeads(TO_STREAMING, 0, STREAMING);
    var a, h := TO_STREAMING + [Fail(0, false)], STREAMING.(pc := CleaningPing);
    PingFailLeads(a, 0, h);
    MoveLeads(a + [PingFail(0)], 0, h.(ping := Broken), Joined(0));
  }

  /** A whole history after which nothing releases the session, so that every later claim of it fails. */
  lemma ReleaseLost()
    ensures Leads(TO_ABANDONED, 0, ABANDONED)
    ensures forall later | From(After(TO_ABANDONED).value, later).Some? ::
              HeldBy(From(After(TO_ABANDONED).value, later).value, 0, 0)
  {
    AbandonedReached();
    Reachable(TO_ABANDONED);
    forall later | From(After(TO_ABANDONED).value, later).Some?
      ensures HeldBy(From(After(TO_ABANDONED).value, later).value, 0, 0)
    {
      StuckStays(After(TO_ABANDONED).value, later, 0);
    }
  }

  /** A ping that raises before the final block joins it costs nothing: the row goes. */
  lemma BrokenPingReleased()
    ensures var schedule := TO_STREAMING + [PingFail(0)] + [Fail(0, false)] + [Release(0)];
            && Leads(schedule, 0, STREAMING.(pc := Ended, ping := Broken))
            && 0 !in After(schedule).value.rows
  {
    StreamingReached();
    PingFailLeads(TO_STREAMING, 0, STREAMING);
    var a, h := TO_STREAMING + [PingFail(0)], STREAMING.(ping := Broken);
    FailLeads(a, 0, h);
    ReleaseLeads(a + [Fail(0, false)], 0, h.(pc := Releasing));
  }
}
