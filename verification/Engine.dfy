/** The engine's run protocol, as every interleaving of requests, acknowledgements, aborts,
    upstream progress and failures. One action is what one task does between two awaits. */
module Engine {
  import opened Wrappers

  type Session = nat
  type MessageId = nat
  type RunId = nat

  const ATTEMPTS := 3

  /** Where a handler stands. `sent` says whether the publication it awaits is already visible. */
  datatype Pc =
    | Claiming
    | Acknowledging(sent: bool)
    | WaitingAck
    | Streaming
    | PublishingPartial(sent: bool)
    | CancellingPing
    | PublishingFinish(sent: bool)
    | CleaningPing
    | Releasing
    | Ended
    | Abandoned

  /** A ping that is over was cancelled, or raised something of its own. */
  datatype PingState = NoPing | Sleeping | Pinging(sent: bool) | Stopped | Broken

  datatype Handler = Handler(
    session: Session, message: MessageId, pc: Pc, ping: PingState,
    order: nat, emitted: bool, attempt: nat, acked: bool, cancelRequested: bool)

  /** What becomes visible outside, tagged with the run it belongs to; `AckSeen` is an incoming
      acknowledgement that the service accepted for that run. */
  datatype Event =
    | Acknowledge(run: RunId) | AckSeen(run: RunId, message: MessageId)
    | Partial(run: RunId, order: nat) | Ping(run: RunId) | Finish(run: RunId, last: int)

  datatype Live = Live(message: MessageId, run: RunId)

  /** How far a run's output got. */
  datatype Progress = Progress(acked: bool, partials: nat, finished: bool)

  /** The store's rows (tagged with the run that claimed them), the service's tables, and the
      output so far with, for each run that produced any, how far it got. */
  datatype State = State(
    rows: map<Session, Live>, runs: map<Session, Live>, waiters: map<Session, Live>,
    aborted: set<Session>, handlers: map<RunId, Handler>, log: seq<Event>, progress: map<RunId, Option<Progress>>)

  const INITIAL := State(map[], map[], map[], {}, map[], [], map[])

  datatype Action =
    | Request(run: RunId, session: Session, message: MessageId)
    | Claim(run: RunId, minted: bool)
    | Send(run: RunId)
    | Sent(run: RunId)
    | AckResponse(session: Session, message: MessageId)
    | AckAccepted(run: RunId)
    | Delta(run: RunId)
    | StreamEnd(run: RunId)
    | Fail(run: RunId, retryable: bool)
    | PingWake(run: RunId)
    | PingSend(run: RunId)
    | PingSent(run: RunId)
    | PingStop(run: RunId)
    | PingFail(run: RunId)
    | Abort(session: Session, message: MessageId)
    | Cancelled(run: RunId)
    | Joined(run: RunId)
    | Release(run: RunId)

  // ---------- the steps ----------

  function Put(s: State, t: RunId, h: Handler): State { s.(handlers := s.handlers[t := h]) }

  const SILENT := Progress(false, 0, false)

  /** The one acceptable shape of a run's output: partials and pings only after an accepted
      acknowledgement, partials numbered 0, 1, 2, ..., a finish naming the last of them, and
      after the finish nothing. None once the output has any other shape. */
  function Extend(p: Option<Progress>, e: Event): Option<Progress> {
    if p.None? || p.value.finished then None
    else
      match e
      case Acknowledge(_) => if p.value.partials == 0 then p else None
      case AckSeen(_, _) => Some(p.value.(acked := true))
      case Partial(_, order) =>
        if p.value.acked && order == p.value.partials then Some(p.value.(partials := order + 1)) else None
      case Ping(_) => if p.value.acked then p else None
      case Finish(_, last) =>
        if p.value.partials > 0 && last == p.value.partials - 1 then Some(p.value.(finished := true)) else None
  }

  function ProgressOf(s: State, t: RunId): Option<Progress> { if t in s.progress then s.progress[t] else Some(SILENT) }

  function Emit(s: State, e: Event): State {
    s.(log := s.log + [e], progress := s.progress[e.run := Extend(ProgressOf(s, e.run), e)])
  }

  predicate PingAlive(h: Handler) { h.ping.Sleeping? || h.ping.Pinging? }

  /** The synchronous part of the handler's final block. */
  function Finalize(s: State, t: RunId, h: Handler): State {
    Put(s, t, h.(pc := if PingAlive(h) then CleaningPing else Releasing, cancelRequested := false))
      .(runs := s.runs - {h.session}, waiters := s.waiters - {h.session}, aborted := s.aborted - {h.session})
  }

  function ClaimStep(s: State, t: RunId, h: Handler, minted: bool): State {
    if h.session in s.rows then
      Put(s, t, h.(pc := Ended))
    else
      var live := Live(h.message, t);
      var claimed := s.(rows := s.rows[h.session := live], runs := s.runs[h.session := live]);
      if !minted then Finalize(claimed, t, h)
      else Put(claimed, t, h.(pc := Acknowledging(false)))
             .(waiters := claimed.waiters[h.session := Live(h.message, t)])
  }

  // Steps of one handler alone: it moves, perhaps showing an event, or leaves for its final block.

  datatype Outcome = Blocked | Moved(handler: Handler, shown: Option<Event>) | Leaves

  /** A publication under way becomes visible. */
  function SendMove(t: RunId, h: Handler): Outcome {
    match h.pc
    case Acknowledging(false) => Moved(h.(pc := Acknowledging(true)), Some(Acknowledge(t)))
    case PublishingPartial(false) => Moved(h.(pc := PublishingPartial(true)), Some(Partial(t, h.order)))
    case PublishingFinish(false) => Moved(h.(pc := PublishingFinish(true)), Some(Finish(t, h.order - 1)))
    case _ => Blocked
  }

  /** A visible publication returns to its awaiter. */
  function SentMove(h: Handler): Outcome {
    match h.pc
    case Acknowledging(true) => Moved(h.(pc := WaitingAck), None)
    case PublishingPartial(true) => Moved(h.(pc := Streaming, order := h.order + 1), None)
    case PublishingFinish(true) => Leaves
    case _ => Blocked
  }

  /** A publication, the wait for the acknowledgement or the stream raises. Only a stream that
      has produced nothing is tried again. */
  function FailMove(h: Handler, retryable: bool): Outcome {
    match h.pc
    case Acknowledging(_) => Leaves
    case WaitingAck => Leaves
    case PublishingFinish(_) => Leaves
    case PublishingPartial(_) => Leaves
    case Streaming =>
      if retryable && !h.emitted && h.attempt + 1 < ATTEMPTS then Moved(h.(attempt := h.attempt + 1), None) else Leaves
    case _ => Blocked
  }

  function StreamMove(h: Handler, delta: bool): Outcome {
    if !h.pc.Streaming? then Blocked
    else if delta then Moved(h.(pc := PublishingPartial(false), emitted := true), None)
    else if !h.emitted then Leaves
    else Moved(h.(pc := if PingAlive(h) then CancellingPing else PublishingFinish(false)), None)
  }

  /** A requested cancellation reaches the await. While the ping is being joined it is taken for
      the ping's own cancellation and swallowed. */
  function CancelMove(h: Handler): Outcome {
    if !h.cancelRequested then Blocked
    else
      match h.pc
      case Acknowledging(_) => Leaves
      case WaitingAck => Leaves
      case Streaming => Leaves
      case PublishingPartial(_) => Leaves
      case PublishingFinish(_) => Leaves
      case CancellingPing =>
        Moved(h.(pc := if PingAlive(h) then h.pc else PublishingFinish(false), cancelRequested := false), None)
      case _ => Blocked
  }

  /** The cancelled ping has ended. When it raised something of its own, so does the join: the run
      leaves, and a final block is abandoned before its release. */
  function JoinMove(h: Handler): Outcome {
    if PingAlive(h) then Blocked
    else
      match h.pc
      case CancellingPing => if h.ping.Broken? then Leaves else Moved(h.(pc := PublishingFinish(false)), None)
      case CleaningPing => Moved(h.(pc := if h.ping.Broken? then Abandoned else Releasing), None)
      case _ => Blocked
  }

  function PingMove(t: RunId, h: Handler, a: Action): Outcome {
    if a.PingWake? then if h.ping.Sleeping? then Moved(h.(ping := Pinging(false)), None) else Blocked
    else if a.PingSend? then
      if h.ping == Pinging(false) then Moved(h.(ping := Pinging(true)), Some(Ping(t))) else Blocked
    else if a.PingSent? then if h.ping == Pinging(true) then Moved(h.(ping := Sleeping), None) else Blocked
    else if a.PingStop? then if PingAlive(h) then Moved(h.(ping := Stopped), None) else Blocked
    else if a.PingFail? then if PingAlive(h) then Moved(h.(ping := Broken), None) else Blocked
    else Blocked
  }

  /** The steps a handler takes by resuming: a requested cancellation is thrown in their place. */
  predicate Resumes(a: Action) { a.Sent? || a.Fail? || a.Delta? || a.StreamEnd? || a.Joined? }

  function Move(t: RunId, h: Handler, a: Action): Outcome {
    if h.cancelRequested && Resumes(a) then Blocked
    else
      match a
      case Send(_) => SendMove(t, h)
      case Sent(_) => SentMove(h)
      case Fail(_, retryable) => FailMove(h, retryable)
      case Delta(_) => StreamMove(h, true)
      case StreamEnd(_) => StreamMove(h, false)
      case Cancelled(_) => CancelMove(h)
      case Joined(_) => JoinMove(h)
      case _ => PingMove(t, h, a)
  }

  function MoveStep(s: State, t: RunId, h: Handler, a: Action): Option<State> {
    match Move(t, h, a)
    case Blocked => None
    case Leaves => Some(Finalize(s, t, h))
    case Moved(h', shown) => Some(if shown.Some? then Emit(Put(s, t, h'), shown.value) else Put(s, t, h'))
  }

  /** Only an acknowledgement for the waiting run's own message is accepted. */
  function AckStep(s: State, session: Session, message: MessageId): State {
    if session in s.waiters && s.waiters[session].message == message && s.waiters[session].run in s.handlers then
      var t := s.waiters[session].run;
      Emit(Put(s, t, s.handlers[t].(acked := true)), AckSeen(t, message))
    else s
  }

  /** Cancelling a run that is joining a live ping only cancels that ping once more. */
  function AbortStep(s: State, session: Session, message: MessageId): State {
    if session in s.runs && s.runs[session].message == message && s.runs[session].run in s.handlers then
      var t := s.runs[session].run;
      Put(s, t, Cancel(s.handlers[t])).(aborted := s.aborted + {session})
    else s
  }

  function Cancel(h: Handler): Handler {
    h.(cancelRequested := h.cancelRequested || !h.pc.CancellingPing? || !PingAlive(h))
  }

  function AcceptStep(s: State, t: RunId, h: Handler): Option<State> {
    if h.pc.WaitingAck? && h.acked && !h.cancelRequested
    then Some(Put(s, t, h.(pc := Streaming, ping := Sleeping)).(waiters := s.waiters - {h.session}))
    else None
  }

  function ReleaseStep(s: State, t: RunId, h: Handler): Option<State> {
    if h.pc.Releasing? then Some(Put(s, t, h.(pc := Ended)).(rows := s.rows - {h.session})) else None
  }

  /** The next state, or None when the action cannot happen now. */
  function Apply(s: State, a: Action): Option<State> {
    match a
    case Request(t, session, message) =>
      if t in s.handlers then None
      else Some(Put(s, t, Handler(session, message, Claiming, NoPing, 0, false, 0, false, false)))
    case AckResponse(session, message) => Some(AckStep(s, session, message))
    case Abort(session, message) => Some(AbortStep(s, session, message))
    case _ =>
      var t := a.run;
      if t !in s.handlers then None
      else
        var h := s.handlers[t];
        match a
        case Claim(_, minted) => if h.pc.Claiming? then Some(ClaimStep(s, t, h, minted)) else None
        case AckAccepted(_) => AcceptStep(s, t, h)
        case Release(_) => ReleaseStep(s, t, h)
        case _ => MoveStep(s, t, h, a)
  }

  /** Where a schedule of actions leads from the empty service. */
  function After(schedule: seq<Action>): Option<State> {
    if schedule == [] then Some(INITIAL)
    else
      var before := After(schedule[..|schedule| - 1]);
      if before.None? then None else Apply(before.value, schedule[|schedule| - 1])
  }

  // ---------- the invariant ----------

  /** Holds its session's row. */
  predicate Holding(h: Handler) { !h.pc.Claiming? && !h.pc.Ended? }

  /** Registered as the session's live run: from the claim to the final block. */
  predicate IsLive(h: Handler) { Holding(h) && !h.pc.CleaningPing? && !h.pc.Releasing? && !h.pc.Abandoned? }

  predicate AwaitsAck(h: Handler) { h.pc.Acknowledging? || h.pc.WaitingAck? }

  /** A handler's own variables agree with what its run has shown. */
  predicate Fits(h: Handler, p: Progress) {
    && h.acked == p.acked
    && (PingAlive(h) ==> h.acked && !p.finished)
    && match h.pc
       case Claiming => p == SILENT && h.order == 0 && !h.emitted && h.ping.NoPing?
       case Acknowledging(_) => p.partials == 0 && !p.finished && h.order == 0 && !h.emitted && h.ping.NoPing?
       case WaitingAck => p.partials == 0 && !p.finished && h.order == 0 && !h.emitted && h.ping.NoPing?
       case Streaming => h.acked && !p.finished && p.partials == h.order && (h.emitted <==> h.order > 0)
       case PublishingPartial(sent) => h.acked && !p.finished && h.emitted
           && p.partials == (if sent then h.order + 1 else h.order)
       case CancellingPing =>
         h.acked && !p.finished && h.order > 0 && p.partials == h.order && (PingAlive(h) ==> !h.cancelRequested)
       case PublishingFinish(sent) => h.acked && p.finished == sent && h.order > 0 && p.partials == h.order
           && !PingAlive(h)
       case CleaningPing => !h.cancelRequested
       case Releasing => !PingAlive(h)
       case Ended => !PingAlive(h)
       case Abandoned => !PingAlive(h)
  }

  predicate Consistent(s: State, t: RunId, h: Handler) {
    ProgressOf(s, t).Some? && Fits(h, ProgressOf(s, t).value)
  }

  predicate Listed(m: map<Session, Live>, t: RunId, h: Handler) {
    h.session in m && m[h.session] == Live(h.message, t)
  }

  /** What the tables owe a handler. */
  predicate Registered(s: State, t: RunId, h: Handler) {
    && (Holding(h) ==> Listed(s.rows, t, h))
    && (IsLive(h) ==> Listed(s.runs, t, h))
  }

  predicate Backed(s: State, x: Session, live: Live) {
    live.run in s.handlers && s.handlers[live.run].session == x && s.handlers[live.run].message == live.message
  }

  /** What the tables may say about a session. */
  predicate Sound(s: State, x: Session) {
    && (x in s.rows ==> Backed(s, x, s.rows[x]) && Holding(s.handlers[s.rows[x].run]))
    && (x in s.runs ==> Backed(s, x, s.runs[x]) && IsLive(s.handlers[s.runs[x].run]))
    && (x in s.waiters ==> Backed(s, x, s.waiters[x]) && AwaitsAck(s.handlers[s.waiters[x].run]))
    && (x in s.aborted ==> x in s.runs)
  }

  ghost predicate Inv(s: State) {
    && (forall t | t in s.handlers :: Consistent(s, t, s.handlers[t]) && Registered(s, t, s.handlers[t]))
    && (forall x: Session :: Sound(s, x))
    && (forall t | t in s.progress :: t in s.handlers)
  }

  // ---------- every step keeps the invariant ----------

  /** One handler moved on, the tables changed at most for its session, its output grew. */
  ghost predicate Moves(s: State, s': State, t: RunId, h: Handler) {
    && t in s.handlers && s'.handlers == s.handlers[t := h]
    && h.session == s.handlers[t].session && h.message == s.handlers[t].message
    && (forall x | x != h.session ::
          && (x in s'.rows <==> x in s.rows) && (x in s.rows ==> s'.rows[x] == s.rows[x])
          && (x in s'.runs <==> x in s.runs) && (x in s.runs ==> s'.runs[x] == s.runs[x])
          && (x in s'.waiters <==> x in s.waiters) && (x in s.waiters ==> s'.waiters[x] == s.waiters[x])
          && (x in s'.aborted <==> x in s.aborted))
    && (forall u | u != t :: u in s'.progress <==> u in s.progress)
    && (forall u | u != t && u in s.progress :: s'.progress[u] == s.progress[u])
  }

  lemma Kept(s: State, s': State, t: RunId, h: Handler)
    requires Inv(s) && Moves(s, s', t, h)
    requires Consistent(s', t, h) && Registered(s', t, h) && Sound(s', h.session)
    requires Holding(s.handlers[t]) || h.session !in s.rows || (s'.rows == s.rows && s'.runs == s.runs)
    ensures Inv(s')
  {
    forall u | u in s'.handlers
      ensures Consistent(s', u, s'.handlers[u]) && Registered(s', u, s'.handlers[u])
    {
      if u != t {
        assert Consistent(s, u, s.handlers[u]) && Registered(s, u, s.handlers[u]);
        assert Registered(s, t, s.handlers[t]);
      }
    }
    forall x: Session ensures Sound(s', x) { assert Sound(s, x); }
  }

  lemma FinalizeKeeps(s: State, t: RunId, h: Handler)
    requires Inv(s) && t in s.handlers && h == s.handlers[t] && IsLive(h)
    ensures Inv(Finalize(s, t, h))
  {
    var s' := Finalize(s, t, h);
    assert Consistent(s, t, h) && Registered(s, t, h) && Sound(s, h.session);
    Kept(s, s', t, s'.handlers[t]);
  }

  function Shown(p: Option<Progress>, e: Option<Event>): Option<Progress> {
    if e.None? then p else Extend(p, e.value)
  }

  predicate SameRole(h: Handler, h': Handler) {
    && h'.session == h.session && h'.message == h.message
    && Holding(h') == Holding(h) && IsLive(h') == IsLive(h) && AwaitsAck(h') == AwaitsAck(h)
  }

  /** On its own a handler only ever extends an acceptable output acceptably. */
  lemma MoveFits(t: RunId, h: Handler, a: Action, p: Progress)
    requires Fits(h, p) && Move(t, h, a).Moved?
    ensures var m := Move(t, h, a);
            && SameRole(h, m.handler) && (m.shown.Some? ==> m.shown.value.run == t)
            && Shown(Some(p), m.shown).Some? && Fits(m.handler, Shown(Some(p), m.shown).value)
  {
  }

  lemma OnlyLiveLeave(t: RunId, h: Handler, a: Action)
    requires Move(t, h, a).Leaves?
    ensures IsLive(h)
  {
  }

  /** A step that leaves every table alone. */
  lemma PutKeeps(s: State, t: RunId, h: Handler, shown: Option<Event>)
    requires Inv(s) && t in s.handlers && SameRole(s.handlers[t], h) && (shown.Some? ==> shown.value.run == t)
    requires Shown(ProgressOf(s, t), shown).Some? && Fits(h, Shown(ProgressOf(s, t), shown).value)
    ensures Inv(if shown.Some? then Emit(Put(s, t, h), shown.value) else Put(s, t, h))
  {
    var s' := if shown.Some? then Emit(Put(s, t, h), shown.value) else Put(s, t, h);
    RolesKept(s, s', t, h);
    forall u | u in s'.handlers
      ensures Consistent(s', u, s'.handlers[u])
    {
      assert Consistent(s, u, s.handlers[u]);
    }
  }

  lemma RolesKept(s: State, s': State, t: RunId, h: Handler)
    requires Inv(s) && t in s.handlers && SameRole(s.handlers[t], h) && s'.handlers == s.handlers[t := h]
    requires s'.rows == s.rows && s'.runs == s.runs && s'.waiters == s.waiters && s'.aborted == s.aborted
    ensures forall u | u in s'.handlers :: Registered(s', u, s'.handlers[u])
    ensures forall x: Session :: Sound(s', x)
  {
    forall u | u in s'.handlers ensures Registered(s', u, s'.handlers[u]) { assert Registered(s, u, s.handlers[u]); }
    forall x: Session ensures Sound(s', x) { assert Sound(s, x); }
  }

  lemma MoveKeeps(s: State, t: RunId, a: Action)
    requires Inv(s) && t in s.handlers && MoveStep(s, t, s.handlers[t], a).Some?
    ensures Inv(MoveStep(s, t, s.handlers[t], a).value)
  {
    var h := s.handlers[t];
    assert Consistent(s, t, h);
    var m := Move(t, h, a);
    if m.Leaves? {
      OnlyLiveLeave(t, h, a);
      FinalizeKeeps(s, t, h);
    } else {
      MoveFits(t, h, a, ProgressOf(s, t).value);
      PutKeeps(s, t, m.handler, m.shown);
    }
  }

  lemma RequestKeeps(s: State, t: RunId, session: Session, message: MessageId)
    requires Inv(s) && t !in s.handlers
    ensures Inv(Put(s, t, Handler(session, message, Claiming, NoPing, 0, false, 0, false, false)))
  {
    var h := Handler(session, message, Claiming, NoPing, 0, false, 0, false, false);
    var s' := Put(s, t, h);
    forall u | u in s'.handlers
      ensures Consistent(s', u, s'.handlers[u]) && Registered(s', u, s'.handlers[u])
    {
      if u != t { assert Consistent(s, u, s.handlers[u]) && Registered(s, u, s.handlers[u]); }
    }
    forall x: Session ensures Sound(s', x) { assert Sound(s, x); }
  }

  lemma ClaimKeeps(s: State, t: RunId, h: Handler, minted: bool)
    requires Inv(s) && t in s.handlers && h == s.handlers[t] && h.pc.Claiming?
    ensures Inv(ClaimStep(s, t, h, minted))
  {
    assert Consistent(s, t, h);
    if h.session in s.rows { PutKeeps(s, t, h.(pc := Ended), None); } else { FreshClaimKeeps(s, t, h, minted); }
  }

  lemma FreshClaimKeeps(s: State, t: RunId, h: Handler, minted: bool)
    requires Inv(s) && t in s.handlers && h == s.handlers[t] && h.pc.Claiming? && h.session !in s.rows
    ensures Inv(ClaimStep(s, t, h, minted))
  {
    var s' := ClaimStep(s, t, h, minted);
    assert Consistent(s, t, h) && Sound(s, h.session);
    Kept(s, s', t, s'.handlers[t]);
  }

  lemma AckKeeps(s: State, session: Session, message: MessageId)
    requires Inv(s)
    ensures Inv(AckStep(s, session, message))
  {
    if session in s.waiters && s.waiters[session].message == message && s.waiters[session].run in s.handlers {
      var t := s.waiters[session].run;
      assert Sound(s, session) && Consistent(s, t, s.handlers[t]);
      PutKeeps(s, t, s.handlers[t].(acked := true), Some(AckSeen(t, message)));
    }
  }

  lemma AcceptKeeps(s: State, t: RunId, h: Handler)
    requires Inv(s) && t in s.handlers && h == s.handlers[t] && AcceptStep(s, t, h).Some?
    ensures Inv(AcceptStep(s, t, h).value)
  {
    var s' := AcceptStep(s, t, h).value;
    assert Consistent(s, t, h) && Registered(s, t, h) && Sound(s, h.session);
    Kept(s, s', t, s'.handlers[t]);
  }

  lemma AbortKeeps(s: State, session: Session, message: MessageId)
    requires Inv(s)
    ensures Inv(AbortStep(s, session, message))
  {
    var s' := AbortStep(s, session, message);
    if s' != s {
      var t := s.runs[session].run;
      assert Sound(s, session) && Consistent(s, t, s.handlers[t]) && Registered(s, t, s.handlers[t]);
      Kept(s, s', t, s'.handlers[t]);
    }
  }

  lemma ReleaseKeeps(s: State, t: RunId, h: Handler)
    requires Inv(s) && t in s.handlers && h == s.handlers[t] && ReleaseStep(s, t, h).Some?
    ensures Inv(ReleaseStep(s, t, h).value)
  {
    var s' := ReleaseStep(s, t, h).value;
    assert Consistent(s, t, h) && Registered(s, t, h) && Sound(s, h.session);
    Kept(s, s', t, s'.handlers[t]);
  }

  lemma StepKeeps(s: State, a: Action)
    requires Inv(s) && Apply(s, a).Some?
    ensures Inv(Apply(s, a).value)
  {
    if a.Request? || a.AckResponse? || a.Abort? {
      OutsideKeeps(s, a);
    } else if a.Claim? || a.AckAccepted? || a.Release? {
      TableKeeps(s, a);
    } else {
      MoveKeeps(s, a.run, a);
    }
  }

  lemma OutsideKeeps(s: State, a: Action)
    requires Inv(s) && Apply(s, a).Some? && (a.Request? || a.AckResponse? || a.Abort?)
    ensures Inv(Apply(s, a).value)
  {
    match a
    case Request(t, session, message) => RequestKeeps(s, t, session, message);
    case AckResponse(session, message) => AckKeeps(s, session, message);
    case Abort(session, message) => AbortKeeps(s, session, message);
  }

  lemma TableKeeps(s: State, a: Action)
    requires Inv(s) && Apply(s, a).Some? && (a.Claim? || a.AckAccepted? || a.Release?)
    ensures Inv(Apply(s, a).value)
  {
    match a
    case Claim(t, minted) => ClaimKeeps(s, t, s.handlers[t], minted);
    case AckAccepted(t) => AcceptKeeps(s, t, s.handlers[t]);
    case Release(t) => ReleaseKeeps(s, t, s.handlers[t]);
  }

  lemma {:induction false} Reachable(schedule: seq<Action>)
    ensures After(schedule).Some? ==> Inv(After(schedule).value)
  {
    if schedule != [] {
      var front := schedule[..|schedule| - 1];
      Reachable(front);
      if After(schedule).Some? { StepKeeps(After(front).value, schedule[|schedule| - 1]); }
    }
  }

  // ---------- the protocol, read off any reachable state ----------

  /** At most one handler per session holds it, and a session's row exists exactly while one
      does; the live run it is registered under is that handler. */
  lemma OneRunPerSession(schedule: seq<Action>)
    requires After(schedule).Some?
    ensures var s := After(schedule).value;
            && (forall t, u | t in s.handlers && u in s.handlers && Holding(s.handlers[t]) && Holding(s.handlers[u])
                              && s.handlers[t].session == s.handlers[u].session :: t == u)
            && (forall x: Session :: x in s.rows <==>
                 exists t :: t in s.handlers && Holding(s.handlers[t]) && s.handlers[t].session == x)
            && (forall x: Session :: x in s.runs <==>
                 exists t :: t in s.handlers && IsLive(s.handlers[t]) && s.handlers[t].session == x)
  {
    Reachable(schedule);
    var s := After(schedule).value;
    forall x: Session
      ensures x in s.rows <==> exists t :: t in s.handlers && Holding(s.handlers[t]) && s.handlers[t].session == x
      ensures x in s.runs <==> exists t :: t in s.handlers && IsLive(s.handlers[t]) && s.handlers[t].session == x
    {
      assert Sound(s, x);
      if t :| t in s.handlers && Holding(s.handlers[t]) && s.handlers[t].session == x {
        assert Registered(s, t, s.handlers[t]);
      }
      if t :| t in s.handlers && IsLive(s.handlers[t]) && s.handlers[t].session == x {
        assert Registered(s, t, s.handlers[t]);
      }
    }
    forall t, u | t in s.handlers && u in s.handlers && Holding(s.handlers[t]) && Holding(s.handlers[u])
                  && s.handlers[t].session == s.handlers[u].session
      ensures t == u
    {
      assert Registered(s, t, s.handlers[t]) && Registered(s, u, s.handlers[u]);
    }
  }

  /** What one run has shown, in order. */
  function RunLog(log: seq<Event>, t: RunId): seq<Event> {
    if log == [] then []
    else
      var last := log[|log| - 1];
      if last.run == t then RunLog(log[..|log| - 1], t) + [last] else RunLog(log[..|log| - 1], t)
  }

  function Shape(events: seq<Event>): Option<Progress> {
    if events == [] then Some(SILENT) else Extend(Shape(events[..|events| - 1]), events[|events| - 1])
  }

  /** What a step may do to the output and to what handlers are for: show at most one event, an
      accepted acknowledgement only for a handler with that message, and rename nothing. */
  ghost predicate Grows(s: State, s': State, shown: Option<Event>) {
    && (if shown.Some? then s'.log == Emit(s, shown.value).log && s'.progress == Emit(s, shown.value).progress
        else s'.log == s.log && s'.progress == s.progress)
    && (forall t | t in s.handlers :: t in s'.handlers && s'.handlers[t].message == s.handlers[t].message)
    && (shown.Some? && shown.value.AckSeen? ==>
          shown.value.run in s.handlers && s.handlers[shown.value.run].message == shown.value.message)
  }

  lemma MoveShows(t: RunId, h: Handler, a: Action)
    requires Move(t, h, a).Moved?
    ensures Move(t, h, a).handler.message == h.message
    ensures Move(t, h, a).shown.Some? ==> !Move(t, h, a).shown.value.AckSeen?
  {
  }

  lemma MoveGrows(s: State, t: RunId, a: Action) returns (shown: Option<Event>)
    requires t in s.handlers && MoveStep(s, t, s.handlers[t], a).Some?
    ensures Grows(s, MoveStep(s, t, s.handlers[t], a).value, shown)
  {
    var m := Move(t, s.handlers[t], a);
    shown := None;
    if m.Moved? {
      MoveShows(t, s.handlers[t], a);
      shown := m.shown;
    }
  }

  lemma AckGrows(s: State, session: Session, message: MessageId) returns (shown: Option<Event>)
    requires Inv(s)
    ensures Grows(s, AckStep(s, session, message), shown)
  {
    assert Sound(s, session);
    shown := if session in s.waiters && s.waiters[session].message == message
             then Some(AckSeen(s.waiters[session].run, message)) else None;
  }

  lemma TableGrows(s: State, a: Action)
    requires Apply(s, a).Some? && (a.Request? || a.Abort? || a.Claim? || a.AckAccepted? || a.Release?)
    ensures Grows(s, Apply(s, a).value, None)
  {
  }

  lemma StepGrows(s: State, a: Action) returns (shown: Option<Event>)
    requires Inv(s) && Apply(s, a).Some?
    ensures Grows(s, Apply(s, a).value, shown)
  {
    if a.Request? || a.Abort? || a.Claim? || a.AckAccepted? || a.Release? {
      shown := None;
      TableGrows(s, a);
    } else if a.AckResponse? {
      shown := AckGrows(s, a.session, a.message);
    } else {
      shown := MoveGrows(s, a.run, a);
    }
  }

  lemma GrowsShape(s: State, s': State, shown: Option<Event>, u: RunId)
    requires Grows(s, s', shown) && ProgressOf(s, u) == Shape(RunLog(s.log, u))
    ensures ProgressOf(s', u) == Shape(RunLog(s'.log, u))
  {
    if shown.Some? {
      RunLogMore(s.log, shown.value, u);
      ShapeMore(RunLog(s.log, u), shown.value);
    }
  }

  lemma RunLogMore(log: seq<Event>, e: Event, u: RunId)
    ensures RunLog(log + [e], u) == if e.run == u then RunLog(log, u) + [e] else RunLog(log, u)
  {
    assert (log + [e])[..|log|] == log;
  }

  lemma ShapeMore(events: seq<Event>, e: Event)
    ensures Shape(events + [e]) == Extend(Shape(events), e)
  {
    assert (events + [e])[..|events|] == events;
  }

  /** Every run's whole output has the acceptable shape, in every reachable state. */
  lemma {:induction false} OutputShape(schedule: seq<Action>, t: RunId)
    requires After(schedule).Some?
    ensures ProgressOf(After(schedule).value, t) == Shape(RunLog(After(schedule).value.log, t))
    ensures Shape(RunLog(After(schedule).value.log, t)).Some?
  {
    Reachable(schedule);
    var s := After(schedule).value;
    if schedule != [] {
      var front := schedule[..|schedule| - 1];
      OutputShape(front, t);
      Reachable(front);
      var shown := StepGrows(After(front).value, schedule[|schedule| - 1]);
      GrowsShape(After(front).value, s, shown, t);
    }
    if t in s.handlers { assert Consistent(s, t, s.handlers[t]); }
  }

  /** The orders of the partials in an output. */
  function Orders(events: seq<Event>): seq<nat> {
    if events == [] then []
    else
      var last := events[|events| - 1];
      if last.Partial? then Orders(events[..|events| - 1]) + [last.order] else Orders(events[..|events| - 1])
  }

  /** Orders 0, 1, 2, ... once each, whatever was retried. */
  lemma {:induction false} ShapeOrders(events: seq<Event>)
    requires Shape(events).Some?
    ensures Orders(events) == seq(Shape(events).value.partials, i => i)
  {
    if events != [] {
      ShapeOrders(events[..|events| - 1]);
      var n := Shape(events[..|events| - 1]).value.partials;
      assert seq(n + 1, i => i) == seq(n, i => i) + [n];
    }
  }

  /** Every partial and every ping comes after an accepted acknowledgement. */
  lemma {:induction false} ShapeAcked(events: seq<Event>)
    requires Shape(events).Some?
    ensures Shape(events).value.acked <==> exists j | 0 <= j < |events| :: events[j].AckSeen?
    ensures forall i | 0 <= i < |events| && (events[i].Partial? || events[i].Ping?) ::
              exists j | 0 <= j < i :: events[j].AckSeen?
  {
    if events != [] {
      var front := events[..|events| - 1];
      ShapeAcked(front);
      assert forall i | 0 <= i < |front| :: events[i] == front[i];
    }
  }

  /** A finish names the last partial, and nothing at all follows it. */
  lemma {:induction false} ShapeFinished(events: seq<Event>)
    requires Shape(events).Some?
    ensures Shape(events).value.finished <==> exists i | 0 <= i < |events| :: events[i].Finish?
    ensures forall i | 0 <= i < |events| && events[i].Finish? ::
              i == |events| - 1 && Orders(events) != [] && events[i].last == Orders(events)[|Orders(events)| - 1]
  {
    if events != [] {
      var front := events[..|events| - 1];
      ShapeFinished(front);
      ShapeOrders(front);
      ShapeOrders(events);
      assert forall i | 0 <= i < |front| :: events[i] == front[i];
    }
  }

  /** Accepted acknowledgements carry their run's own message. */
  lemma {:induction false} AcksMatch(schedule: seq<Action>)
    requires After(schedule).Some?
    ensures var s := After(schedule).value;
            forall e | e in s.log && e.AckSeen? :: e.run in s.handlers && s.handlers[e.run].message == e.message
  {
    if schedule != [] {
      var front, a := schedule[..|schedule| - 1], schedule[|schedule| - 1];
      AcksMatch(front);
      Reachable(front);
      var shown := StepGrows(After(front).value, a);
    }
  }
}
