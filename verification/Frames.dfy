/** Recall frames: tool calls whose closing results are reserved before any of them runs. */
module Frames {
  import opened Wrappers
  import opened History

  const STARVATION := "context starvation. recall prohibited"
  const RECALL_FAILED := "recall_failed"
  const ROUNDS := 16

  datatype Failure =
    | MeterFailed | FrameSourceOverflow | Starved | UnknownTool | ClosureDoesNotFit | BatchDoesNotFit
    | InvalidCallId | UnstableMeter | UnauthorizedMemory
    | ModelFailed | ProviderOverflow | Truncated | InvalidToolCalls | ToolsProhibited | EmptyAnswer

  datatype Status<T> = Done(value: T) | Raised(why: Failure)

  /** One completion of the model: text, tool calls with perhaps some text, or a failure. */
  datatype Reply =
    | Says(text: string)
    | Asks(text: string, calls: seq<ToolCall>)
    | CutOff
    | Malformed
    | Overflowed
    | Failed

  datatype ToolCall = ToolCall(id: string, name: string, arguments: Arguments)

  function CallsOf(calls: seq<ToolCall>): (turns: seq<Turn>)
    ensures |turns| == |calls| && forall t | t in turns :: t.Call?
  {
    if calls == [] then []
    else
      var last := calls[|calls| - 1];
      CallsOf(calls[..|calls| - 1]) + [Call(last.id, last.name, last.arguments)]
  }

  /** The meter is any deterministic one. The model answers whatever it likes whenever it is asked,
      until the provider is gone for good. */
  datatype Oracles = Oracles(meter: seq<Turn> -> Option<nat>, model: nat -> Reply, gone: nat)

  datatype Limits = Limits(total: nat, reserve: nat, starvation: nat, answerCap: nat)

  // ---------- tool results ----------

  function CallIds(items: seq<Turn>): set<string> { set c | c in items && c.Call? :: c.id }

  /** A result that answers this call. */
  predicate Answers(result: Turn, call: Turn) {
    result.Result? && call.Call? && result.callId == call.id && result.name == call.name
  }

  ghost predicate AnswerEach(results: seq<Turn>, calls: seq<Turn>) {
    |results| == |calls| && forall i | 0 <= i < |calls| :: Answers(results[i], calls[i])
  }

  lemma AnswerMore(results: seq<Turn>, calls: seq<Turn>, i: nat, result: Turn)
    requires i < |calls| && AnswerEach(results, calls[..i]) && Answers(result, calls[i])
    ensures AnswerEach(results + [result], calls[..i + 1])
  {
  }

  function Closing(call: Turn, reason: string): Turn
    requires call.Call?
  {
    Result(call.id, call.name, Errored(reason), [])
  }

  function Prohibited(calls: seq<Turn>): (r: seq<Turn>)
    requires forall c | c in calls :: c.Call?
    ensures AnswerEach(r, calls) && forall i | 0 <= i < |calls| :: r[i] == Closing(calls[i], STARVATION)
  {
    if calls == [] then []
    else
      assert calls[0] in calls;
      [Closing(calls[0], STARVATION)] + Prohibited(calls[1..])
  }

  predicate Pends(pending: seq<Turn>, id: string) { exists p | p in pending :: p.Result? && p.callId == id }

  function Without(pending: seq<Turn>, id: string): seq<Turn> {
    if pending == [] then []
    else if pending[0].Result? && pending[0].callId == id then Without(pending[1..], id)
    else [pending[0]] + Without(pending[1..], id)
  }

  function Substituted(pending: seq<Turn>, id: string, result: Turn): seq<Turn> {
    if pending == [] then []
    else
      var first := if pending[0].Result? && pending[0].callId == id then result else pending[0];
      [first] + Substituted(pending[1..], id, result)
  }

  lemma {:induction false} WithoutAbsent(pending: seq<Turn>, id: string)
    requires !Pends(pending, id)
    ensures Without(pending, id) == pending
  {
    if pending != [] {
      assert pending[0] in pending && forall p | p in pending[1..] :: p in pending;
      WithoutAbsent(pending[1..], id);
    }
  }

  lemma {:induction false} WithoutIn(before: seq<Turn>, after: seq<Turn>, id: string)
    ensures Without(before + after, id) == Without(before, id) + Without(after, id)
  {
    if before == [] {
      assert before + after == after;
    } else {
      var both := before + after;
      assert both[0] == before[0] && both[1..] == before[1..] + after;
      WithoutIn(before[1..], after, id);
    }
  }

  lemma {:induction false} SubstitutedIn(before: seq<Turn>, after: seq<Turn>, id: string, result: Turn)
    ensures Substituted(before + after, id, result) == Substituted(before, id, result) + Substituted(after, id, result)
  {
    if before == [] {
      assert before + after == after;
    } else {
      SubstitutedIn(before[1..], after, id, result);
      assert (before + after)[1..] == before[1..] + after;
    }
  }

  lemma {:induction false} SubstitutedAbsent(pending: seq<Turn>, id: string, result: Turn)
    requires !Pends(pending, id)
    ensures Substituted(pending, id, result) == pending
  {
    if pending != [] {
      assert pending[0] in pending && forall p | p in pending[1..] :: p in pending;
      SubstitutedAbsent(pending[1..], id, result);
    }
  }

  // ---------- reservations ----------

  /** The call's starvation notice is pending between `held` and `rest`, and nothing else of its. */
  ghost predicate ReservedAt(pending: seq<Turn>, call: Turn, held: seq<Turn>, rest: seq<Turn>)
    requires call.Call?
  {
    pending == held + [Closing(call, STARVATION)] + rest && !Pends(held, call.id) && !Pends(rest, call.id)
  }

  ghost predicate Reserved(pending: seq<Turn>, call: Turn)
    requires call.Call?
  {
    exists held, rest :: ReservedAt(pending, call, held, rest)
  }

  lemma ReservedPlace(pending: seq<Turn>, call: Turn, held: seq<Turn>, rest: seq<Turn>, result: Turn)
    requires call.Call? && ReservedAt(pending, call, held, rest)
    ensures Pends(pending, call.id) && Without(pending, call.id) == held + rest
    ensures Substituted(pending, call.id, result) == held + [result] + rest
  {
    var notice := Closing(call, STARVATION);
    assert pending[|held|] == notice;
    WithoutIn(held + [notice], rest, call.id);
    WithoutIn(held, [notice], call.id);
    WithoutAbsent(held, call.id);
    WithoutAbsent(rest, call.id);
    assert Without([notice], call.id) == [];
    SubstitutedIn(held + [notice], rest, call.id, result);
    SubstitutedIn(held, [notice], call.id, result);
    SubstitutedAbsent(held, call.id, result);
    SubstitutedAbsent(rest, call.id, result);
    assert Substituted([notice], call.id, result) == [result];
  }

  // ---------- what the model of the provider sees ----------

  datatype Message =
    | SystemMessage | HumanMessage(text: string)
    | AiMessage(text: string, calls: seq<Turn>)
    | ToolMessage(result: Turn)

  function Emit(messages: seq<Message>, item: Turn): seq<Message>
    requires messages != []
  {
    var last := messages[|messages| - 1];
    match item
    case Call(_, _, _) =>
      if last.AiMessage? then messages[..|messages| - 1] + [AiMessage(last.text, last.calls + [item])]
      else messages + [AiMessage("", [item])]
    case Result(_, _, _, _) => messages + [ToolMessage(item)]
    case Assistant(text) => messages + [AiMessage(text, [])]
    case User(_) => messages
    case Memory(_) => messages
  }

  function EmitAll(messages: seq<Message>, items: seq<Turn>): (r: seq<Message>)
    requires messages != []
    ensures r != []
  {
    if items == [] then messages
    else Emit(EmitAll(messages, items[..|items| - 1]), items[|items| - 1])
  }

  lemma {:induction false} EmitAppend(messages: seq<Message>, a: seq<Turn>, b: seq<Turn>)
    requires messages != []
    ensures EmitAll(messages, a + b) == EmitAll(EmitAll(messages, a), b)
  {
    if b == [] {
      assert a + b == a;
    } else {
      EmitAppend(messages, a, b[..|b| - 1]);
      assert (a + b)[..|a + b| - 1] == a + b[..|b| - 1];
    }
  }

  function Tools(results: seq<Turn>): seq<Message> {
    if results == [] then [] else Tools(results[..|results| - 1]) + [ToolMessage(results[|results| - 1])]
  }

  /** One assistant message that owns all the calls: the last one, if it is an assistant's. */
  function WithBatch(messages: seq<Message>, calls: seq<Turn>): seq<Message>
    requires messages != []
  {
    var last := messages[|messages| - 1];
    if last.AiMessage? then messages[..|messages| - 1] + [AiMessage(last.text, last.calls + calls)]
    else messages + [AiMessage("", calls)]
  }

  lemma BatchMore(messages: seq<Message>, front: seq<Turn>, last: Turn)
    requires messages != [] && last.Call?
    ensures front == [] ==> Emit(messages, last) == WithBatch(messages, [last])
    ensures front != [] ==> Emit(WithBatch(messages, front), last) == WithBatch(messages, front + [last])
  {
    var batch := WithBatch(messages, front);
    var owner := messages[|messages| - 1];
    if owner.AiMessage? {
      assert batch[..|batch| - 1] == messages[..|messages| - 1];
      assert (owner.calls + front) + [last] == owner.calls + (front + [last]);
    } else {
      assert batch[..|batch| - 1] == messages;
    }
  }

  lemma {:induction false} EmitCalls(messages: seq<Message>, calls: seq<Turn>)
    requires messages != [] && calls != [] && forall c | c in calls :: c.Call?
    ensures EmitAll(messages, calls) == WithBatch(messages, calls)
  {
    var front, last := calls[..|calls| - 1], calls[|calls| - 1];
    assert front + [last] == calls;
    if front != [] { EmitCalls(messages, front); }
    BatchMore(messages, front, last);
  }

  lemma {:induction false} EmitResults(messages: seq<Message>, results: seq<Turn>)
    requires messages != [] && forall r | r in results :: r.Result?
    ensures EmitAll(messages, results) == messages + Tools(results)
  {
    if results == [] {
      assert messages + Tools(results) == messages;
    } else {
      EmitResults(messages, results[..|results| - 1]);
      assert results[|results| - 1] in results;
    }
  }

  /** A closed batch reaches the provider as one assistant message owning every call, followed
      by exactly one tool message per call, in call order. */
  lemma BatchMessages(messages: seq<Message>, calls: seq<Turn>, results: seq<Turn>)
    requires messages != [] && calls != [] && (forall c | c in calls :: c.Call?) && AnswerEach(results, calls)
    ensures EmitAll(messages, calls + results) == WithBatch(messages, calls) + Tools(results)
  {
    EmitAppend(messages, calls, results);
    EmitCalls(messages, calls);
    assert forall r | r in results :: r.Result?;
    EmitResults(WithBatch(messages, calls), results);
  }

  // ---------- frames ----------

  class Frame {
    const source: seq<Turn>
    const question: string
    var exchanges: seq<Turn>
    var pending: seq<Turn>
    var finalizationOnly: bool
    var finalizationReason: string

    constructor (source: seq<Turn>, question: string)
      ensures this.source == source && this.question == question && exchanges == [] && pending == []
      ensures !finalizationOnly && finalizationReason == STARVATION
    {
      this.source, this.question := source, question;
      exchanges, pending, finalizationOnly, finalizationReason := [], [], false, STARVATION;
    }

    /** Pending results belong to calls already exchanged. */
    ghost predicate Valid()
      reads this
    {
      forall p | p in pending :: p.Result? && p.callId in CallIds(exchanges)
    }

    function Charged(): seq<Turn>
      reads this`exchanges, this`pending
    {
      source + [User(question)] + exchanges + pending
    }

    /** The charge with this result in the place reserved for it, or behind its call if none is. */
    function WithResult(call: Turn, result: Turn): seq<Turn>
      requires call.Call?
      reads this`exchanges, this`pending
    {
      if Pends(pending, call.id)
      then source + [User(question)] + exchanges + Substituted(pending, call.id, result)
      else Charged() + [call, result]
    }
  }

  class Runtime {
    const oracles: Oracles
    const limits: Limits
    var tick: nat

    constructor (oracles: Oracles, limits: Limits)
      ensures this.oracles == oracles && this.limits == limits
    {
      this.oracles, this.limits := oracles, limits;
      tick := 0;
    }

    /** What is left after charging these messages; None when the meter fails. */
    function Left(messages: seq<Turn>): Option<int> {
      var n := oracles.meter(messages);
      if n.None? then None else Some(limits.total - n.value - limits.reserve)
    }

    function Measure(messages: seq<Turn>): Status<Report> {
      var left := Left(messages);
      if left.None? then Raised(MeterFailed)
      else Done(Report(left.value, left.value * 100 >= limits.total * limits.starvation))
    }

    method Guard(frame: Frame) returns (r: Status<Report>)
      modifies frame`finalizationOnly
      ensures r.Done? <==> Left(frame.Charged()).Some? && Left(frame.Charged()).value >= 0
      ensures r.Done? ==> r.value == Measure(frame.Charged()).value
      ensures r.Raised? ==> r.why == if Left(frame.Charged()).None? then MeterFailed else FrameSourceOverflow
      ensures frame.finalizationOnly == (old(frame.finalizationOnly) || (r.Done? && !r.value.permitted))
    {
      var report := Measure(frame.Charged());
      if report.Raised? {
        return report;
      }
      if report.value.remaining < 0 {
        return Raised(FrameSourceOverflow);
      }
      if !report.value.permitted {
        frame.finalizationOnly := true;
      }
      r := report;
    }

    function Reported(call: Turn, content: string, report: Option<Report>): Turn
      requires call.Call?
    {
      Result(call.id, call.name, Answered(content, report), [])
    }

    /** With some report this result overflows the frame. */
    ghost predicate Overflows(frame: Frame, call: Turn, content: string)
      requires call.Call?
      reads frame`exchanges, frame`pending
    {
      exists report ::
        var left := Left(frame.WithResult(call, Reported(call, content, report))); left.Some? && left.value < 0
    }

    /** With some report the meter fails. */
    ghost predicate Unmeasured(frame: Frame, call: Turn, content: string)
      requires call.Call?
      reads frame`exchanges, frame`pending
    {
      exists report :: Left(frame.WithResult(call, Reported(call, content, report))).None?
    }

    /** An accepted result never overstates: what it reports is nonnegative and at most what is
        left with that very result charged, whatever its own metadata costs. */
    method ResolvedResult(frame: Frame, call: Turn, content: string) returns (r: Status<Option<Turn>>)
      requires call.Call?
      ensures r.Done? && r.value.Some? ==>
                var result := r.value.value;
                && Answers(result, call)
                && result.content.Answered? && result.content.answer == content && result.content.report.Some?
                && 0 <= result.content.report.value.remaining
                && Left(frame.WithResult(call, result)).Some?
                && result.content.report.value.remaining <= Left(frame.WithResult(call, result)).value
      ensures r.Done? && r.value.None? ==> Overflows(frame, call, content)
      ensures r.Raised? ==> r.why == UnstableMeter || (r.why == MeterFailed && Unmeasured(frame, call, content))
    {
      var report: Option<Report> := None;
      for i := 0 to ROUNDS
        invariant report.Some? ==> report.value.remaining >= 0
      {
        var result := Reported(call, content, report);
        var measured := Measure(frame.WithResult(call, result));
        if measured.Raised? {
          return Raised(measured.why);
        }
        if measured.value.remaining < 0 {
          return Done(None);
        }
        if report.Some? && measured.value.remaining >= report.value.remaining {
          return Done(Some(result));
        }
        if report.Some? && measured.value == report.value {
          return Done(Some(result));
        }
        report := Some(measured.value);
      }
      r := Raised(UnstableMeter);
    }

    /** The answer's size limit: half of what is left, and half of that when asked again. */
    function Cap(remaining: int, attempt: nat): int {
      var half := if remaining / 2 < 1 then 1 else remaining / 2;
      var cap := if limits.answerCap < half then limits.answerCap else half;
      if attempt == 0 then cap else if cap / 2 < 1 then 1 else cap / 2
    }

    /** The model said this, not blank, in that time. */
    ghost predicate Said(text: string, since: nat, until: nat) {
      !Blank(text) && exists t | since <= t < until :: oracles.model(t) == Says(text)
    }

    /** An answer the model gave in that time, within the cap; none when it was longer. */
    ghost predicate Given(answer: Option<string>, cap: int, since: nat, until: nat) {
      answer.Some? ==> Said(answer.value, since, until) && WithinCap(answer.value, cap)
    }

    predicate WithinCap(text: string, cap: int) {
      var n := oracles.meter([Assistant(text)]);
      n.Some? && n.value <= cap
    }

    /** This attempt gave nothing to deliver. */
    ghost predicate Useless(frame: Frame, call: Turn, answer: Option<string>)
      requires call.Call?
      reads frame`exchanges, frame`pending
    {
      answer.Some? ==> Overflows(frame, call, answer.value)
    }

    /** The recall itself: at most two attempts, the first usable answer being the result. Raised
        is caught by the caller and becomes an error result. */
    method Recall(frame: Frame, call: Turn, remaining: int)
      returns (r: Status<Option<Turn>>, ghost answers: seq<Option<string>>)
      requires call.Call?
      modifies this`tick
      ensures tick >= old(tick) && |answers| <= 2
      ensures forall k | 0 <= k < |answers| :: Given(answers[k], Cap(remaining, k), old(tick), tick)
      ensures r.Done? && r.value.Some? ==> Answers(r.value.value, call) && FitsWith(frame, call, r.value.value)
      ensures VisibleMemory(frame.source, call).None? ==> r == Raised(UnauthorizedMemory)
      ensures r == Raised(UnauthorizedMemory) ==> VisibleMemory(frame.source, call).None?
      ensures r.Done? && r.value.Some? ==>
        && r.value.value.content.Answered?
        && answers != [] && answers[|answers| - 1] == Some(r.value.value.content.answer)
        && forall k | 0 <= k < |answers| - 1 :: Useless(frame, call, answers[k])
      ensures r.Done? && r.value.None? ==>
        || Overflows(frame, call, "")
        || (|answers| == 2 && forall k | 0 <= k < 2 :: Useless(frame, call, answers[k]))
      decreases ContextDepth(frame.source), 2
    {
      answers := [];
      var memory := VisibleMemory(frame.source, call);
      if memory.None? {
        return Raised(UnauthorizedMemory), answers;
      }
      DepthInContext(frame.source, memory.value.0);
      var envelope := ResolvedResult(frame, call, "");
      if envelope.Raised? || envelope.value.None? {
        return envelope, answers;
      }
      for attempt := 0 to 2
        invariant tick >= old(tick) && |answers| == attempt
        invariant forall k | 0 <= k < attempt :: Given(answers[k], Cap(remaining, k), old(tick), tick)
        invariant forall k | 0 <= k < attempt :: Useless(frame, call, answers[k])
      {
        var answer := AskChild(memory.value.0, memory.value.1, Cap(remaining, attempt));
        if answer.Raised? {
          return Raised(answer.why), answers;
        }
        answers := answers + [answer.value];
        if answer.value.Some? {
          var result := ResolvedResult(frame, call, answer.value.value);
          if result.Raised? || result.value.Some? {
            return result, answers;
          }
        }
      }
      r := Done(None);
    }

    // ---------- the isolated frame of a recall ----------

    /** A question to a memory, answered in a frame of its own that holds nothing but what the
        memory archives. None: the answer is over its cap. */
    method AskChild(memory: Tombstone, question: string, cap: int) returns (r: Status<Option<string>>)
      modifies this`tick
      ensures tick >= old(tick) && r != Raised(UnauthorizedMemory)
      ensures r.Done? ==> Given(r.value, cap, old(tick), tick)
      decreases Depth(memory), 0
    {
      var child := new Frame(RecallSource(memory), question);
      DepthOfSource(memory);
      var report := Guard(child);
      if report.Raised? {
        return Raised(report.why);
      }
      ghost var added;
      var answer;
      answer, added := Run(child);
      if answer.Raised? {
        return Raised(answer.why);
      }
      var n := oracles.meter([Assistant(answer.value)]);
      if n.None? {
        return Raised(MeterFailed);
      }
      r := Done(if n.value <= cap then Some(answer.value) else None);
    }

    /** The frame's own loop: the model is asked until it answers in words. Whatever it asks for in
        between, the frame gains whole batches only, each call with its one result; the answer is
        the model's, given while the frame fitted. */
    method Run(frame: Frame) returns (r: Status<string>, ghost added: seq<Exchange>)
      requires frame.Valid()
      modifies this`tick, frame`exchanges, frame`pending, frame`finalizationOnly, frame`finalizationReason
      ensures tick >= old(tick) && r != Raised(UnauthorizedMemory)
      ensures r.Done? ==> Said(r.value, old(tick), tick) && oracles.model(tick - 1) == Says(r.value)
      ensures r.Done? ==> Fits(frame) && frame.Valid() && frame.pending == old(frame.pending)
      ensures r.Done? ==> Grown(old(frame.exchanges), frame.exchanges, added)
      decreases ContextDepth(frame.source), 8, 1
    {
      added := [];
      while tick < oracles.gone
        invariant tick >= old(tick) && frame.Valid() && frame.pending == old(frame.pending)
        invariant Grown(old(frame.exchanges), frame.exchanges, added)
        decreases oracles.gone - tick
      {
        ghost var middle := frame.exchanges;
        var step, e := Step(frame);
        if step.Raised? {
          return Raised(step.why), added;
        }
        if step.value.Some? {
          return Done(step.value.value), added;
        }
        GrownMore(old(frame.exchanges), middle, frame.exchanges, added, e);
        added := added + [e];
      }
      r := Raised(ModelFailed);
    }

    /** One completion: an answer in words, or calls that are all answered before the next. */
    method Step(frame: Frame) returns (r: Status<Option<string>>, ghost e: Exchange)
      requires frame.Valid()
      modifies this`tick, frame`exchanges, frame`pending, frame`finalizationOnly, frame`finalizationReason
      ensures tick >= old(tick) && r != Raised(UnauthorizedMemory) && (r.Done? ==> tick > old(tick))
      ensures r.Done? ==> frame.Valid() && frame.pending == old(frame.pending)
      ensures r.Done? && r.value.Some? ==>
                && Fits(frame) && frame.exchanges == old(frame.exchanges)
                && !Blank(r.value.value) && oracles.model(tick - 1) == Says(r.value.value)
      ensures r.Done? && r.value.None? ==> IsWhole(e) && frame.exchanges == old(frame.exchanges) + Items(e)
      ensures r.Done? && r.value.None? ==> !old(frame.finalizationOnly)
      decreases ContextDepth(frame.source), 8, 0
    {
      e := Exchange("", [], []);
      var report := Guard(frame);
      if report.Raised? {
        return Raised(report.why), e;
      }
      var reply := oracles.model(tick);
      tick := tick + 1;
      match reply {
        case Failed => r := Raised(ModelFailed);
        case Overflowed => r := Raised(ProviderOverflow);
        case CutOff => r := Raised(Truncated);
        case Malformed => r := Raised(InvalidToolCalls);
        case Says(text) => r := if Blank(text) then Raised(EmptyAnswer) else Done(Some(text));
        case Asks(text, calls) =>
          if frame.finalizationOnly {
            return Raised(ToolsProhibited), e;
          }
          var round := Round(frame, text, CallsOf(calls));
          if round.Raised? {
            return Raised(round.why), e;
          }
          r, e := Done(None), Exchange(text, CallsOf(calls), round.value);
      }
    }

    /** The text that came with the calls, if any, then the batch. */
    method Round(frame: Frame, text: string, calls: seq<Turn>) returns (r: Status<seq<Turn>>)
      requires frame.Valid() && forall c | c in calls :: c.Call?
      modifies this`tick, frame`exchanges, frame`pending, frame`finalizationOnly, frame`finalizationReason
      ensures tick >= old(tick) && r != Raised(UnauthorizedMemory)
      ensures r.Done? ==>
                && AnswerEach(r.value, calls) && frame.Valid() && frame.pending == old(frame.pending)
                && frame.exchanges == old(frame.exchanges) + Spoken(text) + calls + r.value
      decreases ContextDepth(frame.source), 7
    {
      frame.exchanges := frame.exchanges + Spoken(text);
      r := DispatchBatch(frame, calls);
    }

    /** The result to deliver: the tool's own, or a notice that was measured to fit. */
    method Resolve(frame: Frame, call: Turn, remaining: int) returns (r: Status<Turn>)
      requires call.Call? && Fits(frame)
      modifies this`tick, frame`finalizationOnly, frame`finalizationReason
      ensures tick >= old(tick)
      ensures r.Done? ==> Answers(r.value, call) && FitsWith(frame, call, r.value)
      ensures KeptOrFailed(old(frame.finalizationReason), frame.finalizationReason)
      ensures r.Raised? ==> r.why in {UnknownTool, UnstableMeter, MeterFailed, ClosureDoesNotFit}
      ensures r == Raised(UnknownTool) ==> UnknownName(call)
      ensures r == Raised(UnstableMeter) ==> call.name == "remaining_context"
      ensures r == Raised(MeterFailed) ==> !Additive()
      ensures r == Raised(ClosureDoesNotFit) && Reserved(frame.pending, call) ==> RecallNoticeOverflows(frame, call)
      decreases ContextDepth(frame.source), 3
    {
      if UnknownName(call) {
        return Raised(UnknownTool);
      }
      var resolved: Status<Option<Turn>>;
      if call.name == "remaining_context" {
        resolved := ResolvedResult(frame, call, "current frame capacity");
        if resolved.Raised? {
          return Raised(resolved.why);
        }
      } else {
        ghost var answers;
        resolved, answers := Recall(frame, call, remaining);
        if resolved.Raised? {
          frame.finalizationOnly := true;
          frame.finalizationReason := RECALL_FAILED;
          r := Notice(frame, call, Reason(resolved.why));
          return;
        }
      }
      if resolved.value.Some? {
        return Done(resolved.value.value);
      }
      frame.finalizationOnly := true;
      if Reserved(frame.pending, call) { ClosureFits(frame, call); }
      r := Notice(frame, call, STARVATION);
    }

    method Notice(frame: Frame, call: Turn, reason: string) returns (r: Status<Turn>)
      requires call.Call?
      ensures r.Done? ==> r.value == Closing(call, reason) && FitsWith(frame, call, r.value)
      ensures r.Raised? ==>
          r.why == if Left(frame.WithResult(call, Closing(call, reason))).None? then MeterFailed else ClosureDoesNotFit
      ensures r == Raised(ClosureDoesNotFit) ==> NoticeOverflows(frame, call, reason)
      ensures r.Done? || r.why == MeterFailed || r.why == ClosureDoesNotFit
    {
      var result := Closing(call, reason);
      var left := Left(frame.WithResult(call, result));
      if left.None? || left.value < 0 {
        return Raised(if left.None? then MeterFailed else ClosureDoesNotFit);
      }
      r := Done(result);
    }

    /** The result takes its reserved place, or follows its call, and the frame is measured again. */
    method Deliver(frame: Frame, call: Turn, result: Turn) returns (r: Status<Turn>)
      requires call.Call?
      modifies frame`exchanges, frame`pending, frame`finalizationOnly
      ensures frame.pending ==
          if Pends(old(frame.pending), call.id) then Without(old(frame.pending), call.id) else old(frame.pending)
      ensures frame.exchanges ==
          old(frame.exchanges) + (if Pends(old(frame.pending), call.id) then [result] else [call, result])
      ensures r.Done? ==> r.value == result && Fits(frame)
      ensures r.Raised? ==> r.why == MeterFailed || r.why == FrameSourceOverflow
      ensures Additive() && old(Reserved(frame.pending, call) && FitsWith(frame, call, result)) ==> r.Done?
    {
      if Additive() && Reserved(frame.pending, call) { AnsweredFits(frame, call, result); }
      if Pends(frame.pending, call.id) {
        frame.pending := Without(frame.pending, call.id);
        frame.exchanges := frame.exchanges + [result];
      } else {
        frame.exchanges := frame.exchanges + [call];
        frame.exchanges := frame.exchanges + [result];
        assert frame.exchanges == old(frame.exchanges) + [call, result];
      }
      var after := Guard(frame);
      if after.Raised? {
        return Raised(after.why);
      }
      r := Done(result);
    }

    /** One call: on a normal return exactly its result was added, in its reserved place if it had
        one. A reserved call's starvation notice always fits; only that of a failed recall may not. */
    method Dispatch(frame: Frame, call: Turn) returns (r: Status<Turn>)
      requires call.Call?
      modifies this`tick, frame`exchanges, frame`pending, frame`finalizationOnly, frame`finalizationReason
      ensures tick >= old(tick)
      ensures r.Done? ==> Answers(r.value, call) && Fits(frame)
      ensures r.Done? ==>
        if Pends(old(frame.pending), call.id)
        then frame.pending == Without(old(frame.pending), call.id)
            && frame.exchanges == old(frame.exchanges) + [r.value]
        else frame.pending == old(frame.pending) && frame.exchanges == old(frame.exchanges) + [call, r.value]
      ensures KeptOrFailed(old(frame.finalizationReason), frame.finalizationReason)
      ensures r.Raised? ==>
        r.why in {MeterFailed, FrameSourceOverflow, Starved, UnknownTool, UnstableMeter, ClosureDoesNotFit}
      ensures r == Raised(UnknownTool) ==> UnknownName(call)
      ensures r == Raised(UnstableMeter) ==> call.name == "remaining_context"
      ensures r == Raised(Starved) ==> old(frame.finalizationOnly || !Permits(frame))
      ensures r == Raised(ClosureDoesNotFit) && old(Reserved(frame.pending, call)) ==>
        frame.finalizationReason == RECALL_FAILED && call.name == "memory_recall"
            && old(SomeNoticeOverflows(frame, call))
      ensures Additive() && old(Reserved(frame.pending, call) && Fits(frame)) && r.Raised? ==>
        r.why != MeterFailed && r.why != FrameSourceOverflow
      decreases ContextDepth(frame.source), 4
    {
      var report := Guard(frame);
      if report.Raised? {
        return Raised(report.why);
      }
      if frame.finalizationOnly {
        return Raised(Starved);
      }
      var result := Resolve(frame, call, report.value.remaining);
      if result.Raised? {
        return result;
      }
      r := Deliver(frame, call, result.value);
    }

    /** Identifiers must be nonempty and new to the frame and to the batch. */
    method CheckIds(frame: Frame, calls: seq<Turn>) returns (ok: bool)
      requires forall c | c in calls :: c.Call?
      ensures ok <==> FreshIds(CallIds(frame.source + frame.exchanges), calls)
    {
      ghost var used := CallIds(frame.source + frame.exchanges);
      var seen := CallIds(frame.source + frame.exchanges);
      for i := 0 to |calls|
        invariant seen == used + CallIds(calls[..i])
        invariant FreshIds(used, calls[..i])
      {
        if calls[i].id == "" || calls[i].id in seen {
          StaleId(used, calls, i);
          return false;
        }
        assert calls[..i + 1] == calls[..i] + [calls[i]];
        assert CallIds(calls[..i + 1]) == CallIds(calls[..i]) + {calls[i].id};
        FreshMore(seen, used, calls, i);
        seen := seen + {calls[i].id};
      }
      assert calls[..|calls|] == calls;
      ok := true;
    }

    /** The frame's charge is measured and fits. */
    ghost predicate Fits(frame: Frame)
      reads frame`exchanges, frame`pending
    {
      Left(frame.Charged()).Some? && Left(frame.Charged()).value >= 0
    }

    /** The frame's own report still allows tools. */
    ghost predicate Permits(frame: Frame)
      reads frame`exchanges, frame`pending
    {
      Measure(frame.Charged()).Done? && Measure(frame.Charged()).value.permitted
    }

    /** With this result in the call's place the frame fits. */
    ghost predicate FitsWith(frame: Frame, call: Turn, result: Turn)
      requires call.Call?
      reads frame`exchanges, frame`pending
    {
      Left(frame.WithResult(call, result)).Some? && Left(frame.WithResult(call, result)).value >= 0
    }

    /** A recall failed and some notice of it overflows the frame. */
    ghost predicate RecallNoticeOverflows(frame: Frame, call: Turn)
      requires call.Call?
      reads frame
    {
      frame.finalizationReason == RECALL_FAILED && call.name == "memory_recall" && SomeNoticeOverflows(frame, call)
    }

    /** With some failure notice in its reserved place the frame overflows. */
    ghost predicate SomeNoticeOverflows(frame: Frame, call: Turn)
      requires call.Call?
      reads frame`exchanges, frame`pending
    {
      exists reason :: NoticeOverflows(frame, call, reason)
    }

    ghost predicate NoticeOverflows(frame: Frame, call: Turn, reason: string)
      requires call.Call?
      reads frame`exchanges, frame`pending
    {
      var left := Left(frame.WithResult(call, Closing(call, reason)));
      left.Some? && left.value < 0
    }

    /** For every deterministic meter: closing a reserved call for starvation costs nothing more. */
    lemma ClosureFits(frame: Frame, call: Turn)
      requires call.Call? && Reserved(frame.pending, call)
      ensures frame.WithResult(call, Closing(call, STARVATION)) == frame.Charged()
      ensures Fits(frame) ==> !NoticeOverflows(frame, call, STARVATION)
    {
      var held, rest :| ReservedAt(frame.pending, call, held, rest);
      ReservedPlace(frame.pending, call, held, rest, Closing(call, STARVATION));
    }

    /** Serves one reserved call: the tool runs, or after starvation its reserved result closes it. */
    method Serve(frame: Frame, call: Turn, ghost held: seq<Turn>, ghost rest: seq<Turn>) returns (r: Status<Turn>)
      requires call.Call? && ReservedAt(frame.pending, call, held, rest)
      modifies this`tick, frame`exchanges, frame`pending, frame`finalizationOnly, frame`finalizationReason
      ensures tick >= old(tick)
      ensures r.Done? ==>
                && Answers(r.value, call)
                && frame.exchanges == old(frame.exchanges) + [r.value] && frame.pending == held + rest
      ensures KeptOrFailed(old(frame.finalizationReason), frame.finalizationReason)
      ensures r.Raised? ==> r.why != InvalidCallId && r.why != BatchDoesNotFit && r.why != UnauthorizedMemory
      ensures old(frame.finalizationOnly) ==>
          frame.finalizationOnly && frame.finalizationReason == old(frame.finalizationReason)
      ensures Additive() && !old(Fits(frame)) ==>
                r == Raised(FrameSourceOverflow) && frame.finalizationReason == old(frame.finalizationReason)
      ensures Additive() && old(Fits(frame)) && r.Raised? ==>
                Excused(r.why, call, frame.finalizationReason) && !old(frame.finalizationOnly)
      ensures Additive() && old(Fits(frame) && Noticed(frame)) && r.Done? ==> Settled(frame, call)
      decreases ContextDepth(frame.source), 5
    {
      var report := Guard(frame);
      if report.Raised? {
        return Raised(report.why);
      }
      if frame.finalizationOnly {
        var closed := Close(frame, call, held, rest);
        r := Done(closed);
      } else {
        ReservedPlace(frame.pending, call, held, rest, call);
        assert Reserved(frame.pending, call);
        if Additive() { HeavyNotice(frame, call, held, rest); }
        r := Dispatch(frame, call);
      }
    }

    method Close(frame: Frame, call: Turn, ghost held: seq<Turn>, ghost rest: seq<Turn>) returns (result: Turn)
      requires call.Call? && ReservedAt(frame.pending, call, held, rest)
      modifies frame`exchanges, frame`pending
      ensures result == Closing(call, frame.finalizationReason)
      ensures frame.exchanges == old(frame.exchanges) + [result] && frame.pending == held + rest
      ensures Additive() && old(Fits(frame) && Noticed(frame)) ==> Settled(frame, call)
    {
      ReservedPlace(frame.pending, call, held, rest, call);
      if Additive() { ClosedFits(frame, call, held, rest, frame.finalizationReason); }
      result := Closing(call, frame.finalizationReason);
      frame.pending := Without(frame.pending, call.id);
      frame.exchanges := frame.exchanges + [result];
    }

    /** Calls are closed with the notice they were reserved with, or with that of a failed recall. */
    ghost predicate Noticed(frame: Frame)
      reads frame
    {
      frame.finalizationReason == STARVATION || frame.finalizationReason == RECALL_FAILED
    }

    /** The frame fits, unless a recall failed and its notice is heavier than the reserved one. */
    ghost predicate Settled(frame: Frame, call: Turn)
      requires call.Call?
      reads frame
    {
      Fits(frame) || (frame.finalizationReason == RECALL_FAILED && Heavier(call, RECALL_FAILED))
    }

    /** This notice weighs more than the one reserved for the call. */
    ghost predicate Heavier(call: Turn, reason: string)
      requires call.Call?
    {
      Weight(Closing(call, reason)) > Weight(Closing(call, STARVATION))
    }

    /** What serving one call that fitted may still raise. */
    ghost predicate Excused(why: Failure, call: Turn, reason: string)
      requires call.Call?
    {
      || (why == UnknownTool && UnknownName(call))
      || (why == UnstableMeter && call.name == "remaining_context")
      || (why == ClosureDoesNotFit && call.name == "memory_recall" && reason == RECALL_FAILED
           && exists notice :: Heavier(call, notice))
    }

    method ServeAll(frame: Frame, calls: seq<Turn>, ghost held: seq<Turn>, ghost prohibited: seq<Turn>)
      returns (r: Status<seq<Turn>>)
      requires Reservable(held, calls) && frame.pending == held + prohibited && ReservedFor(prohibited, calls)
      modifies this`tick, frame`exchanges, frame`pending, frame`finalizationOnly, frame`finalizationReason
      ensures tick >= old(tick)
      ensures r.Done? ==>
                && AnswerEach(r.value, calls)
                && frame.exchanges == old(frame.exchanges) + r.value && frame.pending == held
      ensures r.Raised? ==> r.why != InvalidCallId && r.why != BatchDoesNotFit && r.why != UnauthorizedMemory
      ensures Additive() && old(Fits(frame) && frame.finalizationReason == STARVATION) ==>
                && (r.Raised? ==> BatchExcused(r.why, calls, frame.finalizationReason) && !old(frame.finalizationOnly))
                && (r.Done? ==> Fits(frame) || NoticeTooHeavy(calls, frame.finalizationReason))
      ensures Additive() && old(Fits(frame) && frame.finalizationReason == STARVATION && frame.finalizationOnly) ==>
                Fits(frame)
      decreases ContextDepth(frame.source), 6, 0
    {
      var results: seq<Turn> := [];
      ghost var calm := Additive() && Fits(frame) && frame.finalizationReason == STARVATION;
      assert prohibited[0..] == prohibited;
      for i := 0 to |calls|
        invariant |results| == i && AnswerEach(results, calls[..i]) && tick >= old(tick)
        invariant frame.exchanges == old(frame.exchanges) + results
        invariant frame.pending == held + prohibited[i..]
        invariant KeptOrFailed(old(frame.finalizationReason), frame.finalizationReason)
        invariant old(frame.finalizationOnly) ==>
                    frame.finalizationOnly && frame.finalizationReason == old(frame.finalizationReason)
        invariant calm ==> Fits(frame) || NoticeTooHeavy(calls, frame.finalizationReason)
      {
        var call := calls[i];
        assert call in calls;
        TakeReserved(held, prohibited, calls, i);
        var served := Serve(frame, call, held, prohibited[i + 1..]);
        if served.Raised? {
          return Raised(served.why);
        }
        AnswerMore(results, calls, i, served.value);
        results := results + [served.value];
      }
      assert calls[..|calls|] == calls && prohibited[|calls|..] == [];
      r := Done(results);
    }

    /** A failed recall's notice is heavier than some call's reserved one. */
    ghost predicate NoticeTooHeavy(calls: seq<Turn>, reason: string) {
      reason == RECALL_FAILED && exists c | c in calls && c.Call? :: Heavier(c, RECALL_FAILED)
    }

    /** What an admitted batch may still raise: never an overflow by closing for starvation. */
    ghost predicate BatchExcused(why: Failure, calls: seq<Turn>, reason: string) {
      || (exists c | c in calls && c.Call? :: Excused(why, c, reason))
      || (why == FrameSourceOverflow && NoticeTooHeavy(calls, reason))
    }

    /** A batch is turned away when an identifier is unusable or its closing results do not fit. */
    ghost predicate Inadmissible(frame: Frame, calls: seq<Turn>)
      requires forall c | c in calls :: c.Call?
      reads frame`exchanges, frame`pending
    {
      || !FreshIds(CallIds(frame.source + frame.exchanges), calls)
      || (var left := Left(frame.Charged() + calls + Prohibited(calls)); left.None? || left.value < 0)
    }

    /** All calls are admitted and their closing results reserved before any runs. On a normal
        return the exchanges grew by all calls and then one result per call in call order, and
        nothing stays pending that was not before. With a meter that adds up over messages an
        admitted batch only raises for an unknown tool, a report that does not settle, or the
        notice of a failed recall that is heavier than the one reserved; a batch that is only to
        be closed never raises. */
    method DispatchBatch(frame: Frame, calls: seq<Turn>) returns (r: Status<seq<Turn>>)
      requires frame.Valid() && forall c | c in calls :: c.Call?
      modifies this`tick, frame`exchanges, frame`pending, frame`finalizationOnly, frame`finalizationReason
      ensures tick >= old(tick) && r != Raised(UnauthorizedMemory)
      ensures r.Done? ==>
                && AnswerEach(r.value, calls)
                && frame.exchanges == old(frame.exchanges) + calls + r.value
                && frame.pending == old(frame.pending)
                && frame.Valid() && Fits(frame)
      ensures r == Raised(InvalidCallId) <==> !old(FreshIds(CallIds(frame.source + frame.exchanges), calls))
      ensures old(Inadmissible(frame, calls)) ==>
                r.Raised? && r.why in {InvalidCallId, MeterFailed, BatchDoesNotFit} && unchanged(frame)
      ensures r == Raised(BatchDoesNotFit) ==> old(Inadmissible(frame, calls))
      ensures Additive() && old(frame.finalizationReason == STARVATION && !Inadmissible(frame, calls)) ==>
                && (r.Raised? ==> BatchExcused(r.why, calls, frame.finalizationReason))
                && (old(frame.finalizationOnly) ==> r.Done?)
      decreases ContextDepth(frame.source), 6, 1
    {
      var admissible := CheckIds(frame, calls);
      if !admissible {
        return Raised(InvalidCallId);
      }
      var prohibited := Prohibited(calls);
      var left := Left(frame.Charged() + calls + prohibited);
      if left.None? || left.value < 0 {
        return Raised(if left.None? then MeterFailed else BatchDoesNotFit);
      }
      NotPending(frame.pending, frame.exchanges, frame.source, calls);
      frame.exchanges := frame.exchanges + calls;
      frame.pending := frame.pending + prohibited;
      if Additive() {
        Admitted(frame, old(frame.exchanges), old(frame.pending), calls, prohibited);
      }
      var served := ServeAll(frame, calls, old(frame.pending), prohibited);
      if served.Raised? {
        return Raised(served.why);
      }
      var report := Guard(frame);
      if report.Raised? {
        if Additive() { LeftIs(frame.Charged()); }
        return Raised(report.why);
      }
      assert CallIds(old(frame.exchanges)) <= CallIds(frame.exchanges);
      r := served;
    }

    // ---------- meters that add up ----------

    /** What the meter says of one message alone. */
    function Weight(item: Turn): nat {
      var n := oracles.meter([item]);
      if n.Some? then n.value else 0
    }

    function Total(items: seq<Turn>): nat {
      if items == [] then 0 else Weight(items[0]) + Total(items[1..])
    }

    /** The meter adds up over messages. */
    ghost predicate Additive() {
      forall items: seq<Turn> :: oracles.meter(items) == Some(Total(items))
    }

    lemma {:induction false} TotalOf(a: seq<Turn>, b: seq<Turn>)
      ensures Total(a + b) == Total(a) + Total(b)
    {
      if a == [] {
        assert a + b == b;
      } else {
        TotalOf(a[1..], b);
        assert (a + b)[1..] == a[1..] + b;
      }
    }

    /** Left over once nothing but these weights count. */
    lemma LeftIs(messages: seq<Turn>)
      requires Additive()
      ensures Left(messages) == Some(limits.total - Total(messages) - limits.reserve)
    {
    }

    lemma Admitted(frame: Frame, exchanges: seq<Turn>, pending: seq<Turn>, calls: seq<Turn>, prohibited: seq<Turn>)
      requires Additive()
      requires frame.exchanges == exchanges + calls && frame.pending == pending + prohibited
      ensures Left(frame.Charged()) ==
          Left(frame.source + [User(frame.question)] + exchanges + pending + calls + prohibited)
    {
      var head := frame.source + [User(frame.question)];
      LeftIs(frame.Charged());
      LeftIs(head + exchanges + pending + calls + prohibited);
      TotalOf(head + frame.exchanges, frame.pending);
      TotalOf(head, frame.exchanges);
      TotalOf(exchanges, calls);
      TotalOf(pending, prohibited);
      TotalOf(head + exchanges + pending + calls, prohibited);
      TotalOf(head + exchanges + pending, calls);
      TotalOf(head + exchanges, pending);
      TotalOf(head, exchanges);
    }

    /** A result in the reserved place changes the charge by the difference from the reserved
        notice. */
    lemma PlacedLeft(frame: Frame, call: Turn, held: seq<Turn>, rest: seq<Turn>, result: Turn)
      requires Additive() && call.Call? && ReservedAt(frame.pending, call, held, rest)
      ensures Left(frame.Charged()).Some?
      ensures Left(frame.WithResult(call, result)) ==
              Some(Left(frame.Charged()).value - Weight(result) + Weight(Closing(call, STARVATION)))
    {
      var before := frame.source + [User(frame.question)] + frame.exchanges;
      ReservedPlace(frame.pending, call, held, rest, result);
      LeftIs(frame.Charged());
      LeftIs(frame.WithResult(call, result));
      PlacedTotal(before, held, Closing(call, STARVATION), rest);
      PlacedTotal(before, held, result, rest);
    }

    /** It costs the same once it has moved into the exchanges. */
    lemma MovedLeft(frame: Frame, call: Turn, held: seq<Turn>, rest: seq<Turn>, result: Turn)
      requires Additive() && call.Call? && ReservedAt(frame.pending, call, held, rest)
      ensures Left(frame.source + [User(frame.question)] + (frame.exchanges + [result]) + (held + rest))
                == Left(frame.WithResult(call, result))
    {
      var head := frame.source + [User(frame.question)];
      ReservedPlace(frame.pending, call, held, rest, result);
      LeftIs(head + (frame.exchanges + [result]) + (held + rest));
      LeftIs(frame.WithResult(call, result));
      PlacedTotal(head + frame.exchanges, held, result, rest);
      MovedTotal(head, frame.exchanges, result, held, rest);
    }

    lemma MovedTotal(head: seq<Turn>, exchanges: seq<Turn>, result: Turn, held: seq<Turn>, rest: seq<Turn>)
      ensures Total(head + (exchanges + [result]) + (held + rest)) ==
              Total(head + exchanges) + Total(held) + Weight(result) + Total(rest)
    {
      TotalOf(head + (exchanges + [result]), held + rest);
      TotalOf(head, exchanges + [result]);
      TotalOf(exchanges, [result]);
      TotalOf(head, exchanges);
      TotalOf(held, rest);
    }

    lemma PlacedTotal(before: seq<Turn>, held: seq<Turn>, item: Turn, rest: seq<Turn>)
      ensures Total(before + (held + [item] + rest)) == Total(before) + Total(held) + Weight(item) + Total(rest)
    {
      TotalOf(before, held + [item] + rest);
      TotalOf(held + [item], rest);
      TotalOf(held, [item]);
    }

    /** A result that fitted in its reserved place fits once it has moved into the exchanges. */
    lemma AnsweredFits(frame: Frame, call: Turn, result: Turn)
      requires Additive() && call.Call? && Reserved(frame.pending, call)
      ensures Left(frame.source + [User(frame.question)] + (frame.exchanges + [result]) +
          Without(frame.pending, call.id))
                == Left(frame.WithResult(call, result))
      ensures Pends(frame.pending, call.id)
    {
      var held, rest :| ReservedAt(frame.pending, call, held, rest);
      ReservedPlace(frame.pending, call, held, rest, result);
      MovedLeft(frame, call, held, rest, result);
    }

    /** Closing a reserved call overflows a frame that fitted only with a heavier notice. */
    lemma ClosedFits(frame: Frame, call: Turn, held: seq<Turn>, rest: seq<Turn>, reason: string)
      requires Additive() && call.Call? && ReservedAt(frame.pending, call, held, rest)
      ensures var left := Left(frame.source + [User(frame.question)] + (frame.exchanges + [Closing(call, reason)]) +
          (held + rest));
              Fits(frame) && !Heavier(call, reason) ==> left.Some? && left.value >= 0
    {
      PlacedLeft(frame, call, held, rest, Closing(call, reason));
      MovedLeft(frame, call, held, rest, Closing(call, reason));
    }

    /** In a frame that fits, only a heavier notice overflows in the reserved place. */
    lemma HeavyNotice(frame: Frame, call: Turn, held: seq<Turn>, rest: seq<Turn>)
      requires Additive() && call.Call? && ReservedAt(frame.pending, call, held, rest)
      ensures Fits(frame) && SomeNoticeOverflows(frame, call) ==> exists notice :: Heavier(call, notice)
    {
      if Fits(frame) && SomeNoticeOverflows(frame, call) {
        var reason :| NoticeOverflows(frame, call, reason);
        PlacedLeft(frame, call, held, rest, Closing(call, reason));
        assert Heavier(call, reason);
      }
    }
  }

  /** A failed recall replaces the reason remaining calls are closed with. */
  predicate KeptOrFailed(before: string, after: string) { after == before || after == RECALL_FAILED }

  predicate UnknownName(call: Turn)
    requires call.Call?
  {
    call.name != "remaining_context" && call.name != "memory_recall"
  }

  // ---------- identifiers ----------

  ghost predicate FreshIds(used: set<string>, calls: seq<Turn>) {
    && (forall c | c in calls && c.Call? :: c.id != "" && c.id !in used)
    && DistinctIds(calls)
  }

  ghost predicate DistinctIds(calls: seq<Turn>) {
    forall i, j | 0 <= i < j < |calls| && calls[i].Call? && calls[j].Call? :: calls[i].id != calls[j].id
  }

  lemma FreshMore(seen: set<string>, used: set<string>, calls: seq<Turn>, i: nat)
    requires i < |calls| && (forall c | c in calls :: c.Call?) && seen == used + CallIds(calls[..i])
    requires FreshIds(used, calls[..i]) && calls[i].id != "" && calls[i].id !in seen
    ensures FreshIds(used, calls[..i + 1])
  {
    assert calls[..i + 1] == calls[..i] + [calls[i]];
    forall j | 0 <= j < i ensures calls[j].id != calls[i].id {
      assert calls[j] in calls[..i] && calls[j].id in CallIds(calls[..i]);
    }
  }

  lemma StaleId(used: set<string>, calls: seq<Turn>, i: nat)
    requires (forall c | c in calls :: c.Call?) && i < |calls|
    requires calls[i].id == "" || calls[i].id in used + CallIds(calls[..i])
    ensures !FreshIds(used, calls)
  {
    if calls[i].id in CallIds(calls[..i]) {
      var c :| c in calls[..i] && c.Call? && c.id == calls[i].id;
      var j :| 0 <= j < i && calls[j] == c;
      assert !DistinctIds(calls);
    } else {
      assert calls[i] in calls;
    }
  }

  lemma NotPending(pending: seq<Turn>, exchanges: seq<Turn>, source: seq<Turn>, calls: seq<Turn>)
    requires forall p | p in pending :: p.Result? && p.callId in CallIds(exchanges)
    requires FreshIds(CallIds(source + exchanges), calls)
    requires forall c | c in calls :: c.Call?
    ensures Reservable(pending, calls)
  {
    assert CallIds(exchanges) <= CallIds(source + exchanges);
  }

  /** Calls whose reserved results can be told apart from everything already pending. */
  ghost predicate Reservable(held: seq<Turn>, calls: seq<Turn>) {
    (forall c | c in calls :: c.Call? && !Pends(held, c.id)) && DistinctIds(calls)
  }

  /** Each call's closing result, in call order. */
  ghost predicate ReservedFor(prohibited: seq<Turn>, calls: seq<Turn>) {
    |prohibited| == |calls|
    && forall i | 0 <= i < |calls| :: calls[i].Call? && prohibited[i] == Closing(calls[i], STARVATION)
  }

  lemma TakeReserved(pending: seq<Turn>, prohibited: seq<Turn>, calls: seq<Turn>, i: nat)
    requires i < |calls| && Reservable(pending, calls) && ReservedFor(prohibited, calls)
    ensures calls[i].Call? && ReservedAt(pending + prohibited[i..], calls[i], pending, prohibited[i + 1..])
  {
    assert calls[i] in calls;
    LaterNotReserved(prohibited, calls, i);
    assert prohibited[i..] == [prohibited[i]] + prohibited[i + 1..];
  }

  lemma LaterNotReserved(prohibited: seq<Turn>, calls: seq<Turn>, i: nat)
    requires i < |calls| && ReservedFor(prohibited, calls) && DistinctIds(calls)
    ensures !Pends(prohibited[i + 1..], calls[i].id)
  {
    assert calls[i] in calls;
    forall p | p in prohibited[i + 1..] ensures p.Result? && p.callId != calls[i].id {
      var j :| i + 1 <= j < |prohibited| && prohibited[j] == p;
      assert Answers(prohibited[j], calls[j]);
    }
  }

  /** The notice a failed recall leaves as its result. */
  function Reason(why: Failure): string {
    match why
    case MeterFailed => "meter_failed"
    case FrameSourceOverflow => "frame_source_overflow"
    case Starved => STARVATION
    case UnknownTool => "unknown_recall_tool"
    case ClosureDoesNotFit => "recall_prohibition_does_not_fit"
    case BatchDoesNotFit => "recall_batch_closure_does_not_fit"
    case InvalidCallId => "invalid_recall_call_id"
    case UnstableMeter => "unstable_meter_result"
    case UnauthorizedMemory => "unauthorized_memory"
    case ModelFailed => "model_invocation_failed"
    case ProviderOverflow => "provider_context_overflow"
    case Truncated => "frame_completion_truncated"
    case InvalidToolCalls => "invalid_recall_tool_calls"
    case ToolsProhibited => "recall_tools_prohibited"
    case EmptyAnswer => "empty_frame_answer"
  }

  // ---------- whole rounds ----------

  function Spoken(text: string): seq<Turn> { if text == "" then [] else [Assistant(text)] }

  /** What one completion added: perhaps some text, the calls, then their results. */
  datatype Exchange = Exchange(text: string, calls: seq<Turn>, results: seq<Turn>)

  function Items(e: Exchange): seq<Turn> { Spoken(e.text) + e.calls + e.results }

  function Spread(exchanges: seq<Exchange>): seq<Turn> {
    if exchanges == [] then []
    else Spread(exchanges[..|exchanges| - 1]) + Items(exchanges[|exchanges| - 1])
  }

  /** Each call has its one result, in call order. */
  ghost predicate IsWhole(e: Exchange) { (forall c | c in e.calls :: c.Call?) && AnswerEach(e.results, e.calls) }

  ghost predicate Whole(exchanges: seq<Exchange>) { forall e | e in exchanges :: IsWhole(e) }

  /** Since then a frame's exchanges gained these, all whole. */
  ghost predicate Grown(before: seq<Turn>, after: seq<Turn>, added: seq<Exchange>) {
    Whole(added) && after == before + Spread(added)
  }

  lemma GrownMore(before: seq<Turn>, middle: seq<Turn>, after: seq<Turn>, added: seq<Exchange>, e: Exchange)
    requires Grown(before, middle, added) && IsWhole(e) && after == middle + Items(e)
    ensures Grown(before, after, added + [e])
  {
    assert (added + [e])[..|added|] == added;
  }

  // ---------- nested recall ----------

  function FindMemory(context: seq<Turn>, id: string): Option<Tombstone> {
    if context == [] then None
    else
      var last := context[|context| - 1];
      if last.Memory? && last.tombstone.id == id then Some(last.tombstone)
      else FindMemory(context[..|context| - 1], id)
  }

  predicate Blank(s: string) { forall c | c in s :: c == ' ' || c == '\t' || c == '\n' || c == '\r' }

  function VisibleMemory(context: seq<Turn>, call: Turn): (r: Option<(Tombstone, string)>)
    requires call.Call?
    ensures r.Some? ==> Memory(r.value.0) in context
  {
    var arguments := call.arguments;
    if arguments.memoryId.None? || arguments.question.None? || Blank(arguments.question.value) then None
    else
      FoundIsThere(context, arguments.memoryId.value);
      var memory := FindMemory(context, arguments.memoryId.value);
      if memory.None? then None else Some((memory.value, arguments.question.value))
  }

  lemma {:induction false} FoundIsThere(context: seq<Turn>, id: string)
    ensures FindMemory(context, id).Some? ==>
        Memory(FindMemory(context, id).value) in context && FindMemory(context, id).value.id == id
  {
    if context != [] { FoundIsThere(context[..|context| - 1], id); }
  }

  // ---------- why nested recall ends ----------

  /** How deeply memories are nested in a memory, in its inner one or in what it archives. */
  function Depth(t: Tombstone): nat
    decreases t, |t.messages| + 1
  {
    1 + Deeper(if t.inner.Some? then Depth(t.inner.value) else 0, DepthUpTo(t, |t.messages|))
  }

  function DepthUpTo(t: Tombstone, n: nat): nat
    requires n <= |t.messages|
    decreases t, n
  {
    if n == 0 then 0
    else
      var item := t.messages[n - 1];
      Deeper(DepthUpTo(t, n - 1), if item.Memory? then Depth(item.tombstone) else 0)
  }

  function Deeper(a: nat, b: nat): nat { if a < b then b else a }

  function ContextDepth(context: seq<Turn>): nat {
    if context == [] then 0
    else
      var last := context[|context| - 1];
      Deeper(ContextDepth(context[..|context| - 1]), if last.Memory? then Depth(last.tombstone) else 0)
  }

  lemma {:induction false} DepthInContext(context: seq<Turn>, memory: Tombstone)
    requires Memory(memory) in context
    ensures Depth(memory) <= ContextDepth(context)
  {
    var n := |context| - 1;
    if context[n] != Memory(memory) {
      assert Memory(memory) in context[..n];
      DepthInContext(context[..n], memory);
    }
  }

  /** A recall's own frame holds only memories less deep than the one it recalls, whatever that
      memory archives. */
  lemma DepthOfSource(memory: Tombstone)
    ensures ContextDepth(RecallSource(memory)) < Depth(memory)
  {
    var inner := if memory.inner.Some? then [Memory(memory.inner.value)] else [];
    if memory.inner.Some? { assert inner[..0] == []; }
    SourceUpTo(memory, inner, |memory.messages|);
    assert memory.messages[..|memory.messages|] == memory.messages;
  }

  lemma {:induction false} SourceUpTo(memory: Tombstone, inner: seq<Turn>, n: nat)
    requires n <= |memory.messages|
    ensures ContextDepth(inner + memory.messages[..n]) <= Deeper(ContextDepth(inner), DepthUpTo(memory, n))
  {
    if n == 0 {
      assert inner + memory.messages[..0] == inner;
    } else {
      SourceUpTo(memory, inner, n - 1);
      assert (inner + memory.messages[..n])[..|inner| + n - 1] == inner + memory.messages[..n - 1];
    }
  }

  /** How many memories are nested in one another here. */
  function Nesting(t: Tombstone): nat { 1 + if t.inner.Some? then Nesting(t.inner.value) else 0 }

  /** Any memory a recall's own frame can recall in turn is nested strictly deeper, so a chain of
      nested recalls ends after at most as many steps as there are nested memories. */
  lemma NestedRecallDescends(memory: Tombstone, call: Turn)
    requires call.Call? && Plain(memory.messages)
    ensures VisibleMemory(RecallSource(memory), call).Some? ==>
              Nesting(VisibleMemory(RecallSource(memory), call).value.0) == Nesting(memory) - 1
  {
    var visible := VisibleMemory(RecallSource(memory), call);
    if visible.Some? {
      assert Memory(visible.value.0) !in memory.messages;
    }
  }
}
