/** The compaction loop, for every meter, every model and every summary parser. */
module Compactor {
  import opened Wrappers
  import opened History
  import opened Compaction

  datatype Run = Answered(text: string) | Overflowed | Broken

  /** Outside answers, each free to depend on when it is asked for. */
  datatype Oracles = Oracles(
    meter: (nat, seq<Turn>) -> Option<nat>,
    run: (nat, seq<Turn>) -> Run,
    parse: string -> Option<string>,
    identifier: nat -> string)

  datatype Round = Finished | Replaced(memory: Tombstone, split: nat) | Stopped(why: Failure)

  /** Readings, complete by the time `until`. */
  datatype Weights = Weights(size: nat, positions: seq<nat>, tokens: seq<nat>, until: nat)

  datatype Summarized = Summary(text: string) | NextRatio | Raise(why: Failure)

  const RATIOS: seq<nat> := [50, 40, 30, 20, 10]

  /** How many messages a history holds besides memory turns. */
  function Messages(source: seq<Turn>): nat {
    if source == [] then 0 else (if source[0].Memory? then 0 else 1) + Messages(source[1..])
  }

  lemma {:induction false} MessagesOf(source: seq<Turn>)
    requires Plain(source)
    ensures Messages(source) == |source|
  {
    if source != [] {
      assert Plain(source[1..]);
      MessagesOf(source[1..]);
    }
  }

  /** The first position whose prefix measured at least the given share of the whole. */
  function FirstReaching(boundaries: seq<nat>, tokens: seq<nat>, size: nat, ratio: nat): Option<nat>
    requires |boundaries| == |tokens|
  {
    if boundaries == [] then None
    else if tokens[0] * 100 >= size * ratio then Some(boundaries[0])
    else FirstReaching(boundaries[1..], tokens[1..], size, ratio)
  }

  /** Lowering the share never moves the choice to a later position, whatever was measured. */
  lemma {:induction false} LowerRatioEarlier(boundaries: seq<nat>, tokens: seq<nat>, size: nat, high: nat, low: nat)
    requires |boundaries| == |tokens| && low <= high
    requires forall i, j | 0 <= i < j < |boundaries| :: boundaries[i] < boundaries[j]
    ensures FirstReaching(boundaries, tokens, size, high).Some? ==>
              && FirstReaching(boundaries, tokens, size, low).Some?
              && FirstReaching(boundaries, tokens, size, low).value
                   <= FirstReaching(boundaries, tokens, size, high).value
    ensures FirstReaching(boundaries, tokens, size, low).Some? ==>
        FirstReaching(boundaries, tokens, size, low).value in boundaries
  {
    if boundaries != [] {
      assert size * low <= size * high by { Monotone(size, low, high); }
      LowerRatioEarlier(boundaries[1..], tokens[1..], size, high, low);
      if FirstReaching(boundaries[1..], tokens[1..], size, high).Some? {
        assert forall x | x in boundaries[1..] :: boundaries[0] < x;
        LowerRatioEarlier(boundaries[1..], tokens[1..], size, high, high);
      }
    }
  }

  lemma Monotone(a: nat, low: nat, high: nat)
    requires low <= high
    ensures a * low <= a * high
  {
  }

  /** One of the first `k` shares chose this position. */
  ghost predicate Chosen(boundaries: seq<nat>, tokens: seq<nat>, size: nat, k: nat, b: nat)
    requires |boundaries| == |tokens| && k <= |RATIOS|
  {
    exists j | 0 <= j < k :: FirstReaching(boundaries, tokens, size, RATIOS[j]) == Some(b)
  }

  lemma ChosenDescend(boundaries: seq<nat>, tokens: seq<nat>, size: nat, k: nat, b: nat)
    requires |boundaries| == |tokens| && k < |RATIOS|
    requires Ascending(boundaries) && FirstReaching(boundaries, tokens, size, RATIOS[k]) == Some(b)
    ensures b in boundaries && Chosen(boundaries, tokens, size, k + 1, b)
    ensures forall s: nat | Chosen(boundaries, tokens, size, k, s) ::
        b <= s && Chosen(boundaries, tokens, size, k + 1, s)
  {
    LowerRatioEarlier(boundaries, tokens, size, RATIOS[k], RATIOS[k]);
    forall s: nat | Chosen(boundaries, tokens, size, k, s)
      ensures b <= s && Chosen(boundaries, tokens, size, k + 1, s)
    {
      var j :| 0 <= j < k && FirstReaching(boundaries, tokens, size, RATIOS[j]) == Some(s);
      LowerRatioEarlier(boundaries, tokens, size, RATIOS[j], RATIOS[k]);
    }
  }

  ghost predicate SafePosition(source: seq<Turn>, b: nat) { Scannable(source) && Boundary(source, b) }

  ghost predicate Ascending(s: seq<nat>) { forall i, j | 0 <= i < j < |s| :: s[i] < s[j] }

  lemma SafePositions(source: seq<Turn>, positions: seq<nat>)
    requires Scannable(source) && positions == BoundariesUpTo(source, |source|)
    ensures Ascending(positions)
    ensures forall b | b in positions :: SafePosition(source, b)
    ensures forall i | 0 <= i < |positions| :: positions[i] <= |source|
  {
    BoundariesAre(source, |source|);
    assert forall i | 0 <= i < |positions| :: positions[i] in positions;
  }

  /** Strictly decreasing. */
  ghost predicate Descending(s: seq<nat>) { forall i, j | 0 <= i < j < |s| :: s[i] > s[j] }

  /** A split chosen for the first time is before all those tried. */
  lemma NextDescends(w: Weights, k: nat, seen: set<nat>, attempts: seq<nat>, b: nat)
    requires |w.tokens| == |w.positions| && k < |RATIOS| && Ascending(w.positions) && Descending(attempts)
    requires FirstReaching(w.positions, w.tokens, w.size, RATIOS[k]) == Some(b) && b !in seen
    requires forall s | s in seen :: Chosen(w.positions, w.tokens, w.size, k, s)
    requires forall a | a in attempts :: a in seen
    ensures b in w.positions && Chosen(w.positions, w.tokens, w.size, k + 1, b) && Descending(attempts + [b])
    ensures forall s | s in seen :: Chosen(w.positions, w.tokens, w.size, k + 1, s)
  {
    ChosenDescend(w.positions, w.tokens, w.size, k, b);
    forall i | 0 <= i < |attempts| ensures attempts[i] > b {
      assert attempts[i] in attempts;
    }
  }

  lemma ChosenEventually(w: Weights, k: nat, seen: set<nat>)
    requires |w.tokens| == |w.positions| && k <= |RATIOS|
    requires forall b | b in seen :: Chosen(w.positions, w.tokens, w.size, k, b)
    ensures forall b | b in seen :: Chosen(w.positions, w.tokens, w.size, |RATIOS|, b)
  {
  }

  class ContextCompactor {
    const oracles: Oracles
    const summaryCap: nat
    const minimumReduction: nat
    var tick: nat

    constructor (oracles: Oracles, summaryCap: nat, minimumReduction: nat)
      requires 0 < minimumReduction < 100
      ensures this.oracles == oracles && this.summaryCap == summaryCap && this.minimumReduction == minimumReduction
    {
      this.oracles, this.summaryCap, this.minimumReduction := oracles, summaryCap, minimumReduction;
      tick := 0;
    }

    /** The meter gave this reading for these messages at some moment of the interval. */
    ghost predicate MeasuredIn(since: nat, until: nat, messages: seq<Turn>, tokens: nat) {
      exists t | since <= t < until :: oracles.meter(t, messages) == Some(tokens)
    }

    ghost predicate Measured(since: nat, messages: seq<Turn>, tokens: nat)
      reads this
    {
      MeasuredIn(since, tick, messages, tokens)
    }

    /** What a round reads before it splits: the whole, and the prefix at every safe boundary. */
    ghost predicate Weighed(since: nat, source: seq<Turn>, w: Weights) {
      && w.positions == BoundariesUpTo(source, |source|) && |w.tokens| == |w.positions|
      && MeasuredIn(since, w.until, source, w.size)
      && forall i | 0 <= i < |w.positions| && w.positions[i] <= |source| ::
           MeasuredIn(since, w.until, source[..w.positions[i]], w.tokens[i])
    }

    method Count(messages: seq<Turn>) returns (r: Option<nat>)
      modifies this`tick
      ensures tick == old(tick) + 1 && r == oracles.meter(old(tick), messages)
    {
      r := oracles.meter(tick, messages);
      tick := tick + 1;
    }

    method Invoke(prefix: seq<Turn>) returns (r: Run)
      modifies this`tick
      ensures tick == old(tick) + 1 && r == oracles.run(old(tick), prefix)
    {
      r := oracles.run(tick, prefix);
      tick := tick + 1;
    }

    /** The text is a parsed answer of the model for this prefix, and measured within the cap. */
    ghost predicate SummaryOf(since: nat, until: nat, prefix: seq<Turn>, text: string) {
      && (exists t :: since <= t < until && Says(t, prefix, text))
      && (exists t :: since <= t < until && WithinCap(t, text))
    }

    predicate WithinCap(t: nat, text: string) {
      var n := oracles.meter(t, [Assistant(text)]);
      n.Some? && n.value <= summaryCap
    }

    predicate Says(t: nat, prefix: seq<Turn>, text: string) {
      var answer := oracles.run(t, prefix);
      answer.Answered? && oracles.parse(answer.text) == Some(text)
    }

    ghost predicate OverflowedIn(since: nat, until: nat, prefix: seq<Turn>) {
      exists t | since <= t < until :: oracles.run(t, prefix).Overflowed?
    }

    /** The outside answer that a failure rests on was given in the interval. */
    ghost predicate Blamed(why: Failure, since: nat, until: nat) {
      match why
      case MeterFailed => exists t, m | since <= t < until :: oracles.meter(t, m).None?
      case RunFailed => exists t, m | since <= t < until :: oracles.run(t, m).Broken?
      case SummaryFailed => exists t, m | since <= t < until :: Unparsed(oracles.run(t, m))
      case SummaryLimit => exists t, text | since <= t < until :: TooLong(t, text)
      case InsufficientProgress => exists t, m, memory | since <= t && t + 1 < until :: LittleGain(t, m, memory)
      case _ => false
    }

    predicate Unparsed(answer: Run) { answer.Answered? && oracles.parse(answer.text).None? }

    predicate TooLong(t: nat, text: string) {
      var n := oracles.meter(t, [Assistant(text)]);
      n.Some? && n.value > summaryCap
    }

    /** A prefix and then the memory for it measured closer than the minimum reduction. */
    predicate LittleGain(t: nat, prefix: seq<Turn>, memory: Tombstone) {
      var before, after := oracles.meter(t, prefix), oracles.meter(t + 1, [Memory(memory)]);
      before.Some? && after.Some? && after.value * 100 > before.value * (100 - minimumReduction)
    }

    /** One summary of a prefix, with one repair of a malformed envelope. */
    method Summarize(prefix: seq<Turn>) returns (r: Summarized)
      modifies this`tick
      ensures tick >= old(tick)
      ensures r.Raise? ==> Blamed(r.why, old(tick), tick)
      ensures r.NextRatio? ==> OverflowedIn(old(tick), tick, prefix)
      ensures r.Summary? ==> SummaryOf(old(tick), tick, prefix, r.text)
    {
      ghost var asked := tick;
      var answer := Invoke(prefix);
      if answer.Overflowed? {
        return NextRatio;
      }
      if answer.Broken? {
        return Raise(RunFailed);
      }
      var summary := oracles.parse(answer.text);
      if summary.None? {
        asked := tick;
        answer := Invoke(prefix);
        if answer.Overflowed? {
          return NextRatio;
        }
        if answer.Broken? {
          return Raise(RunFailed);
        }
        summary := oracles.parse(answer.text);
        if summary.None? {
          assert Unparsed(oracles.run(asked, prefix));
          return Raise(SummaryFailed);
        }
      }
      var size := Count([Assistant(summary.value)]);
      if size.None? {
        return Raise(MeterFailed);
      }
      if size.value > summaryCap {
        assert TooLong(tick - 1, summary.value);
        return Raise(SummaryLimit);
      }
      assert Says(asked, prefix, summary.value) && WithinCap(tick - 1, summary.value);
      r := Summary(summary.value);
    }

    method CountPrefixes(source: seq<Turn>, boundaries: seq<nat>) returns (r: Option<seq<nat>>)
      requires forall i | 0 <= i < |boundaries| :: boundaries[i] <= |source|
      modifies this`tick
      ensures tick >= old(tick)
      ensures r.Some? ==> |r.value| == |boundaries|
      ensures r.None? ==> Blamed(MeterFailed, old(tick), tick)
      ensures r.Some? ==> forall i | 0 <= i < |boundaries| ::
          MeasuredIn(old(tick), tick, source[..boundaries[i]], r.value[i])
    {
      var tokens: seq<nat> := [];
      for i := 0 to |boundaries|
        invariant |tokens| == i && tick >= old(tick)
        invariant forall j | 0 <= j < i :: MeasuredIn(old(tick), tick, source[..boundaries[j]], tokens[j])
      {
        var n := Count(source[..boundaries[i]]);
        if n.None? {
          return None;
        }
        assert MeasuredIn(old(tick), tick, source[..boundaries[i]], n.value);
        tokens := tokens + [n.value];
      }
      r := Some(tokens);
    }

    /** What one replacement promises. */
    ghost predicate Replacement(since: nat, source: seq<Turn>, split: nat, t: Tombstone)
      reads this
    {
      && Replaces(t, source, split)
      && Messages(ActiveContext(t)) < Messages(source)
      && Unfold(ActiveContext(t)) == Unfold(source)
      && SummaryOf(since, tick, source[..split], t.summary)
      && exists before: nat, after: nat ::
           && Measured(since, source[..split], before)
           && Measured(since, [Memory(t)], after)
           && after * 100 <= before * (100 - minimumReduction)
    }

    /** Tries one split: a replacement archives exactly the prefix and measured small enough; a
        memory out of position cannot be met here. None asks for the next ratio. */
    method Attempt(source: seq<Turn>, b: nat) returns (r: Option<Round>)
      requires SafePosition(source, b) && !(b == 1 && source[0].Memory?)
      modifies this`tick
      ensures tick >= old(tick)
      ensures r.Some? ==> !r.value.Finished?
      ensures r.Some? && r.value.Replaced? ==> r.value.split == b && Replacement(old(tick), source, b, r.value.memory)
      ensures r.Some? && r.value.Stopped? ==> Blamed(r.value.why, old(tick), tick)
      ensures r.None? ==> OverflowedIn(old(tick), tick, source[..b])
    {
      var summary := Summarize(source[..b]);
      if summary.NextRatio? {
        return None;
      }
      if summary.Raise? {
        return Some(Stopped(summary.why));
      }
      var round := Replace(old(tick), source, b, summary.text);
      r := Some(round);
    }

    /** Builds the memory for a summarized prefix and weighs it. */
    method Replace(ghost since: nat, source: seq<Turn>, b: nat, text: string) returns (r: Round)
      requires SafePosition(source, b) && !(b == 1 && source[0].Memory?)
      requires since <= tick && SummaryOf(since, tick, source[..b], text)
      modifies this`tick
      ensures tick >= old(tick) && !r.Finished?
      ensures r.Replaced? ==> r.split == b && Replacement(since, source, b, r.memory)
      ensures r.Stopped? ==> Blamed(r.why, old(tick), tick)
    {
      Positions(source, b);
      var prefix, remainder := source[..b], source[b..];
      var inner := if prefix[0].Memory? then Some(prefix[0].tombstone) else None;
      var originals := if inner.Some? then prefix[1..] else prefix;
      if !Plain(originals) || !Plain(remainder) {
        return Stopped(InvalidMemoryPosition);
      }
      PlainOnlyId(originals);
      PlainOnlyId(remainder);
      var replacement := Tombstone(oracles.identifier(tick), text, PlainOnly(originals), PlainOnly(remainder), inner);
      r := Weigh(since, source, b, replacement);
    }

    /** Keeps the memory only when it measures small enough beside what it archives. */
    method Weigh(ghost since: nat, source: seq<Turn>, b: nat, replacement: Tombstone) returns (r: Round)
      requires Replaces(replacement, source, b) && Plain(source[1..]) && !(b == 1 && source[0].Memory?)
      requires since <= tick && SummaryOf(since, tick, source[..b], replacement.summary)
      modifies this`tick
      ensures tick >= old(tick) && !r.Finished?
      ensures r.Replaced? ==> r.split == b && Replacement(since, source, b, r.memory)
      ensures r.Stopped? ==> Blamed(r.why, old(tick), tick)
    {
      ghost var now := tick;
      var before := Count(source[..b]);
      if before.None? {
        return Stopped(MeterFailed);
      }
      var after := Count([Memory(replacement)]);
      if after.None? {
        return Stopped(MeterFailed);
      }
      if after.value * 100 > before.value * (100 - minimumReduction) {
        assert LittleGain(now, source[..b], replacement);
        return Stopped(InsufficientProgress);
      }
      assert oracles.meter(now, source[..b]) == before && oracles.meter(now + 1, [Memory(replacement)]) == after;
      assert Measured(since, source[..b], before.value) && Measured(since, [Memory(replacement)], after.value);
      ReplacementConserves(replacement, source, b);
      FewerMessages(replacement, source, b);
      r := Replaced(replacement, b);
    }

    /** A split worth nothing: only a memory would be summarized, or the model overflowed on it. */
    ghost predicate Hopeless(source: seq<Turn>, b: nat, since: nat, until: nat) {
      b <= |source| && ((b == 1 && source[0].Memory?) || OverflowedIn(since, until, source[..b]))
    }

    /** One split; a memory alone before it is passed over. */
    method TrySplit(source: seq<Turn>, b: nat) returns (r: Option<Round>, tried: bool)
      requires SafePosition(source, b)
      modifies this`tick
      ensures tick >= old(tick) && tried == !(b == 1 && source[0].Memory?)
      ensures r.Some? ==> tried && !r.value.Finished?
      ensures r.Some? && r.value.Replaced? ==> r.value.split == b && Replacement(old(tick), source, b, r.value.memory)
      ensures r.Some? && r.value.Stopped? ==> Blamed(r.value.why, old(tick), tick)
      ensures r.None? ==> Hopeless(source, b, old(tick), tick)
    {
      if b == 1 && source[0].Memory? {
        return None, false;
      }
      r := Attempt(source, b);
      tried := true;
    }

    /** Tries the splits the shares choose, in strictly descending order, each at a safe boundary
        and each once. */
    method TrySplits(source: seq<Turn>, w: Weights) returns (r: Round, ghost attempts: seq<nat>)
      requires Scannable(source) && w.positions == BoundariesUpTo(source, |source|) && |w.tokens| == |w.positions|
      modifies this`tick
      ensures tick >= old(tick) && !r.Finished?
      ensures r.Replaced? ==>
                && SafePosition(source, r.split) && attempts != [] && r.split == attempts[|attempts| - 1]
                && exists since: nat | since >= old(tick) :: Replacement(since, source, r.split, r.memory)
      ensures r.Stopped? && r.why != NoSafePrefix ==> Blamed(r.why, old(tick), tick)
      ensures r == Stopped(NoSafePrefix) ==>
                forall b | Chosen(w.positions, w.tokens, w.size, |RATIOS|, b) :: Hopeless(source, b, old(tick), tick)
      ensures Descending(attempts)
      ensures forall b | b in attempts :: SafePosition(source, b) && Chosen(w.positions, w.tokens, w.size, |RATIOS|, b)
    {
      attempts := [];
      SafePositions(source, w.positions);
      var seen: set<nat> := {};
      for k := 0 to |RATIOS|
        invariant tick >= old(tick) && Tried(source, w, k, seen, old(tick), tick)
        invariant Descending(attempts) && forall b | b in attempts :: b in seen && b in w.positions
      {
        var split := FirstReaching(w.positions, w.tokens, w.size, RATIOS[k]);
        if split.None? || split.value in seen {
          TriedMore(source, w, k, seen, split, old(tick), tick, tick);
          continue;
        }
        var b := split.value;
        NextDescends(w, k, seen, attempts, b);
        ghost var since := tick;
        var outcome, tried := TrySplit(source, b);
        if tried {
          attempts := attempts + [b];
        }
        if outcome.Some? {
          ChosenEventually(w, k + 1, seen + {b});
          return outcome.value, attempts;
        }
        TriedMore(source, w, k, seen, split, old(tick), since, tick);
        seen := seen + {b};
      }
      ChosenEventually(w, |RATIOS|, seen);
      r := Stopped(NoSafePrefix);
    }

    /** The splits the first k shares chose, all of them worth nothing. */
    ghost predicate Tried(source: seq<Turn>, w: Weights, k: nat, seen: set<nat>, since: nat, until: nat)
      requires |w.tokens| == |w.positions| && k <= |RATIOS|
    {
      && (forall b | b in seen :: Chosen(w.positions, w.tokens, w.size, k, b) && Hopeless(source, b, since, until))
      && (forall b: nat | Chosen(w.positions, w.tokens, w.size, k, b) :: b in seen)
    }

    lemma TriedMore(source: seq<Turn>, w: Weights, k: nat, seen: set<nat>, split: Option<nat>, since: nat, until: nat,
                    later: nat)
      requires |w.tokens| == |w.positions| && k < |RATIOS| && until <= later && Tried(source, w, k, seen, since, until)
      requires split == FirstReaching(w.positions, w.tokens, w.size, RATIOS[k])
      requires split.Some? ==> split.value in seen || Hopeless(source, split.value, since, later)
      ensures Tried(source, w, k + 1, if split.Some? then seen + {split.value} else seen, since, later)
      ensures split.Some? && split.value in seen ==> Tried(source, w, k + 1, seen, since, later)
    {
      forall b | b in seen
        ensures Chosen(w.positions, w.tokens, w.size, k + 1, b) && Hopeless(source, b, since, later)
      {
        assert Chosen(w.positions, w.tokens, w.size, k, b) && Hopeless(source, b, since, until);
      }
      if split.Some? {
        assert Chosen(w.positions, w.tokens, w.size, k + 1, split.value);
        assert split.value in seen ==> seen + {split.value} == seen;
      }
    }

    /** One round: the weights are read first, then the splits they choose are tried. */
    method CompactRound(source: seq<Turn>, hasMemory: bool, target: nat)
      returns (r: Round, ghost attempts: seq<nat>, ghost w: Weights)
      modifies this`tick
      ensures tick >= old(tick)
      ensures r == Finished ==> hasMemory && exists n: nat | n <= target :: Measured(old(tick), source, n)
      ensures r.Replaced? ==>
                && SafePosition(source, r.split) && attempts != [] && r.split == attempts[|attempts| - 1]
                && exists since: nat | since >= old(tick) :: Replacement(since, source, r.split, r.memory)
      ensures r.Stopped? ==> r.why != InvalidMemoryPosition
      ensures r.Stopped? && Scannable(source) ==> r.why == NoSafePrefix || Blamed(r.why, old(tick), tick)
      ensures r == Stopped(NoSafePrefix) && Scannable(source) ==>
                && |w.tokens| == |w.positions|
                && forall b | Chosen(w.positions, w.tokens, w.size, |RATIOS|, b) :: Hopeless(source, b, old(tick), tick)
      ensures Descending(attempts) && forall b | b in attempts :: SafePosition(source, b)
      ensures attempts != [] ==> Weighed(old(tick), source, w) && w.until <= tick
      ensures forall b | b in attempts ::
          |w.tokens| == |w.positions| && Chosen(w.positions, w.tokens, w.size, |RATIOS|, b)
    {
      attempts, w := [], Weights(0, [], [], 0);
      var size := Count(source);
      if size.None? {
        return Stopped(MeterFailed), attempts, w;
      }
      if hasMemory && size.value <= target {
        assert Measured(old(tick), source, size.value);
        return Finished, attempts, w;
      }
      var boundaries := SafeBoundaries(source);
      if boundaries.Fail? {
        return Stopped(boundaries.why), attempts, w;
      }
      SafePositions(source, boundaries.value);
      ghost var counted := tick;
      assert MeasuredIn(old(tick), counted, source, size.value);
      var tokens := CountPrefixes(source, boundaries.value);
      if tokens.None? {
        return Stopped(MeterFailed), attempts, w;
      }
      var weights := Weights(size.value, boundaries.value, tokens.value, tick);
      w := weights;
      WeighedAfter(old(tick), counted, source, w);
      r, attempts := TrySplits(source, weights);
    }

    lemma WeighedAfter(since: nat, counted: nat, source: seq<Turn>, w: Weights)
      requires since <= counted <= w.until && MeasuredIn(since, counted, source, w.size)
      requires w.positions == BoundariesUpTo(source, |source|) && |w.tokens| == |w.positions|
      requires forall i | 0 <= i < |w.positions| ::
                 w.positions[i] <= |source| && MeasuredIn(counted, w.until, source[..w.positions[i]], w.tokens[i])
      ensures Weighed(since, source, w)
    {
    }

    /** Rounds until the active context measures at most the target. Every returned memory
        unfolds, with what it keeps visible, to the unfolded input, and what it keeps visible
        starts at a safe boundary of the input. */
    method Compact(messages: seq<Turn>, target: nat) returns (r: Step<Tombstone>)
      modifies this`tick
      ensures r.Ok? ==>
                && Unfold(ActiveContext(r.value)) == Unfold(messages)
                && (exists b: nat :: Boundary(messages, b) && r.value.remaining == messages[b..])
                && (exists n: nat | n <= target :: Measured(old(tick), ActiveContext(r.value), n))
      ensures r.Fail? ==> r.why != InvalidMemoryPosition
      ensures r.Fail? && Scannable(messages) ==> r.why == NoSafePrefix || Blamed(r.why, old(tick), tick)
    {
      var source := messages;
      var memory: Option<Tombstone> := None;
      ghost var kept: nat := 0;
      while true
        invariant tick >= old(tick)
        invariant Reached(messages, source, memory, kept)
        decreases Messages(source)
      {
        ghost var started := tick;
        var round, attempts, w := CompactRound(source, memory.Some?, target);
        match round {
          case Finished =>
            ghost var n: nat :| n <= target && Measured(started, source, n);
            assert Measured(old(tick), source, n);
            return Ok(memory.value);
          case Stopped(why) =>
            if Scannable(messages) { StillScannable(messages, source, memory, kept); }
            return Fail(why);
          case Replaced(replacement, split) =>
            kept := Proceed(messages, source, memory, kept, replacement, split);
            memory := Some(replacement);
            source := ActiveContext(replacement);
        }
      }
    }
  }

  /** Between rounds: the input itself, or a memory of all of it before a safe boundary. */
  ghost predicate Reached(messages: seq<Turn>, source: seq<Turn>, memory: Option<Tombstone>, kept: nat) {
    if memory.None? then source == messages
    else
      && Scannable(messages) && Boundary(messages, kept)
      && memory.value.remaining == messages[kept..]
      && source == ActiveContext(memory.value)
      && Unfold(source) == Unfold(messages)
  }

  lemma StillScannable(messages: seq<Turn>, source: seq<Turn>, memory: Option<Tombstone>, kept: nat)
    requires Reached(messages, source, memory, kept) && Scannable(messages)
    ensures Scannable(source)
  {
    if memory.Some? { SafeSplit(messages, kept, memory.value); }
  }

  lemma Proceed(messages: seq<Turn>, source: seq<Turn>, memory: Option<Tombstone>, kept: nat, t: Tombstone, split: nat)
    returns (next: nat)
    requires Reached(messages, source, memory, kept) && SafePosition(source, split)
    requires Replaces(t, source, split) && Unfold(ActiveContext(t)) == Unfold(source)
    ensures Reached(messages, ActiveContext(t), Some(t), next)
  {
    next := split;
    if memory.Some? {
      next := Deeper(messages, source, memory.value, kept, split);
    }
    assert t.remaining == messages[next..];
  }

  lemma Deeper(messages: seq<Turn>, source: seq<Turn>, m: Tombstone, kept: nat, split: nat) returns (next: nat)
    requires Scannable(messages) && Boundary(messages, kept) && Boundary(source, split)
    requires source == [Memory(m)] + messages[kept..]
    ensures Boundary(messages, next) && source[split..] == messages[next..]
  {
    BoundaryBehindMemory(messages, kept, m, split);
    next := kept + split - 1;
  }

  /** A scan that passed leaves memory turns nowhere but in first position. */
  lemma Positions(source: seq<Turn>, b: nat)
    requires Scannable(source) && Boundary(source, b)
    ensures Plain(source[b..]) && Plain(source[1..]) && Plain(source[..b][1..])
    ensures !source[0].Memory? ==> Plain(source[..b])
  {
    MemoryOnlyFirst(source, |source|);
  }

  lemma FewerMessages(t: Tombstone, source: seq<Turn>, split: nat)
    requires Replaces(t, source, split) && Plain(source[1..]) && !(split == 1 && source[0].Memory?)
    ensures Messages(ActiveContext(t)) < Messages(source)
  {
    var kept := source[split..];
    assert Plain(kept) by { assert forall i | i in kept :: i in source[1..]; }
    MessagesOf(kept);
    MessagesOf(source[1..]);
    assert ActiveContext(t)[1..] == kept;
  }
}
