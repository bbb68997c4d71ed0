/** Context compaction: safe split points of a history, and the loop that replaces prefixes
    of it by nested tombstones until the visible context fits. */
module Compaction {
  import opened Wrappers
  import opened History

  // ---------- safe boundaries ----------

  datatype Failure =
    | MemoryMustBeFirst | InvalidToolLifecycle | OrphanToolResult | UnknownTaskLifecycle
    | InvalidTaskLifecycle | IncompleteToolLifecycle | NoSafePrefix | SummaryFailed | SummaryLimit
    | InvalidMemoryPosition | InsufficientProgress | MeterFailed | RunFailed

  /** What the scan knows after a prefix: open calls with their names, ids used, open tasks. */
  datatype Scan = Scan(calls: map<string, string>, seen: set<string>, tasks: set<string>)

  datatype Step<T> = Ok(value: T) | Fail(why: Failure)

  const TASK_TOOLS := {"start_task", "spawn_task", "run_subagent", "wait_task", "cancel_task"}

  const START := Scan(map[], {}, {})

  function Transit(tasks: set<string>, transitions: seq<Transition>): Step<set<string>>
    decreases |transitions|
  {
    if transitions == [] then
      Ok(tasks)
    else
      match transitions[0]
      case Created(t) => if t in tasks then Fail(InvalidTaskLifecycle) else Transit(tasks + {t}, transitions[1..])
      case Ended(t) => if t !in tasks then Fail(UnknownTaskLifecycle) else Transit(tasks - {t}, transitions[1..])
  }

  function Advance(s: Scan, item: Turn, first: bool): Step<Scan> {
    match item
    case User(_) => Ok(s)
    case Assistant(_) => Ok(s)
    case Memory(_) => if first then Ok(s) else Fail(MemoryMustBeFirst)
    case Call(id, name, _) =>
      if id == "" || id in s.seen then Fail(InvalidToolLifecycle)
      else Ok(Scan(s.calls[id := name], s.seen + {id}, s.tasks))
    case Result(id, name, _, transitions) =>
      if id !in s.calls then Fail(OrphanToolResult)
      else if s.calls[id] != name then Fail(InvalidToolLifecycle)
      else if name in TASK_TOOLS && transitions == [] then Fail(UnknownTaskLifecycle)
      else
        var tasks := Transit(s.tasks, transitions);
        if tasks.Fail? then Fail(tasks.why) else Ok(Scan(s.calls - {id}, s.seen, tasks.value))
  }

  /** The scan after the first `n` items, or the failure that stopped it. */
  function After(source: seq<Turn>, n: nat): Step<Scan>
    requires n <= |source|
  {
    if n == 0 then Ok(START)
    else
      var before := After(source, n - 1);
      if before.Fail? then before else Advance(before.value, source[n - 1], n == 1)
  }

  /** A user turn that is not first and before which no call and no task is open. */
  predicate Boundary(source: seq<Turn>, b: nat) {
    && 0 < b < |source|
    && source[b].User?
    && After(source, b).Ok?
    && After(source, b).value.calls == map[]
    && After(source, b).value.tasks == {}
  }

  predicate Scannable(source: seq<Turn>) {
    After(source, |source|).Ok? && After(source, |source|).value.calls == map[]
  }

  function BoundariesUpTo(source: seq<Turn>, n: nat): seq<nat>
    requires n <= |source|
  {
    if n == 0 then []
    else if Boundary(source, n - 1) then BoundariesUpTo(source, n - 1) + [n - 1]
    else BoundariesUpTo(source, n - 1)
  }

  /** The scan as it runs over mutable sets; it succeeds exactly on scannable histories and
      then lists exactly the boundaries, in increasing order. */
  method SafeBoundaries(source: seq<Turn>) returns (r: Step<seq<nat>>)
    ensures r.Ok? <==> Scannable(source)
    ensures After(source, |source|).Fail? ==> r == Fail(After(source, |source|).why)
    ensures r.Ok? ==> r.value == BoundariesUpTo(source, |source|)
    ensures r.Fail? ==> r.why != InvalidMemoryPosition
  {
    var calls: map<string, string> := map[];
    var seen: set<string> := {};
    var tasks: set<string> := {};
    var boundaries: seq<nat> := [];
    for index := 0 to |source|
      invariant After(source, index) == Ok(Scan(calls, seen, tasks))
      invariant boundaries == BoundariesUpTo(source, index)
    {
      var item := source[index];
      assert After(source, index + 1) == Advance(Scan(calls, seen, tasks), item, index == 0);
      if item.User? && index > 0 && calls == map[] && tasks == {} {
        boundaries := boundaries + [index];
      }
      match item {
        case User(_) =>
        case Assistant(_) =>
        case Memory(_) =>
          if index != 0 {
            FailsFrom(source, index + 1);
            return Fail(MemoryMustBeFirst);
          }
        case Call(id, name, _) =>
          if id == "" || id in seen {
            FailsFrom(source, index + 1);
            return Fail(InvalidToolLifecycle);
          }
          calls := calls[id := name];
          seen := seen + {id};
        case Result(id, name, _, transitions) =>
          if id !in calls {
            FailsFrom(source, index + 1);
            return Fail(OrphanToolResult);
          }
          var called := calls[id];
          calls := calls - {id};
          if called != name {
            FailsFrom(source, index + 1);
            return Fail(InvalidToolLifecycle);
          }
          if called in TASK_TOOLS && transitions == [] {
            FailsFrom(source, index + 1);
            return Fail(UnknownTaskLifecycle);
          }
          ghost var tasks0 := tasks;
          for k := 0 to |transitions|
            invariant Transit(tasks0, transitions) == Transit(tasks, transitions[k..])
          {
            match transitions[k] {
              case Created(t) =>
                if t in tasks {
                  FailsFrom(source, index + 1);
                  return Fail(InvalidTaskLifecycle);
                }
                tasks := tasks + {t};
              case Ended(t) =>
                if t !in tasks {
                  FailsFrom(source, index + 1);
                  return Fail(UnknownTaskLifecycle);
                }
                tasks := tasks - {t};
            }
          }
      }
    }
    r := if calls != map[] then Fail(IncompleteToolLifecycle) else Ok(boundaries);
  }

  lemma {:induction false} FailsFrom(source: seq<Turn>, n: nat)
    requires n <= |source| && After(source, n).Fail?
    ensures After(source, |source|) == After(source, n)
    decreases |source| - n
  {
    if n < |source| { FailsFrom(source, n + 1); }
  }

  lemma {:induction false} BoundariesAre(source: seq<Turn>, n: nat)
    requires n <= |source|
    ensures forall b | b in BoundariesUpTo(source, n) :: b < n && Boundary(source, b)
    ensures forall b | 0 <= b < n && Boundary(source, b) :: b in BoundariesUpTo(source, n)
    ensures forall i, j | 0 <= i < j < |BoundariesUpTo(source, n)| ::
        BoundariesUpTo(source, n)[i] < BoundariesUpTo(source, n)[j]
  {
    if n > 0 {
      BoundariesAre(source, n - 1);
      var before, all := BoundariesUpTo(source, n - 1), BoundariesUpTo(source, n);
      forall i, j | 0 <= i < j < |all|
        ensures all[i] < all[j]
      {
        assert all[i] == before[i] && before[i] in before;
      }
    }
  }

  // ---------- safe splits compose ----------

  lemma {:induction false} PrefixScan(source: seq<Turn>, b: nat, n: nat)
    requires n <= b <= |source|
    ensures After(source[..b], n) == After(source, n)
  {
    if n > 0 { PrefixScan(source, b, n - 1); }
  }

  /** From a boundary on, scanning the rest behind a memory turn runs in step with the original. */
  lemma {:induction false} SuffixScan(source: seq<Turn>, b: nat, m: Tombstone, k: nat)
    requires Boundary(source, b) && b + k <= |source| && After(source, b + k).Ok?
    ensures var t := [Memory(m)] + source[b..];
            && After(t, 1 + k).Ok?
            && After(t, 1 + k).value.calls == After(source, b + k).value.calls
            && After(t, 1 + k).value.tasks == After(source, b + k).value.tasks
            && After(t, 1 + k).value.seen <= After(source, b + k).value.seen
  {
    var t := [Memory(m)] + source[b..];
    assert After(t, 1) == Advance(START, t[0], true);
    if k > 0 {
      assert After(source, b + k - 1).Ok?;
      SuffixScan(source, b, m, k - 1);
      assert t[k] == source[b + k - 1];
    }
  }

  lemma {:induction false} ScansBefore(source: seq<Turn>, n: nat, m: nat)
    requires n <= m <= |source| && After(source, m).Ok?
    ensures After(source, n).Ok?
    decreases m - n
  {
    if n < m { ScansBefore(source, n, m - 1); }
  }

  /** Boundaries at or after `b`, as positions behind the memory turn that replaces the prefix. */
  function Shifted(boundaries: seq<nat>, b: nat): seq<nat> {
    if boundaries == [] then []
    else
      var last := boundaries[|boundaries| - 1];
      Shifted(boundaries[..|boundaries| - 1], b) + (if last >= b then [last - b + 1] else [])
  }

  lemma ShiftedAppend(boundaries: seq<nat>, x: nat, b: nat)
    ensures Shifted(boundaries + [x], b) ==
        if x >= b then Shifted(boundaries, b) + [x - b + 1] else Shifted(boundaries, b)
  {
    assert (boundaries + [x])[..|boundaries|] == boundaries;
  }

  lemma {:induction false} ShiftedBoundaries(source: seq<Turn>, b: nat, m: Tombstone, k: nat)
    requires Scannable(source) && Boundary(source, b) && b + k <= |source|
    ensures BoundariesUpTo([Memory(m)] + source[b..], 1 + k) == Shifted(BoundariesUpTo(source, b + k), b)
  {
    var t := [Memory(m)] + source[b..];
    if k == 0 {
      NothingShifted(source, b, b);
      assert BoundariesUpTo(t, 1) == BoundariesUpTo(t, 0) == [];
    } else {
      ShiftedBoundaries(source, b, m, k - 1);
      SameBoundary(source, b, m, k);
      ShiftedAppend(BoundariesUpTo(source, b + k - 1), b + k - 1, b);
    }
  }

  lemma SameBoundary(source: seq<Turn>, b: nat, m: Tombstone, k: nat)
    requires Scannable(source) && Boundary(source, b) && 1 <= k && b + k <= |source|
    ensures Boundary([Memory(m)] + source[b..], k) <==> Boundary(source, b + k - 1)
  {
    ScansBefore(source, b + k - 1, |source|);
    SuffixScan(source, b, m, k - 1);
    assert ([Memory(m)] + source[b..])[k] == source[b + k - 1];
  }

  lemma {:induction false} NothingShifted(source: seq<Turn>, b: nat, n: nat)
    requires n <= b <= |source|
    ensures Shifted(BoundariesUpTo(source, n), b) == []
  {
    if n > 0 {
      NothingShifted(source, b, n - 1);
      ShiftedAppend(BoundariesUpTo(source, n - 1), n - 1, b);
    }
  }

  /** Splitting at a safe boundary leaves two safe histories: the prefix, and the rest behind a
      memory turn, whose boundaries are exactly the old ones from the split on, shifted. */
  lemma SafeSplit(source: seq<Turn>, b: nat, m: Tombstone)
    requires Scannable(source) && Boundary(source, b)
    ensures Scannable(source[..b])
    ensures var t := [Memory(m)] + source[b..];
            Scannable(t) && BoundariesUpTo(t, |t|) == Shifted(BoundariesUpTo(source, |source|), b)
  {
    PrefixScan(source, b, b);
    assert Scannable(source[..b]);
    var t := [Memory(m)] + source[b..];
    assert |t| == 1 + (|source| - b);
    assert Scannable(t) by { SuffixScan(source, b, m, |source| - b); }
    ShiftedBoundaries(source, b, m, |source| - b);
  }

  /** The same, read backwards: a boundary behind the memory turn is one of the original's. */
  lemma BoundaryBehindMemory(source: seq<Turn>, b: nat, m: Tombstone, k: nat)
    requires Scannable(source) && Boundary(source, b)
    requires Boundary([Memory(m)] + source[b..], k)
    ensures 1 <= k && Boundary(source, b + k - 1)
  {
    SameBoundary(source, b, m, k);
  }

  // ---------- what a history contains ----------

  function PlainOnly(items: seq<Turn>): seq<Turn> {
    if items == [] then [] else (if items[0].Memory? then [] else [items[0]]) + PlainOnly(items[1..])
  }

  lemma {:induction false} PlainOnlyId(items: seq<Turn>)
    requires Plain(items)
    ensures PlainOnly(items) == items
  {
    if items != [] {
      assert Plain(items[1..]);
      PlainOnlyId(items[1..]);
    }
  }

  lemma {:induction false} MemoryOnlyFirst(source: seq<Turn>, n: nat)
    requires n <= |source| && After(source, n).Ok?
    ensures forall i | 1 <= i < n :: !source[i].Memory?
  {
    if n > 0 { MemoryOnlyFirst(source, n - 1); }
  }

  /** Everything a memory archives, oldest first: what its inner memory archives, then its own. */
  function Archive(t: Tombstone): seq<Turn> {
    (if t.inner.Some? then Archive(t.inner.value) else []) + t.messages
  }

  /** A history with its memory turns replaced by what they archive. */
  function Unfold(source: seq<Turn>): seq<Turn> {
    if source == [] then []
    else Unfolded(source[0]) + Unfold(source[1..])
  }

  lemma {:induction false} UnfoldPlain(items: seq<Turn>)
    requires Plain(items)
    ensures Unfold(items) == items
  {
    if items != [] {
      assert Plain(items[1..]);
      UnfoldPlain(items[1..]);
    }
  }

  function Unfolded(item: Turn): seq<Turn> {
    if item.Memory? then Archive(item.tombstone) else [item]
  }

  lemma UnfoldHead(item: Turn, rest: seq<Turn>)
    requires Plain(rest)
    ensures Unfold([item] + rest) == Unfolded(item) + rest
  {
    UnfoldPlain(rest);
    assert ([item] + rest)[1..] == rest;
  }

  /** The tombstone a prefix becomes: an inner memory if it starts with one, and the rest. */
  ghost predicate Replaces(t: Tombstone, source: seq<Turn>, split: nat) {
    && 0 < split <= |source|
    && t.remaining == source[split..]
    && if source[0].Memory? then t.inner == Some(source[0].tombstone) && t.messages == source[1..split]
       else t.inner == None && t.messages == source[..split]
  }

  lemma ArchivesPrefix(t: Tombstone, source: seq<Turn>, split: nat)
    requires Replaces(t, source, split)
    ensures Archive(t) == Unfolded(source[0]) + source[1..split]
  {
    assert source[..split] == [source[0]] + source[1..split];
  }

  lemma SourceUnfolds(source: seq<Turn>, split: nat)
    requires 0 < split <= |source| && Plain(source[1..])
    ensures Unfold(source) == Unfolded(source[0]) + source[1..split] + source[split..]
  {
    UnfoldPlain(source[1..]);
    SplitTail(Unfolded(source[0]), source, split);
  }

  lemma SplitTail<T>(head: seq<T>, s: seq<T>, split: nat)
    requires 0 < split <= |s|
    ensures head + s[1..] == head + s[1..split] + s[split..]
  {
  }

  lemma ActiveUnfolds(t: Tombstone)
    requires Plain(t.remaining)
    ensures Unfold(ActiveContext(t)) == Archive(t) + t.remaining
  {
    UnfoldHead(Memory(t), t.remaining);
  }

  /** Replacing a prefix by its tombstone changes nothing that can be unfolded. */
  lemma ReplacementConserves(t: Tombstone, source: seq<Turn>, split: nat)
    requires Replaces(t, source, split) && Plain(source[1..])
    ensures Unfold(ActiveContext(t)) == Unfold(source)
  {
    assert Plain(t.remaining) by { assert forall i | i in t.remaining :: i in source[1..]; }
    ArchivesPrefix(t, source, split);
    SourceUnfolds(source, split);
    ActiveUnfolds(t);
  }
}
