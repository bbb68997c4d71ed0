/** The restartable reset: a coordinator over a durable checkpoint, a protected backup, the
    databases, the workloads and the preferences API, stopped at any point and run again. */
module Reset {
  import opened Wrappers
  import opened Preservation

  datatype Service = Ads | Engine | Preferences | SandboxManager | SandboxMcp

  predicate Controller(s: Service) { s == SandboxManager || s == SandboxMcp }

  /** A reset cycle, and the shape of a schema's tables and grants. */
  type Cycle = nat
  type Layout = nat

  /** A schema's tables; `origin` is the cycle that initialised them, if one did. */
  datatype Schema = Absent | Present(layout: Layout, origin: Option<Cycle>)

  datatype Phase = Discovered | Preserved | Restoring | RestoredAll | Resuming | Complete

  datatype Checkpoint = Checkpoint(
    cycle: Cycle, scope: seq<Service>, phase: Phase, captured: seq<nat>, layouts: map<Service, Option<Layout>>,
    reset: seq<Service>, initialized: seq<Service>, mapping: map<Id, Id>)

  /** Interrupted: a failure or a crash stopped the run; refused: a check said no. */
  datatype Ending = Finished | Refused(why: Why) | Interrupted

  datatype Why =
    | BadScope | OtherScope | Unfinished | NotQuiet | Ambiguous | NotReady | NoTables | BadBackup
    | OwnerDiffers | ModelsChanged | Escaped(spared: set<Service>) | OtherTables(service: Service) | Conflict

  /** What was true when a schema was dropped, and the model rows that went with it. */
  datatype Drop = Drop(
    service: Service, cycle: Cycle, origin: Option<Cycle>, desired: seq<nat>, observed: seq<nat>,
    backup: Option<seq<Row>>, lost: seq<Row>)

  /** What happens from outside: a run, an administrator's scaling, or time passing. */
  datatype Turn = Runs(scope: seq<Service>, newCycle: bool) | Scales(workload: nat, replicas: nat) | Waits

  predicate AllZero(replicas: seq<nat>) { forall i | 0 <= i < |replicas| :: replicas[i] == 0 }

  predicate From(schema: Schema, cycle: Cycle) { schema.Present? && schema.origin == Some(cycle) }

  function LayoutOf(schema: Schema): Option<Layout> { if schema.Present? then Some(schema.layout) else None }

  /** Reset targets are distinct, include preferences and have a writer workload each; every
      writer and controller can be fenced. */
  predicate Admissible(scope: seq<Service>, definitions: seq<Service>) {
    && Preferences in scope
    && (forall i, j | 0 <= i < j < |scope| :: scope[i] != scope[j])
    && (forall s: Service :: s in definitions)
  }

  /** A valid, nonempty backup and the associations are stored. */
  ghost predicate Kept(backup: Option<seq<Row>>, associations: bool) {
    associations && backup.Some? && ValidRows(backup.value)
  }

  /** Every workload was at zero, a good backup held every model row that went, and the schema
      was not one this cycle had already made. */
  ghost predicate SafeDrop(d: Drop) {
    && AllZero(d.desired) && AllZero(d.observed)
    && d.backup.Some? && ValidRows(d.backup.value)
    && (forall m | m in d.lost :: m in d.backup.value)
    && d.origin != Some(d.cycle)
  }

  ghost predicate SafeDrops(drops: seq<Drop>) { forall d | d in drops :: SafeDrop(d) }

  /** Targets are dropped and then initialised one after the other. */
  ghost predicate Progress(cp: Checkpoint, schemas: map<Service, Schema>)
    requires forall s: Service :: s in schemas
  {
    && |cp.initialized| <= |cp.reset| <= |cp.initialized| + 1
    && |cp.reset| <= |cp.scope|
    && cp.reset == cp.scope[..|cp.reset|] && cp.initialized == cp.scope[..|cp.initialized|]
    && (forall i | 0 <= i < |cp.initialized| :: From(schemas[cp.scope[i]], cp.cycle))
    && (forall i | |cp.initialized| <= i < |cp.reset| ::
          schemas[cp.scope[i]].Absent? || From(schemas[cp.scope[i]], cp.cycle))
    && (forall i | |cp.reset| <= i < |cp.scope| :: !From(schemas[cp.scope[i]], cp.cycle))
  }

  /** The model rows are those backed up until their schema goes, then none. */
  ghost predicate Safe(cp: Checkpoint, backup: seq<Row>, models: seq<Row>) {
    models == [] || (Preferences !in cp.reset && models == backup)
  }

  ghost predicate AllFresh(cp: Checkpoint, schemas: map<Service, Schema>)
    requires forall s: Service :: s in schemas
  {
    cp.reset == cp.scope && cp.initialized == cp.scope && forall s | s in cp.scope :: From(schemas[s], cp.cycle)
  }

  /** What each phase of the checkpoint promises about everything else. */
  ghost predicate PhaseHolds(cp: Checkpoint, backup: Option<seq<Row>>, associations: bool,
                             schemas: map<Service, Schema>, models: seq<Row>, settled: seq<Row>)
    requires forall s: Service :: s in schemas
  {
    match cp.phase
    case Discovered => cp.reset == [] && cp.initialized == [] && forall s: Service :: !From(schemas[s], cp.cycle)
    case Preserved => Kept(backup, associations) && Progress(cp, schemas) && Safe(cp, backup.value, models)
    case Restoring => Kept(backup, associations) && AllFresh(cp, schemas) && Partial(models, backup.value)
    case RestoredAll =>
      Kept(backup, associations) && AllFresh(cp, schemas) && AllBack(cp.mapping, backup.value, models)
    case Resuming =>
      Kept(backup, associations) && AllFresh(cp, schemas) && AllBack(cp.mapping, backup.value, settled)
    case Complete => true
  }

  /** The application services that owners write through are fenced from preservation until the
      coordinator resumes the workloads; in every other phase the models are the owners'. */
  predicate OwnersWrite(checkpoint: Option<Checkpoint>) {
    checkpoint.None? || match checkpoint.value.phase
                        case Preserved => false
                        case Restoring => false
                        case RestoredAll => false
                        case _ => true
  }

  /** The services a phase lets run. */
  function Spared(phase: Phase): set<Service> {
    match phase
    case Restoring => {Preferences}
    case RestoredAll => {Preferences}
    case Resuming => set s: Service | !Controller(s)
    case _ => {}
  }

  function Max(a: nat, b: nat): nat { if a < b then b else a }
  function Min(a: nat, b: nat): nat { if a < b then a else b }

  /** Pods appear only up to the number asked for, and leave in their own time. */
  function Settle(seen: seq<nat>, asked: seq<nat>, pods: nat -> nat): (now: seq<nat>)
    requires |seen| == |asked|
    ensures |now| == |seen| && forall i | 0 <= i < |now| :: now[i] <= Max(seen[i], asked[i])
  {
    if seen == [] then [] else
      var last := |seen| - 1;
      Settle(seen[..last], asked[..last], pods) + [Min(pods(last), Max(seen[last], asked[last]))]
  }

  class ResetCoordinator {
    const definitions: seq<Service>
    const patience: nat
    // oracles, by time: failures and crashes, pods seen, models the owners write, ids minted, schemas made
    const fate: nat -> bool
    const pods: (nat, nat) -> nat
    const owners: nat -> Option<seq<Row>>
    const mint: (nat, set<Id>) -> Id
    const shape: Service -> Layout
    var clock: nat
    // the protected store
    var checkpoint: Option<Checkpoint>
    var backup: Option<seq<Row>>
    var associations: bool
    // the databases; `models` are the preferences database's model rows
    var schemas: map<Service, Schema>
    var models: seq<Row>
    // the cluster: replicas asked for and seen, by workload definition
    var desired: seq<nat>
    var observed: seq<nat>
    var cycles: nat
    ghost var drops: seq<Drop>
    // the replicas asked for when each cycle began
    ghost var snapshots: map<Cycle, seq<nat>>
    // the models when the workloads were last let back in, and the moment
    ghost var settled: seq<Row>
    ghost var settledAt: nat

    constructor (definitions: seq<Service>, patience: nat, fate: nat -> bool, pods: (nat, nat) -> nat,
                 owners: nat -> Option<seq<Row>>, mint: (nat, set<Id>) -> Id, shape: Service -> Layout,
                 schemas: map<Service, Schema>, models: seq<Row>, replicas: seq<nat>)
      requires (forall s: Service :: s in schemas && (schemas[s].Present? ==> schemas[s].origin == None))
      requires |replicas| == |definitions| && UniqueIds(models) && (schemas[Preferences].Absent? ==> models == [])
      requires forall n, used :: mint(n, used) !in used
      ensures Valid() && drops == []
    {
      this.definitions, this.patience, this.fate, this.pods := definitions, patience, fate, pods;
      this.owners, this.mint, this.shape, this.schemas, this.models := owners, mint, shape, schemas, models;
      desired, observed := replicas, replicas;
      clock, checkpoint, backup, associations, cycles, drops, snapshots := 0, None, None, false, 0, [], map[];
      settled, settledAt := [], 0;
    }

    ghost predicate Sized()
      reads this`desired, this`observed, this`models, this`schemas
    {
      && |desired| == |definitions| && |observed| == |definitions|
      && UniqueIds(models) && (forall n, used :: mint(n, used) !in used)
      && (forall s: Service :: s in schemas) && (schemas[Preferences].Absent? ==> models == [])
    }

    ghost predicate Cycled()
      reads this`desired, this`observed, this`models, this`schemas, this`checkpoint, this`cycles, this`snapshots
      requires Sized()
    {
      && (forall s: Service :: schemas[s].Present? && schemas[s].origin.Some? ==> schemas[s].origin.value < cycles)
      && (checkpoint.Some? ==> Describes(checkpoint.value))
    }

    /** The checkpoint is of a known cycle, with the replicas asked for when it began. */
    ghost predicate Describes(cp: Checkpoint)
      reads this`cycles, this`snapshots
    {
      && cp.cycle < cycles && |cp.captured| == |definitions| && Admissible(cp.scope, definitions)
      && (forall s | s in cp.scope :: s in cp.layouts)
      && cp.cycle in snapshots && snapshots[cp.cycle] == cp.captured
    }

    ghost predicate Valid()
      reads this
    {
      && Sized() && Cycled() && SafeDrops(drops)
      && (checkpoint.Some? ==> PhaseHolds(checkpoint.value, backup, associations, schemas, models, settled))
      && (checkpoint.Some? && checkpoint.value.phase.Resuming? ==> SettledSince())
    }

    /** No owner asks for a write in this time. */
    ghost predicate Silent(since: nat, until: nat) {
      forall t | since <= t < until :: owners(t).None?
    }

    /** Unless an owner wrote since the workloads were let back in, the models are as they were. */
    ghost predicate SettledSince()
      reads this`settledAt, this`clock, this`models, this`settled
    {
      settledAt <= clock && (Silent(settledAt, clock) ==> models == settled)
    }

    ghost predicate In(phase: Phase)
      reads this
    {
      Valid() && checkpoint.Some? && checkpoint.value.phase == phase
    }

    /** Owners can change their models only while preferences runs outside a reset. */
    predicate Open()
      reads this`checkpoint, this`schemas, this`observed
    {
      && OwnersWrite(checkpoint) && Preferences in schemas && schemas[Preferences].Present?
      && exists i :: 0 <= i < |definitions| && i < |observed| && definitions[i] == Preferences && observed[i] > 0
    }

    /** What is stored after the owners' request, if there is one. */
    ghost function Written(asked: Option<seq<Row>>, stored: seq<Row>): seq<Row> {
      if asked.Some? && UniqueIds(asked.value) then asked.value else stored
    }

    method LetOwnersWrite()
      requires Sized()
      modifies this`clock, this`models
      ensures Sized() && (old(Valid()) ==> Valid()) && clock == old(clock) + 1
      ensures models == if old(Open()) then Written(owners(old(clock)), old(models)) else old(models)
    {
      if Open() && owners(clock).Some? && UniqueIds(owners(clock).value) {
        models := owners(clock).value;
      }
      clock := clock + 1;
    }

    method LetPodsSettle()
      requires Sized()
      modifies this`observed
      ensures Sized() && (old(Valid()) ==> Valid())
      ensures forall i | 0 <= i < |observed| :: observed[i] <= Max(old(observed)[i], desired[i])
    {
      var now := clock;
      observed := Settle(observed, desired, i => pods(now, i));
    }

    /** Time passes before the next effect: owners may write while they can, pods settle no higher
        than was asked, and the run may end here. */
    method Tick() returns (up: bool)
      requires Sized()
      modifies this`clock, this`observed, this`models
      ensures Sized() && models == if old(Open()) then Written(owners(old(clock)), old(models)) else old(models)
      ensures forall i | 0 <= i < |observed| :: observed[i] <= Max(old(observed)[i], desired[i])
      ensures clock == old(clock) + 1 && up == !fate(old(clock))
      ensures old(Valid()) ==> Valid()
    {
      up := !fate(clock);
      LetOwnersWrite();
      LetPodsSettle();
    }

    /** Something outside failed since then. */
    ghost predicate FailedSince(since: nat)
      reads this`clock
    {
      exists t | since <= t < clock :: fate(t)
    }

    ghost predicate At(phase: Phase)
      reads this`checkpoint
    {
      checkpoint.Some? && checkpoint.value.phase == phase
    }

    /** The state bears the refusal out. */
    ghost predicate Justified(why: Why)
      reads this
      requires Valid()
    {
      match why
      case NotQuiet => At(Discovered) && (patience == 0 || !Fenced({}))
      case Ambiguous =>
        exists i, j | 0 <= i < j < |definitions| :: definitions[i] == Preferences && definitions[j] == Preferences
      case NotReady =>
        && (At(Discovered) || At(Restoring))
        && (patience == 0 || exists i | 0 <= i < |definitions| :: definitions[i] == Preferences && observed[i] == 0)
      case NoTables => At(Discovered) && schemas[Preferences].Absent?
      case BadBackup => At(Discovered) && if models == [] then !GoodBackup() else !ValidRows(models)
      case OwnerDiffers => At(Discovered) && backup.Some? && exists row | row in backup.value :: !Agrees(row, models)
      case ModelsChanged => At(Discovered) && models != [] && backup != Some(models)
      case Escaped(spared) => checkpoint.Some? && spared == Spared(checkpoint.value.phase) && !Fenced(spared)
      case OtherTables(s) =>
        At(Preserved) && s in checkpoint.value.layouts && LayoutOf(schemas[s]) != checkpoint.value.layouts[s]
      case _ => false
    }

    /** Nothing ends without cause: a failure happened meanwhile, or the state bears a refusal out. */
    ghost predicate Accounted(e: Ending, since: nat)
      reads this
      requires Valid()
    {
      since <= clock && (e.Interrupted? ==> FailedSince(since)) && (e.Refused? ==> Justified(e.why))
    }

    // ---- workloads ----

    method SetReplicas(i: nat, replicas: nat) returns (ok: bool)
      requires Sized() && i < |definitions|
      modifies this`clock, this`observed, this`models, this`desired
      ensures Sized() && (!OwnersWrite(checkpoint) || owners(old(clock)).None? ==> models == old(models))
      ensures desired == if ok then old(desired)[i := replicas] else old(desired)
      ensures forall j | 0 <= j < |observed| :: observed[j] <= Max(old(observed)[j], old(desired)[j])
      ensures clock == old(clock) + 1 && ok == !fate(old(clock))
      ensures old(Valid()) ==> Valid()
    {
      ok := Tick();
      if ok {
        desired := desired[i := replicas];
      }
    }

    /** No replica asked for or seen, outside the spared services. */
    predicate Fenced(spared: set<Service>)
      reads this`desired, this`observed, this`models, this`schemas
      requires Sized()
    {
      forall i | 0 <= i < |definitions| :: definitions[i] in spared || (desired[i] == 0 && observed[i] == 0)
    }

    method CheckFence(spared: set<Service>) returns (held: bool)
      requires Sized()
      ensures held == Fenced(spared)
    {
      for i := 0 to |definitions|
        invariant forall j | 0 <= j < i :: definitions[j] in spared || (desired[j] == 0 && observed[j] == 0)
      {
        if definitions[i] !in spared && (desired[i] != 0 || observed[i] != 0) {
          return false;
        }
      }
      return true;
    }

    /** Everything is scaled to zero and waited for. */
    method Pause() returns (e: Ending)
      requires In(Discovered)
      modifies this`clock, this`observed, this`models, this`desired
      ensures Valid() && Accounted(e, old(clock)) && (e.Finished? ==> Fenced({}))
    {
      for i := 0 to |definitions|
        invariant Valid() && clock >= old(clock) && forall j | 0 <= j < i :: desired[j] == 0
      {
        var ok := SetReplicas(i, 0);
        if !ok {
          return Interrupted;
        }
      }
      for n := 0 to patience
        invariant Valid() && clock >= old(clock) && (n > 0 ==> !Fenced({}))
      {
        var up := Tick();
        if !up {
          return Interrupted;
        }
        var held := CheckFence({});
        if held {
          return Finished;
        }
      }
      return Refused(NotQuiet);
    }

    /** The one preferences workload is scaled up, to at least one replica, and waited for. */
    method StartPreferences() returns (e: Ending)
      requires Valid() && (At(Discovered) || At(Restoring))
      modifies this`clock, this`observed, this`models, this`desired
      ensures Valid() && Accounted(e, old(clock)) && (!OwnersWrite(checkpoint) ==> models == old(models))
      ensures forall i | 0 <= i < |definitions| && definitions[i] != Preferences :: desired[i] == old(desired)[i]
      ensures e.Finished? ==> exists i :: 0 <= i < |definitions| && definitions[i] == Preferences && observed[i] > 0
    {
      var chosen, unique := FindPreferences();
      if !unique {
        return Refused(Ambiguous);
      }
      var ok := SetReplicas(chosen, Max(1, checkpoint.value.captured[chosen]));
      if !ok {
        return Interrupted;
      }
      e := AwaitReady(chosen);
    }

    method FindPreferences() returns (chosen: nat, unique: bool)
      requires Valid() && checkpoint.Some?
      ensures chosen < |definitions| && definitions[chosen] == Preferences
      ensures !unique ==> Justified(Ambiguous)
    {
      var candidates: seq<nat> := [];
      for i := 0 to |definitions|
        invariant forall k | 0 <= k < |candidates| :: candidates[k] < i && definitions[candidates[k]] == Preferences
        invariant forall k, l | 0 <= k < l < |candidates| :: candidates[k] < candidates[l]
        invariant forall j | 0 <= j < i && definitions[j] == Preferences :: j in candidates
      {
        if definitions[i] == Preferences {
          candidates := candidates + [i];
        }
      }
      assert Preferences in definitions;
      assert candidates != [];
      chosen, unique := candidates[0], |candidates| == 1;
      assert !unique ==> candidates[0] < candidates[1];
    }

    method AwaitReady(chosen: nat) returns (e: Ending)
      requires Valid() && (At(Discovered) || At(Restoring)) && chosen < |definitions|
          && definitions[chosen] == Preferences
      modifies this`clock, this`observed, this`models
      ensures Valid() && Accounted(e, old(clock)) && (!OwnersWrite(checkpoint) ==> models == old(models))
      ensures e.Finished? ==> observed[chosen] > 0
    {
      for n := 0 to patience
        invariant Valid() && clock >= old(clock) && (!OwnersWrite(checkpoint) ==> models == old(models))
        invariant n > 0 ==> observed[chosen] == 0
      {
        var up := Tick();
        if !up {
          return Interrupted;
        }
        if observed[chosen] >= 1 {
          return Finished;
        }
      }
      return Refused(NotReady);
    }

    /** Captured replicas come back, except the controllers', which stay as they are. */
    method Resume() returns (e: Ending)
      requires Valid() && checkpoint.Some?
      modifies this`clock, this`observed, this`models, this`desired
      ensures Valid() && Accounted(e, old(clock)) && !e.Refused?
      ensures Silent(old(clock), clock) ==> models == old(models)
      ensures e.Finished? ==>
        forall i | 0 <= i < |definitions| && !Controller(definitions[i]) :: desired[i] == checkpoint.value.captured[i]
      ensures forall i | 0 <= i < |definitions| && Controller(definitions[i]) :: desired[i] == old(desired)[i]
      ensures old(Fenced(Spared(Resuming))) ==> Fenced(Spared(Resuming))
    {
      var captured := checkpoint.value.captured;
      for i := 0 to |definitions|
        invariant Valid() && clock >= old(clock) && (Silent(old(clock), clock) ==> models == old(models))
        invariant forall j | 0 <= j < i && !Controller(definitions[j]) :: desired[j] == captured[j]
        invariant forall j | 0 <= j < |definitions| && Controller(definitions[j]) :: desired[j] == old(desired)[j]
        invariant old(Fenced(Spared(Resuming))) ==> Fenced(Spared(Resuming))
      {
        if !Controller(definitions[i]) {
          var ok := SetReplicas(i, captured[i]);
          if !ok {
            return Interrupted;
          }
        }
      }
      return Finished;
    }

    /** Lifecycle controllers at zero, everything else as it was when the cycle began. */
    ghost predicate Quarantined()
      reads this
      requires Valid() && checkpoint.Some?
    {
      forall i | 0 <= i < |definitions| ::
        desired[i] == if Controller(definitions[i]) then 0 else snapshots[checkpoint.value.cycle][i]
    }

    // ---- discovery and preservation ----

    /** This checkpoint, saved now, would describe the state. */
    ghost predicate Fits(cp: Checkpoint)
      reads this
      requires Sized()
    {
      Describes(cp) && PhaseHolds(cp, backup, associations, schemas, models, settled)
    }

    method Save(cp: Checkpoint) returns (ok: bool)
      requires Valid() && Fits(cp) && !cp.phase.Resuming? && (!Open() || OwnersWrite(Some(cp)))
      modifies this`clock, this`observed, this`models, this`checkpoint
      ensures Valid() && checkpoint == (if ok then Some(cp) else old(checkpoint))
      ensures clock == old(clock) + 1 && ok == !fate(old(clock))
      ensures !old(Open()) || owners(old(clock)).None? ==> models == old(models)
      ensures forall i | 0 <= i < |observed| :: observed[i] <= Max(old(observed)[i], desired[i])
    {
      ok := Tick();
      if ok {
        checkpoint := Some(cp);
      }
    }

    /** A new cycle starts from the replicas and schemas found, before anything is scaled. */
    method Discover(scope: seq<Service>) returns (ok: bool)
      requires Valid() && Admissible(scope, definitions) && OwnersWrite(checkpoint)
      modifies this`clock, this`observed, this`models, this`checkpoint, this`cycles, this`snapshots
      ensures Valid() && snapshots == old(snapshots)[old(cycles) := desired]
      ensures (ok ==> In(Discovered) && checkpoint.value.scope == scope && checkpoint.value.captured == desired)
      ensures !ok ==> checkpoint == old(checkpoint)
      ensures clock == old(clock) + 1 && ok == !fate(old(clock))
    {
      var layouts := map s | s in scope :: LayoutOf(schemas[s]);
      var cp := Checkpoint(cycles, scope, Discovered, desired, layouts, [], [], map[]);
      snapshots := snapshots[cycles := desired];
      cycles := cycles + 1;
      ok := Save(cp);
    }

    method ReadModels() returns (e: Ending, rows: seq<Row>)
      requires In(Discovered)
      modifies this`clock, this`observed, this`models
      ensures Valid() && Accounted(e, old(clock)) && (e.Finished? ==> rows == models)
      ensures !old(Open()) ==> models == old(models)
      ensures forall i | 0 <= i < |observed| :: observed[i] <= Max(old(observed)[i], desired[i])
    {
      var up := Tick();
      rows := models;
      e := if !up then Interrupted else if schemas[Preferences].Absent? then Refused(NoTables) else Finished;
    }

    ghost predicate GoodBackup()
      reads this`backup
    {
      backup.Some? && ValidRows(backup.value)
    }

    /** Rows found replace the backup only when they are themselves a good one; finding none
        keeps the backup there is. */
    method RefreshBackup(rows: seq<Row>) returns (e: Ending)
      requires In(Discovered) && rows == models
      modifies this`clock, this`observed, this`models, this`backup
      ensures In(Discovered) && Accounted(e, old(clock)) && (e.Finished? ==> GoodBackup())
      ensures rows == [] ==> backup == old(backup) && (e.Finished? <==> old(GoodBackup()))
      ensures rows != [] && e.Finished? ==> backup == Some(rows)
      ensures backup == old(backup) || (backup == Some(rows) && ValidRows(rows))
    {
      if rows == [] {
        if backup.None? {
          return Refused(BadBackup);
        }
        var good := ValidateModels(backup.value);
        return if good then Finished else Refused(BadBackup);
      }
      var good := ValidateModels(rows);
      if !good {
        return Refused(BadBackup);
      }
      var up := Tick();
      if !up {
        return Interrupted;
      }
      backup := Some(rows);
      return Finished;
    }

    /** One owner's models, read at one moment. */
    method CheckOwner(rows: seq<Row>, owner: Owner) returns (e: Ending, ghost existing: seq<Row>)
      requires In(Discovered) && backup == Some(rows)
      modifies this`clock, this`observed, this`models
      ensures In(Discovered) && Accounted(e, old(clock)) && existing == models
      ensures e.Finished? ==> forall row | row in rows && row.owner == owner :: Agrees(row, existing)
    {
      var up := Tick();
      existing := models;
      if !up {
        return Interrupted, existing;
      }
      var agree := CompareOwner(rows, owner, models);
      e := if agree then Finished else Refused(OwnerDiffers);
    }

    /** Every owner can still be reached, and no model differs from its row. */
    method CheckOwners(rows: seq<Row>) returns (e: Ending, ghost read: map<Owner, seq<Row>>)
      requires In(Discovered) && backup == Some(rows)
      modifies this`clock, this`observed, this`models
      ensures In(Discovered) && Accounted(e, old(clock))
      ensures e.Finished? ==> forall row | row in rows :: row.owner in read && Agrees(row, read[row.owner])
    {
      read := map[];
      var left := set row | row in rows :: row.owner;
      while left != {}
        invariant In(Discovered) && clock >= old(clock)
        invariant forall row | row in rows && row.owner !in left :: row.owner in read && Agrees(row, read[row.owner])
        decreases left
      {
        var owner :| owner in left;
        ghost var existing;
        e, existing := CheckOwner(rows, owner);
        if !e.Finished? {
          return;
        }
        read := read[owner := existing];
        left := left - {owner};
      }
      e := Finished;
    }

    /** Discovery's end: backed up, checked, fenced again, unchanged, and only then preserved. */
    method Preserve() returns (e: Ending)
      requires In(Discovered)
      modifies this`clock, this`observed, this`models, this`desired, this`backup, this`associations, this`checkpoint
      ensures Valid() && Accounted(e, old(clock)) && (old(GoodBackup()) ==> GoodBackup())
      ensures e.Finished? ==> In(Preserved) && checkpoint == Some(old(checkpoint).value.(phase := Preserved))
    {
      e := Pause();
      if !e.Finished? { return; }
      var rows;
      e, rows := ReadModels();
      if !e.Finished? { return; }
      e := RefreshBackup(rows);
      if !e.Finished? { return; }
      e := StartPreferences();
      if !e.Finished? { return; }
      ghost var read;
      e, read := CheckOwners(backup.value);
      if !e.Finished? { return; }
      e := Pause();
      if !e.Finished? { return; }
      e := Commit();
    }

    /** With every writer at zero the models can no longer change under the comparison. */
    method Commit() returns (e: Ending)
      requires In(Discovered) && GoodBackup() && Fenced({})
      modifies this`clock, this`observed, this`models, this`associations, this`checkpoint
      ensures Valid() && Accounted(e, old(clock)) && GoodBackup()
      ensures e.Finished? ==> In(Preserved) && checkpoint == Some(old(checkpoint).value.(phase := Preserved))
    {
      assert !Open();
      var current;
      e, current := ReadModels();
      if !e.Finished? { return; }
      if current != [] && current != backup.value { return Refused(ModelsChanged); }
      var ok := Seal();
      return if ok then Finished else Interrupted;
    }

    method Seal() returns (ok: bool)
      requires In(Discovered) && GoodBackup() && Fenced({}) && (models == [] || models == backup.value)
      modifies this`clock, this`observed, this`models, this`associations, this`checkpoint
      ensures Valid() && GoodBackup() && clock >= old(clock) && (!ok ==> FailedSince(old(clock)))
      ensures ok ==> In(Preserved) && checkpoint == Some(old(checkpoint).value.(phase := Preserved))
    {
      assert !Open();
      ok := Tick();
      if !ok { return; }
      associations := true;
      assert !Open();
      ok := Save(checkpoint.value.(phase := Preserved));
    }

    // ---- dropping and recreating ----

    /** One target: refused unless its tables are gone already or still those captured. */
    method DropTables(s: Service) returns (e: Ending)
      requires In(Preserved) && Fenced({}) && DueNext(s)
      modifies this`clock, this`observed, this`models, this`schemas, this`drops
      ensures In(Preserved) && Accounted(e, old(clock)) && Fenced({}) && DueNext(s)
          && (e.Finished? ==> schemas[s].Absent?)
      ensures old(drops) <= drops
      ensures e.Finished? && old(schemas)[s].Present? ==> LayoutOf(old(schemas)[s]) == checkpoint.value.layouts[s]
    {
      var up := Tick();
      if !up {
        return Interrupted;
      }
      var found := schemas[s];
      if found.Absent? {
        return Finished;
      }
      if Some(found.layout) != checkpoint.value.layouts[s] {
        return Refused(OtherTables(s));
      }
      DropNow(s);
      return Finished;
    }

    method DropNow(s: Service)
      requires In(Preserved) && Fenced({}) && DueNext(s) && schemas[s].Present?
      modifies this`models, this`schemas, this`drops
      ensures In(Preserved) && DueNext(s) && schemas == old(schemas)[s := Absent]
      ensures |drops| == |old(drops)| + 1 && old(drops) <= drops
    {
      ghost var found := schemas[s];
      ghost var lost := if s == Preferences then models else [];
      ghost var drop := Drop(s, checkpoint.value.cycle, found.origin, desired, observed, backup, lost);
      assert SafeDrop(drop);
      drops := drops + [drop];
      schemas := schemas[s := Absent];
      if s == Preferences {
        models := [];
      }
    }

    /** The next target to drop: those before it are dropped and initialised, none after. */
    ghost predicate DueNext(s: Service)
      reads this
      requires In(Preserved)
    {
      var cp := checkpoint.value;
      |cp.reset| == |cp.initialized| < |cp.scope| && cp.scope[|cp.reset|] == s
    }

    method ResetNext(s: Service) returns (e: Ending)
      requires In(Preserved) && Fenced({}) && DueNext(s)
      modifies this`clock, this`observed, this`models, this`schemas, this`drops, this`checkpoint
      ensures Valid() && Accounted(e, old(clock)) && old(drops) <= drops
      ensures e.Finished? ==>
          In(Preserved) && checkpoint == Some(old(checkpoint).value.(reset := old(checkpoint).value.reset + [s]))
    {
      e := DropTables(s);
      if !e.Finished? { return; }
      var cp := checkpoint.value.(reset := checkpoint.value.reset + [s]);
      DropRecorded(checkpoint.value, cp, schemas, backup.value, models, s);
      var ok := Save(cp);
      return if ok then Finished else Interrupted;
    }

    /** Initialising keeps tables that are already there. */
    method InitializeNext(s: Service) returns (e: Ending)
      requires In(Preserved)
      requires var cp := checkpoint.value; |cp.initialized| < |cp.reset| && cp.scope[|cp.initialized|] == s
      modifies this`clock, this`observed, this`models, this`schemas, this`checkpoint
      ensures Valid() && Accounted(e, old(clock))
      ensures e.Finished? ==>
        && In(Preserved)
        && checkpoint == Some(old(checkpoint).value.(initialized := old(checkpoint).value.initialized + [s]))
    {
      var up := Tick();
      if !up {
        return Interrupted;
      }
      if schemas[s].Absent? {
        CreatedInProgress(checkpoint.value, schemas, s, shape(s));
        schemas := schemas[s := Present(shape(s), Some(checkpoint.value.cycle))];
      }
      var cp := checkpoint.value.(initialized := checkpoint.value.initialized + [s]);
      InitializedRecorded(checkpoint.value, cp, schemas, s);
      var ok := Save(cp);
      return if ok then Finished else Interrupted;
    }

    /** Each target waits for the fence to be seen holding. */
    method Gate() returns (e: Ending)
      requires In(Preserved)
      modifies this`clock, this`observed, this`models
      ensures In(Preserved) && Accounted(e, old(clock)) && (e.Finished? ==> Fenced({}))
    {
      var up := Tick();
      if !up { return Interrupted; }
      var held := CheckFence({});
      return if held then Finished else Refused(Escaped({}));
    }

    /** The target at i, once those before it are done: behind the fence, and skipping what an
        earlier run recorded. */
    method RecreateTarget(i: nat) returns (e: Ending)
      requires In(Preserved) && i < |checkpoint.value.scope| && i <= |checkpoint.value.initialized|
      modifies this`clock, this`observed, this`models, this`schemas, this`drops, this`checkpoint
      ensures Valid() && Accounted(e, old(clock)) && old(drops) <= drops
      ensures e.Finished? ==>
          In(Preserved) && checkpoint.value.scope == old(checkpoint).value.scope && i < |checkpoint.value.initialized|
    {
      e := Gate();
      if !e.Finished? { return; }
      var cp := checkpoint.value;
      NextNotBefore(cp.scope, |cp.reset|, i);
      NextNotBefore(cp.scope, |cp.initialized|, i);
      if cp.scope[i] !in cp.reset {
        e := ResetNext(cp.scope[i]);
        if !e.Finished? { return; }
      }
      if cp.scope[i] !in cp.initialized {
        e := InitializeNext(cp.scope[i]);
        return;
      }
      return Finished;
    }

    method Recreate() returns (e: Ending)
      requires In(Preserved)
      modifies this`clock, this`observed, this`models, this`schemas, this`drops, this`checkpoint
      ensures Valid() && Accounted(e, old(clock)) && old(drops) <= drops && (e.Finished? ==> In(Restoring))
    {
      var n := |checkpoint.value.scope|;
      for i := 0 to n
        invariant In(Preserved) && |checkpoint.value.scope| == n && i <= |checkpoint.value.initialized|
        invariant old(drops) <= drops && clock >= old(clock)
      {
        e := RecreateTarget(i);
        if !e.Finished? { return; }
      }
      var ok := FinishRecreating();
      return if ok then Finished else Interrupted;
    }

    method FinishRecreating() returns (ok: bool)
      requires In(Preserved) && |checkpoint.value.initialized| == |checkpoint.value.scope|
      modifies this`clock, this`observed, this`models, this`checkpoint
      ensures Valid() && (ok ==> In(Restoring)) && clock == old(clock) + 1 && ok == !fate(old(clock))
    {
      var cp := checkpoint.value;
      assert cp.scope[..|cp.scope|] == cp.scope;
      ok := Save(cp.(phase := Restoring));
    }

    // ---- restoring the models ----

    /** One row: found again, or created under an id nobody has used; a lost reply leaves the
        created model to be found next time. */
    method RestoreRow(rows: seq<Row>, i: nat) returns (e: Ending, id: Id)
      requires Sized() && ValidRows(rows) && i < |rows| && !OwnersWrite(checkpoint) && schemas[Preferences].Present?
      modifies this`clock, this`observed, this`models
      ensures Sized() && clock >= old(clock) && (e.Interrupted? ==> FailedSince(old(clock)))
      ensures models == old(models) || (Matches(rows[i], old(models)) == [] && Created(old(models), models, rows, i))
      ensures e.Refused? <==> Conflicts(rows[i], old(models)) && !e.Interrupted?
      ensures e.Finished? ==> RestoredOne(rows[i], models) && id == Matches(rows[i], models)[0].id
    {
      var row := rows[i];
      id := 0;
      var up := Tick();
      if !up { return Interrupted, id; }
      var matches := Matches(row, models);
      if |matches| > 1 || (matches != [] && matches[0].payload != row.payload) {
        return Refused(Conflict), id;
      }
      var chosen;
      if matches != [] {
        chosen := matches[0];
        assert chosen in matches;
      } else {
        up := Tick();
        if !up { return Interrupted, id; }
        chosen := Create(rows, i);
      }
      up := Tick();
      if !up { return Interrupted, id; }
      LookupFinds(models, chosen);
      var actual := Lookup(models, row.owner, chosen.id);
      return Finished, actual[0].id;
    }

    method Create(rows: seq<Row>, i: nat) returns (made: Row)
      requires Sized() && i < |rows| && Matches(rows[i], models) == [] && schemas[Preferences].Present?
      modifies this`models
      ensures Sized() && Created(old(models), models, rows, i) && made in models
      ensures Matches(rows[i], models) == [made] && Copy(made, rows[i])
    {
      var used := IdsOf(models) + IdsOf(rows);
      IdsInclude(models);
      IdsInclude(rows);
      made := Row(mint(clock, used), rows[i].owner, rows[i].payload, true);
      MatchesMore(rows[i], models, made);
      models := models + [made];
    }

    /** Every row of a good backup; refused exactly when a row conflicts. */
    method RestoreModels(rows: seq<Row>, invoke: bool) returns (e: Ending, mapping: map<Id, Id>)
      requires Sized() && !OwnersWrite(checkpoint) && schemas[Preferences].Present?
      modifies this`clock, this`observed, this`models
      ensures Sized() && (e.Finished? ==> ValidRows(rows) && Restored(models, rows) && Mapped(mapping, rows, models))
      ensures clock >= old(clock) && (e.Interrupted? ==> FailedSince(old(clock)))
      ensures e.Refused? && ValidRows(rows) ==> exists row :: row in rows && Conflicts(row, models)
      ensures ValidRows(rows) ==> Advances(old(models), models, rows)
      ensures !ValidRows(rows) ==> e.Refused? && models == old(models)
    {
      mapping := map[];
      var good := ValidateModels(rows);
      if !good { return Refused(BadBackup), mapping; }
      for i := 0 to |rows|
        invariant clock >= old(clock)
        invariant Sized() && RestoredUpTo(mapping, rows, i, models) && Advances(old(models), models, rows)
      {
        ghost var before := models;
        var id;
        e, id := RestoreRow(rows, i);
        StepRestores(mapping, before, models, rows, i);
        AdvancesOn(old(models), before, models, rows);
        if !e.Finished? { return; }
        MapMore(mapping, rows, i, models, id);
        mapping := mapping[rows[i].id := id];
      }
      AllRestored(mapping, rows, models);
      e := Finished;
      if invoke {
        e := InvokeAll(rows);
      }
    }

    method InvokeAll(rows: seq<Row>) returns (e: Ending)
      requires Sized() && !OwnersWrite(checkpoint)
      modifies this`clock, this`observed, this`models
      ensures Sized() && models == old(models) && !e.Refused?
      ensures clock >= old(clock) && (e.Interrupted? ==> FailedSince(old(clock)))
    {
      for i := 0 to |rows|
        invariant Sized() && models == old(models) && clock >= old(clock)
      {
        var up := Tick();
        if !up { return Interrupted; }
      }
      return Finished;
    }

    // ---- the last phases ----

    /** Nothing runs beyond what the phase spares. */
    method Guard() returns (e: Ending)
      requires Valid() && checkpoint.Some?
      ensures Accounted(e, clock) && !e.Interrupted?
      ensures e.Finished? <==> Fenced(Spared(checkpoint.value.phase))
    {
      var spared := Spared(checkpoint.value.phase);
      var held := CheckFence(spared);
      return if held then Finished else Refused(Escaped(spared));
    }

    /** Both passes agree, and the mapping is recorded. */
    method RestorePhase() returns (e: Ending)
      requires In(Restoring)
      modifies this`clock, this`observed, this`models, this`desired, this`checkpoint
      ensures Valid() && Accounted(e, old(clock)) && (e.Finished? ==> In(RestoredAll))
    {
      e := Guard();
      if !e.Finished? { return; }
      e := StartPreferences();
      if !e.Finished? { return; }
      var mapping;
      e, mapping := RestoreTwice();
      if !e.Finished? { return; }
      var ok := Save(checkpoint.value.(mapping := mapping, phase := RestoredAll));
      return if ok then Finished else Interrupted;
    }

    /** Over an orderly restoration nothing is refused. */
    method RestoreOrderly(rows: seq<Row>, invoke: bool) returns (e: Ending, mapping: map<Id, Id>)
      requires Sized() && !OwnersWrite(checkpoint) && schemas[Preferences].Present?
      requires ValidRows(rows) && Partial(models, rows)
      modifies this`clock, this`observed, this`models
      ensures Sized() && clock >= old(clock) && !e.Refused? && (e.Interrupted? ==> FailedSince(old(clock)))
      ensures Partial(models, rows) && Advances(old(models), models, rows)
      ensures e.Finished? ==> AllBack(mapping, rows, models)
    {
      e, mapping := RestoreModels(rows, invoke);
      NeverConflicts(models, rows);
    }

    /** One pass over the backup; an interrupted restoration never leads to a refusal. */
    method RestorePass(invoke: bool) returns (e: Ending, mapping: map<Id, Id>)
      requires In(Restoring)
      modifies this`clock, this`observed, this`models
      ensures In(Restoring) && Accounted(e, old(clock)) && !e.Refused?
      ensures Advances(old(models), models, backup.value)
      ensures e.Finished? ==> AllBack(mapping, backup.value, models)
    {
      e, mapping := RestoreOrderly(backup.value, invoke);
      PassHolds(checkpoint.value, backup, associations, schemas, old(models), models, settled);
    }

    /** A second pass creates nothing and finds every model where the first did. */
    method RestoreTwice() returns (e: Ending, mapping: map<Id, Id>)
      requires In(Restoring)
      modifies this`clock, this`observed, this`models
      ensures In(Restoring) && Accounted(e, old(clock)) && !e.Refused?
      ensures e.Finished? ==> AllBack(mapping, backup.value, models)
    {
      e, mapping := RestorePass(true);
      if !e.Finished? { return; }
      ghost var restored := models;
      var again;
      e, again := RestorePass(false);
      if !e.Finished? { return; }
      SecondPass(mapping, again, backup.value, restored, models);
      if again != mapping {
        e := Refused(Conflict);
      }
    }

    /** At completion the controllers are still fenced and the other workloads as they were. When
        the owners were let back in, every backed-up model was there once; it still is unless an
        owner has since deleted or changed one, or added one like it. */
    ghost predicate Reopened()
      reads this
      requires Valid() && checkpoint.Some?
    {
      && checkpoint.value.phase.Complete? && GoodBackup() && Quarantined() && SettledSince()
      && AllBack(checkpoint.value.mapping, backup.value, settled)
      && (StillBack(checkpoint.value.mapping, backup.value, models) <==> Untouched(backup.value, settled, models))
    }

    method BeginResuming() returns (e: Ending)
      requires In(RestoredAll)
      modifies this`clock, this`observed, this`models, this`checkpoint, this`settled, this`settledAt
      ensures Valid() && Accounted(e, old(clock))
      ensures e.Finished? ==> In(Resuming) && settled == old(models) && settledAt == clock
    {
      e := Guard();
      if !e.Finished? { return; }
      var ok := SaveResuming();
      return if ok then Finished else Interrupted;
    }

    method SaveResuming() returns (ok: bool)
      requires In(RestoredAll)
      modifies this`clock, this`observed, this`models, this`checkpoint, this`settled, this`settledAt
      ensures Valid() && clock == old(clock) + 1 && ok == !fate(old(clock))
      ensures ok ==> In(Resuming) && settled == old(models) && settledAt == clock
    {
      assert !Open();
      ok := Tick();
      if ok {
        LetBackIn();
      }
    }

    method LetBackIn()
      requires In(RestoredAll)
      modifies this`checkpoint, this`settled, this`settledAt
      ensures In(Resuming) && settled == models && settledAt == clock
    {
      settled, settledAt := models, clock;
      checkpoint := Some(checkpoint.value.(phase := Resuming));
    }

    /** The owners write again from the first workload on, and through any crash before the end. */
    method Reopen() returns (e: Ending)
      requires In(Resuming)
      modifies this`clock, this`observed, this`models, this`desired, this`checkpoint
      ensures Valid() && Accounted(e, old(clock)) && (e.Finished? ==> checkpoint.Some? && Reopened())
      ensures Silent(old(clock), clock) ==> models == old(models)
      ensures old(Fenced(Spared(Resuming))) ==> !e.Refused?
    {
      e := Resume();
      if !e.Finished? { return; }
      e := Guard();
      if !e.Finished? { return; }
      var ok := FinishCycle();
      return if ok then Finished else Interrupted;
    }

    method FinishCycle() returns (ok: bool)
      requires In(Resuming) && Quarantined()
      modifies this`clock, this`observed, this`models, this`checkpoint
      ensures Valid() && clock == old(clock) + 1 && ok == !fate(old(clock))
      ensures ok ==> checkpoint.Some? && Reopened()
      ensures owners(old(clock)).None? ==> models == old(models)
    {
      ok := Save(checkpoint.value.(phase := Complete));
      if ok {
        StillBackExactly(checkpoint.value.mapping, backup.value, settled, models);
      }
    }

    /** With the controllers at zero and no failure the cycle completes; with no owner writing the
        models are left as they are. */
    method ReopenCalmly() returns (e: Ending)
      requires In(Resuming) && Fenced(Spared(Resuming)) && forall t | t >= clock :: !fate(t)
      modifies this`clock, this`observed, this`models, this`desired, this`checkpoint
      ensures Valid() && e.Finished? && checkpoint.Some? && Reopened()
      ensures Silent(old(clock), clock) ==> models == old(models)
    {
      e := Reopen();
    }

    /** One moment passes in which an owner deletes every model. */
    method TickDeleting() returns (up: bool)
      requires In(Resuming) && Open() && Fenced(Spared(Resuming)) && owners(clock) == Some([])
      modifies this`clock, this`observed, this`models
      ensures In(Resuming) && Fenced(Spared(Resuming)) && models == [] && clock == old(clock) + 1
      ensures up == !fate(old(clock)) && GoodBackup()
    {
      up := Tick();
    }

    /** An owner deletes every model while the workloads resume, nothing fails and the controllers
        stay at zero: the cycle completes with none of the models there. */
    method ReopenAfterDeletion() returns (e: Ending)
      requires In(Resuming) && Open() && Fenced(Spared(Resuming)) && forall t | t >= clock :: !fate(t)
      requires owners(clock) == Some([]) && forall t | t > clock :: owners(t).None?
      modifies this`clock, this`observed, this`models, this`desired, this`checkpoint
      ensures Valid() && e.Finished? && At(Complete) && models == [] && !Restored(models, backup.value)
    {
      var up := TickDeleting();
      e := ReopenCalmly();
      NothingRestored(backup.value);
    }

    // ---- runs ----

    /** Up to fresh schemas: preserved and checked first, then dropped and recreated. */
    method Rebuild() returns (e: Ending)
      requires Valid() && checkpoint.Some? && !checkpoint.value.phase.Complete?
      modifies this
      ensures Valid() && Accounted(e, old(clock)) && old(drops) <= drops && (old(GoodBackup()) ==> GoodBackup())
      ensures e.Finished? ==> checkpoint.Some? && checkpoint.value.phase !in {Discovered, Preserved, Complete}
    {
      if checkpoint.value.phase.Discovered? {
        e := Preserve();
        if !e.Finished? { return; }
      }
      var good := ValidateModels(backup.value);
      if !good || !associations { return Refused(BadBackup); }
      if checkpoint.value.phase.Preserved? {
        e := Recreate();
        return;
      }
      return Finished;
    }

    /** Whatever phase an unfinished cycle was left in, it goes on from there. */
    method Continue() returns (e: Ending)
      requires Valid() && checkpoint.Some? && !checkpoint.value.phase.Complete?
      modifies this
      ensures Valid() && Accounted(e, old(clock)) && old(drops) <= drops && (old(GoodBackup()) ==> GoodBackup())
      ensures e.Finished? ==> checkpoint.Some? && Reopened()
    {
      e := Rebuild();
      if !e.Finished? { return; }
      e := BringBack();
    }

    /** From fresh schemas to the end. */
    method BringBack() returns (e: Ending)
      requires Valid() && checkpoint.Some? && checkpoint.value.phase !in {Discovered, Preserved, Complete}
      modifies this`clock, this`observed, this`models, this`desired, this`checkpoint, this`settled, this`settledAt
      ensures Valid() && Accounted(e, old(clock)) && (e.Finished? ==> checkpoint.Some? && Reopened())
    {
      if checkpoint.value.phase.Restoring? {
        e := RestorePhase();
        if !e.Finished? { return; }
      }
      if checkpoint.value.phase.RestoredAll? {
        e := BeginResuming();
        if !e.Finished? { return; }
      }
      e := Reopen();
    }

    /** One invocation. It refuses another scope, and a new cycle while one is unfinished, before
        touching anything; otherwise it finishes, unless something failed or the state bears a
        refusal out. */
    method Run(scope: seq<Service>, newCycle: bool) returns (e: Ending)
      requires Valid()
      modifies this
      ensures Valid() && old(drops) <= drops && (old(GoodBackup()) ==> GoodBackup())
      ensures e.Finished? ==> checkpoint.Some? && checkpoint.value.phase.Complete?
      ensures e.Finished? ==> Reopened() || (checkpoint == old(checkpoint) && drops == old(drops) && !newCycle)
      ensures e == Refused(BadScope) <==> !Admissible(scope, definitions)
      ensures e == Refused(OtherScope) <==>
          Admissible(scope, definitions) && old(checkpoint).Some? && old(checkpoint).value.scope != scope
      ensures e == Refused(Unfinished) <==>
        && Admissible(scope, definitions) && newCycle && old(checkpoint).Some?
        && old(checkpoint).value.scope == scope && !old(checkpoint).value.phase.Complete?
      ensures e.Refused? && e.why in {BadScope, OtherScope, Unfinished} ==> unchanged(this)
      ensures !(e.Refused? && e.why in {BadScope, OtherScope, Unfinished}) ==> Accounted(e, old(clock))
    {
      if !Admissible(scope, definitions) { return Refused(BadScope); }
      if checkpoint.Some? && checkpoint.value.scope != scope { return Refused(OtherScope); }
      if newCycle && checkpoint.Some? && !checkpoint.value.phase.Complete? { return Refused(Unfinished); }
      if checkpoint.None? || newCycle {
        var ok := Discover(scope);
        if !ok { return Interrupted; }
      }
      if checkpoint.value.phase.Complete? { return Finished; }
      e := Continue();
    }

    /** Any history of runs, each stopped anywhere, with administrators scaling and owners
        writing in between: every drop there ever was is safe. */
    method Operate(turns: seq<Turn>)
      requires Valid()
      modifies this
      ensures Valid() && old(drops) <= drops && SafeDrops(drops)
      ensures old(GoodBackup()) ==> GoodBackup()
    {
      for i := 0 to |turns|
        invariant Valid() && old(drops) <= drops && (old(GoodBackup()) ==> GoodBackup())
      {
        match turns[i] {
          case Runs(scope, newCycle) =>
            var e := Run(scope, newCycle);
          case Scales(workload, replicas) =>
            if workload < |definitions| {
              desired := desired[workload := replicas];
            }
          case Waits =>
            var up := Tick();
        }
      }
    }
  }

  /** One model appended: a copy of the row under an unused id. */
  ghost predicate Created(before: seq<Row>, after: seq<Row>, rows: seq<Row>, i: nat)
    requires i < |rows|
  {
    && |after| == |before| + 1 && after[..|before|] == before
    && Copy(after[|before|], rows[i])
    && (forall other | other in rows :: after[|before|].id != other.id)
    && (forall other | other in before :: after[|before|].id != other.id)
  }

  /** The first i rows are restored and mapped. */
  ghost predicate RestoredUpTo(mapping: map<Id, Id>, rows: seq<Row>, i: nat, models: seq<Row>)
    requires i <= |rows|
  {
    && (forall j | 0 <= j < i :: RestoredOne(rows[j], models) && MapsTo(mapping, rows[j], models))
    && mapping.Keys == IdsOf(rows[..i])
  }

  /** The second of two passes changes nothing and maps alike. */
  lemma SecondPass(a: map<Id, Id>, b: map<Id, Id>, backup: seq<Row>, before: seq<Row>, after: seq<Row>)
    requires AllBack(a, backup, before) && AllBack(b, backup, after) && Advances(before, after, backup)
    ensures before == after && a == b
  {
    MappedOnce(a, b, backup, after);
  }

  /** Restoring keeps an orderly restoration, and adds nothing to a finished one. */
  ghost predicate Advances(before: seq<Row>, after: seq<Row>, rows: seq<Row>) {
    && (Partial(before, rows) ==> Partial(after, rows))
    && (Restored(before, rows) ==> after == before)
  }

  lemma AdvancesOn(a: seq<Row>, b: seq<Row>, c: seq<Row>, rows: seq<Row>)
    requires Advances(a, b, rows) && Advances(b, c, rows)
    ensures Advances(a, c, rows)
  {
  }

  lemma MapMore(mapping: map<Id, Id>, rows: seq<Row>, i: nat, models: seq<Row>, id: Id)
    requires ValidRows(rows) && i < |rows| && RestoredUpTo(mapping, rows, i, models)
    requires RestoredOne(rows[i], models) && id == Matches(rows[i], models)[0].id
    ensures RestoredUpTo(mapping[rows[i].id := id], rows, i + 1, models)
  {
    var more := mapping[rows[i].id := id];
    assert rows[..i + 1][..i] == rows[..i];
    assert more.Keys == mapping.Keys + {rows[i].id};
    assert MapsTo(more, rows[i], models);
    forall j | 0 <= j < i ensures MapsTo(more, rows[j], models) {
      assert !Collides(rows[j], rows[i]);
    }
  }

  /** After any part of a pass the phase still holds. */
  lemma PassHolds(cp: Checkpoint, backup: Option<seq<Row>>, associations: bool, schemas: map<Service, Schema>,
                  before: seq<Row>, after: seq<Row>, settled: seq<Row>)
    requires (forall s: Service :: s in schemas) && cp.phase.Restoring?
    requires PhaseHolds(cp, backup, associations, schemas, before, settled) && Advances(before, after, backup.value)
    ensures PhaseHolds(cp, backup, associations, schemas, after, settled)
  {
  }

  lemma NeverConflicts(models: seq<Row>, rows: seq<Row>)
    requires ValidRows(rows) && Partial(models, rows)
    ensures forall row | row in rows :: !Conflicts(row, models)
  {
    forall row | row in rows ensures !Conflicts(row, models) { PartialNeverConflicts(models, rows, row); }
  }

  lemma AllRestored(mapping: map<Id, Id>, rows: seq<Row>, models: seq<Row>)
    requires RestoredUpTo(mapping, rows, |rows|, models)
    ensures Restored(models, rows) && Mapped(mapping, rows, models)
  {
    assert rows[..|rows|] == rows;
  }

  /** Working on row i, whether or not it gets as far as creating, keeps the earlier rows and an
      orderly restoration. */
  lemma StepRestores(mapping: map<Id, Id>, before: seq<Row>, after: seq<Row>, rows: seq<Row>, i: nat)
    requires ValidRows(rows) && i < |rows| && RestoredUpTo(mapping, rows, i, before)
    requires after == before || (Matches(rows[i], before) == [] && Created(before, after, rows, i))
    ensures RestoredUpTo(mapping, rows, i, after) && Advances(before, after, rows)
  {
    if Restored(before, rows) { assert RestoredOne(rows[i], before); }
    if after != before {
      var m := after[|before|];
      assert after == before + [m];
      forall j | 0 <= j < i ensures Matches(rows[j], after) == Matches(rows[j], before) {
        CreateKeepsRestored(before, rows, j, i, m);
      }
      if Partial(before, rows) { CreateKeepsPartial(before, rows, rows[i], m); }
    }
  }

  lemma NextNotBefore(scope: seq<Service>, r: nat, i: nat)
    requires r <= |scope| && i < |scope| && forall j, k | 0 <= j < k < |scope| :: scope[j] != scope[k]
    ensures scope[i] in scope[..r] <==> i < r
  {
    if scope[i] in scope[..r] {
      var j :| 0 <= j < r && scope[..r][j] == scope[i];
      assert scope[j] == scope[i];
    }
  }

  lemma DropRecorded(cp: Checkpoint, next: Checkpoint, schemas: map<Service, Schema>, backup: seq<Row>,
                     models: seq<Row>, s: Service)
    requires (forall t: Service :: t in schemas) && Progress(cp, schemas) && Safe(cp, backup, models)
    requires |cp.reset| == |cp.initialized| < |cp.scope| && cp.scope[|cp.reset|] == s && schemas[s].Absent?
    requires (s == Preferences ==> models == []) && next == cp.(reset := cp.reset + [s])
    ensures Progress(next, schemas) && Safe(next, backup, models)
  {
    assert cp.scope[..|cp.reset| + 1] == cp.scope[..|cp.reset|] + [s];
  }

  lemma CreatedInProgress(cp: Checkpoint, schemas: map<Service, Schema>, s: Service, layout: Layout)
    requires (forall t: Service :: t in schemas) && Progress(cp, schemas)
    requires forall i, j | 0 <= i < j < |cp.scope| :: cp.scope[i] != cp.scope[j]
    requires |cp.initialized| < |cp.reset| && cp.scope[|cp.initialized|] == s && schemas[s].Absent?
    ensures Progress(cp, schemas[s := Present(layout, Some(cp.cycle))])
  {
  }

  lemma InitializedRecorded(cp: Checkpoint, next: Checkpoint, schemas: map<Service, Schema>, s: Service)
    requires (forall t: Service :: t in schemas) && Progress(cp, schemas)
    requires |cp.initialized| < |cp.reset| && cp.scope[|cp.initialized|] == s && From(schemas[s], cp.cycle)
    requires next == cp.(initialized := cp.initialized + [s])
    ensures Progress(next, schemas)
  {
    assert cp.scope[..|cp.initialized| + 1] == cp.scope[..|cp.initialized|] + [s];
  }

  method CompareOwner(rows: seq<Row>, owner: Owner, existing: seq<Row>) returns (agree: bool)
    ensures agree <==> forall row | row in rows && row.owner == owner :: Agrees(row, existing)
  {
    for k := 0 to |rows|
      invariant forall j | 0 <= j < k && rows[j].owner == owner :: Agrees(rows[j], existing)
    {
      if rows[k].owner == owner && !Agrees(rows[k], existing) {
        assert rows[k] in rows;
        return false;
      }
    }
    return true;
  }

  /** The model with the row's id, if there is one, has the row's payload. */
  predicate Agrees(row: Row, existing: seq<Row>) {
    forall m | m in Lookup(existing, row.owner, row.id) :: m.payload == row.payload
  }
}
