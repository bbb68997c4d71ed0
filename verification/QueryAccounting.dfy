/** How the DNS transport counts the queries it has accepted, over every interleaving of
    arrivals, completions, late callbacks, connection teardown and shutdown. */
module QueryAccounting {

  type UdpTask = nat
  type TcpTask = nat
  type Connection = nat
  type QueryId = nat

  /** One admitted query, by the task that answers it. */
  datatype Work = Udp(udp: UdpTask) | Tcp(tcp: TcpTask)

  /** A connection reads queries, then drains those outstanding, then has ended. */
  datatype Stage = Reading | Draining(outstanding: map<QueryId, TcpTask>) | Over

  datatype Limits = Limits(accepted: nat, connections: nat, outstanding: nat)

  datatype Action =
    | OnUdp(udp: UdpTask, event: TaskEvent)
    | OnTcp(connection: Connection, id: QueryId, tcp: TcpTask, event: TaskEvent)
    | OnConnection(connection: Connection, change: ConnectionEvent)
    | Closes
    | FinishesClosing

  /** A query arrives, its task ends, and later the task's completion callback runs. */
  datatype TaskEvent = Arrives | Ends | Callback

  datatype ConnectionEvent = Opens | Tears | Drains | Cancelled | Ended

  type Key = (Connection, QueryId)

  /** Still outstanding. */
  predicate LiveIn(w: Work, udpTasks: set<UdpTask>, home: map<TcpTask, Key>) {
    match w
    case Udp(t) => t in udpTasks
    case Tcp(t) => t in home
  }

  /** Every admitted query has been released once if it is no longer outstanding, and not at
      all while it is; nothing else was ever released. */
  ghost predicate ReleasedOnce(udpTasks: set<UdpTask>, home: map<TcpTask, Key>, admitted: set<Work>,
                               released: multiset<Work>) {
    && (forall w | LiveIn(w, udpTasks, home) :: w in admitted)
    && (forall w :: released[w] == if w in admitted && !LiveIn(w, udpTasks, home) then 1 else 0)
  }

  /** One connection's outstanding queries. */
  function Of(pending: map<Key, TcpTask>, c: Connection): set<Key> { set k | k in pending && k.0 == c }

  /** Queries are pending on connections that have not ended, one task each, and a connection
      being torn down knows them all. */
  ghost predicate Threaded(pending: map<Key, TcpTask>, home: map<TcpTask, Key>, open: set<Connection>,
                           stages: map<Connection, Stage>) {
    && (forall k | k in pending :: pending[k] in home && home[pending[k]] == k)
    && (forall t | t in home :: home[t] in pending && pending[home[t]] == t)
    && (forall k | k in pending :: k.0 in open && k.0 in stages && Holds(stages[k.0], k.1, pending[k]))
  }

  predicate Holds(stage: Stage, id: QueryId, t: TcpTask) {
    stage.Reading? || (stage.Draining? && id in stage.outstanding && stage.outstanding[id] == t)
  }

  ghost predicate Bounded(pending: map<Key, TcpTask>, limit: nat) {
    forall c :: |Of(pending, c)| <= limit
  }

  lemma AddPending(pending: map<Key, TcpTask>, k: Key, t: TcpTask, limit: nat)
    requires k !in pending && Bounded(pending, limit) && |Of(pending, k.0)| < limit
    ensures Bounded(pending[k := t], limit) && |pending[k := t]| == |pending| + 1
  {
    var more := pending[k := t];
    assert more.Keys == pending.Keys + {k};
    forall c ensures |Of(more, c)| <= limit { OfMore(pending, k, t, c); }
  }

  lemma OfMore(pending: map<Key, TcpTask>, k: Key, t: TcpTask, c: Connection)
    requires k !in pending
    ensures |Of(pending[k := t], c)| == |Of(pending, c)| + if c == k.0 then 1 else 0
  {
    if c == k.0 {
      assert Of(pending[k := t], c) == Of(pending, c) + {k};
    } else {
      assert Of(pending[k := t], c) == Of(pending, c);
    }
  }

  lemma AdmitLedger(udpTasks: set<UdpTask>, home: map<TcpTask, Key>, admitted: set<Work>, released: multiset<Work>,
                    t: TcpTask, k: Key)
    requires ReleasedOnce(udpTasks, home, admitted, released) && Tcp(t) !in admitted
    ensures ReleasedOnce(udpTasks, home[t := k], admitted + {Tcp(t)}, released)
  {
    assert !LiveIn(Tcp(t), udpTasks, home);
    forall w ensures LiveIn(w, udpTasks, home[t := k]) == (w == Tcp(t) || LiveIn(w, udpTasks, home)) {
    }
  }

  lemma ThreadMore(pending: map<Key, TcpTask>, home: map<TcpTask, Key>, open: set<Connection>,
                   stages: map<Connection, Stage>, k: Key, t: TcpTask)
    requires Threaded(pending, home, open, stages) && k !in pending && t !in home
    requires k.0 in open && k.0 in stages && stages[k.0].Reading?
    ensures Threaded(pending[k := t], home[t := k], open, stages)
  {
  }

  lemma DropPending(pending: map<Key, TcpTask>, k: Key, limit: nat)
    requires k in pending && Bounded(pending, limit)
    ensures Bounded(pending - {k}, limit) && |pending - {k}| == |pending| - 1
  {
    var fewer := pending - {k};
    assert fewer.Keys == pending.Keys - {k};
    forall c ensures |Of(fewer, c)| <= limit { Smaller(Of(fewer, c), Of(pending, c)); }
  }

  class DnsTransport {
    const limits: Limits
    var accepted: int
    var connections: int
    var closed: bool
    // the task table, split by what runs when the task completes
    var udpTasks: set<UdpTask>
    var connectionTasks: set<Connection>
    // each connection's outstanding queries, by connection and query ID
    var pending: map<Key, TcpTask>
    var stages: map<Connection, Stage>
    // tasks the event loop has finished running
    var udpDone: set<UdpTask>
    var tcpDone: set<TcpTask>
    // every query task ever started, so that no identity is used twice
    var admitted: set<Work>
    // bookkeeping for the proof: where a TCP task is pending, what was released
    ghost var home: map<TcpTask, Key>
    ghost var released: multiset<Work>

    constructor (limits: Limits)
      ensures Valid() && this.limits == limits && accepted == 0 && !closed
      ensures admitted == {} && released == multiset{}
    {
      this.limits := limits;
      accepted, connections, closed := 0, 0, false;
      udpTasks, connectionTasks, pending, stages := {}, {}, map[], map[];
      udpDone, tcpDone := {}, {};
      home, admitted, released := map[], {}, multiset{};
    }

    /** The count is exactly what is outstanding, and never over the limit. */
    ghost predicate Counted()
      reads this
    {
      && accepted == |udpTasks| + |pending|
      && accepted <= limits.accepted
      && connections == |connectionTasks|
      && connections <= limits.connections
      && Bounded(pending, limits.outstanding)
      && connectionTasks <= stages.Keys
    }

    ghost predicate Valid()
      reads this
    {
      Counted() && ReleasedOnce(udpTasks, home, admitted, released) && Threaded(pending, home, connectionTasks, stages)
    }

    /** Admission either counts the query or refuses it. */
    predicate Admits()
      reads this
    {
      !closed && accepted < limits.accepted
    }

    /** Shutdown's tasks have all ended. */
    predicate ReadyToFinish()
      reads this
    {
      closed && udpTasks <= udpDone && forall c | c in connectionTasks :: c in stages && stages[c].Over?
    }

    /** Every query ever admitted has been released, exactly once. */
    ghost predicate AllReleased()
      reads this
    {
      forall w :: released[w] == if w in admitted then 1 else 0
    }

    method ReleaseQuery(ghost w: Work)
      modifies this`accepted, this`released
      ensures accepted == old(accepted) - 1 && released == old(released)[w := old(released)[w] + 1]
    {
      accepted := accepted - 1;
      released := released[w := released[w] + 1];
    }

    method UdpQuery(t: UdpTask) returns (ok: bool)
      requires Valid() && Udp(t) !in admitted
      modifies this`accepted, this`udpTasks, this`admitted
      ensures Valid() && ok == old(Admits())
      ensures ok ==> accepted == old(accepted) + 1
      ensures ok ==> admitted == old(admitted) + {Udp(t)} && udpTasks == old(udpTasks) + {t}
      ensures !ok ==> accepted == old(accepted) && admitted == old(admitted) && udpTasks == old(udpTasks)
    {
      ok := Admits();
      if ok {
        assert !LiveIn(Udp(t), udpTasks, home);
        accepted := accepted + 1;
        udpTasks := udpTasks + {t};
        admitted := admitted + {Udp(t)};
      }
    }

    /** Runs once from the task's own callback and perhaps again from shutdown; only the first
        call finds the task in the table. */
    method UdpCompleted(t: UdpTask)
      requires Valid()
      modifies this`accepted, this`udpTasks, this`released
      ensures Valid() && udpTasks == old(udpTasks) - {t}
      ensures accepted == old(accepted) - (if t in old(udpTasks) then 1 else 0)
    {
      if t in udpTasks {
        assert LiveIn(Udp(t), udpTasks, home);
        udpTasks := udpTasks - {t};
        ReleaseQuery(Udp(t));
      }
    }

    method Connect(c: Connection) returns (ok: bool)
      requires Valid() && c !in stages
      modifies this`connections, this`connectionTasks, this`stages
      ensures Valid() && ok == (!closed && old(connections) < limits.connections)
      ensures ok ==> c in connectionTasks && stages == old(stages)[c := Reading]
    {
      ok := !closed && connections < limits.connections;
      if ok {
        assert c !in connectionTasks;
        connections := connections + 1;
        connectionTasks := connectionTasks + {c};
        stages := stages[c := Reading];
      }
    }

    method ConnectionCompleted(c: Connection)
      requires Valid() && c in stages && stages[c].Over?
      modifies this`connections, this`connectionTasks
      ensures Valid() && connectionTasks == old(connectionTasks) - {c}
    {
      if c in connectionTasks {
        connectionTasks := connectionTasks - {c};
        connections := connections - 1;
      }
    }

    /** One framed query: refused when its ID is still outstanding or a limit is reached, and a
        refusal tears the connection down. */
    method TcpQuery(c: Connection, id: QueryId, t: TcpTask) returns (ok: bool)
      requires Valid() && Tcp(t) !in admitted && c in connectionTasks && stages[c].Reading?
      modifies this`accepted, this`pending, this`stages, this`admitted, this`home
      ensures Valid()
      ensures ok == ((c, id) !in old(pending) && |Of(old(pending), c)| < limits.outstanding && old(Admits()))
      ensures accepted == old(accepted) + (if ok then 1 else 0)
      ensures ok ==> pending == old(pending)[(c, id) := t] && admitted == old(admitted) + {Tcp(t)}
      ensures !ok ==> pending == old(pending) && admitted == old(admitted) && stages[c].Draining?
    {
      ok := (c, id) !in pending && |Of(pending, c)| < limits.outstanding && Admits();
      if !ok {
        Tear(c);
        return;
      }
      Outstand(c, id, t);
    }

    method Outstand(c: Connection, id: QueryId, t: TcpTask)
      requires Valid() && Tcp(t) !in admitted && c in connectionTasks && stages[c].Reading?
      requires (c, id) !in pending && |Of(pending, c)| < limits.outstanding && Admits()
      modifies this`accepted, this`pending, this`admitted, this`home
      ensures Valid() && accepted == old(accepted) + 1
      ensures pending == old(pending)[(c, id) := t] && admitted == old(admitted) + {Tcp(t)}
    {
      AdmitLedger(udpTasks, home, admitted, released, t, (c, id));
      AddPending(pending, (c, id), t, limits.outstanding);
      ThreadMore(pending, home, connectionTasks, stages, (c, id), t);
      accepted := accepted + 1;
      pending := pending[(c, id) := t];
      home := home[t := (c, id)];
      admitted := admitted + {Tcp(t)};
    }

    /** A task's completion: it releases only while its own entry is the pending one. */
    method Complete(c: Connection, id: QueryId, t: TcpTask)
      requires Valid()
      modifies this`accepted, this`pending, this`released, this`home
      ensures Valid()
      ensures pending ==
          if (c, id) in old(pending) && old(pending)[(c, id)] == t then old(pending) - {(c, id)} else old(pending)
      ensures accepted == old(accepted) - (if (c, id) in old(pending) && old(pending)[(c, id)] == t then 1 else 0)
    {
      if (c, id) !in pending || pending[(c, id)] != t {
        return;
      }
      assert LiveIn(Tcp(t), udpTasks, home);
      DropPending(pending, (c, id), limits.outstanding);
      ReleaseQuery(Tcp(t));
      pending := pending - {(c, id)};
      home := home - {t};
    }

    /** The connection stops reading and remembers what is outstanding. */
    method Tear(c: Connection)
      requires Valid() && c in connectionTasks && stages[c].Reading?
      modifies this`stages
      ensures Valid() && stages[c].Draining?
    {
      var outstanding := map k | k in pending && k.0 == c :: k.1 := pending[k];
      stages := stages[c := Draining(outstanding)];
    }

    /** Every outstanding task has ended; each is completed whether or not its own callback ran. */
    method Drain(c: Connection)
      requires Valid() && c in connectionTasks && stages[c].Draining? && stages[c].outstanding.Values <= tcpDone
      modifies this`accepted, this`pending, this`stages, this`released, this`home
      ensures Valid() && stages[c].Over? && Of(pending, c) == {}
      ensures connectionTasks == old(connectionTasks)
      ensures forall d | d != c && d in old(stages) :: d in stages && stages[d] == old(stages[d])
    {
      var left := stages[c].outstanding;
      while left.Keys != {}
        invariant Valid() && c in connectionTasks && stages == old(stages) && left.Keys <= stages[c].outstanding.Keys
        invariant forall id | id in left :: left[id] == stages[c].outstanding[id]
        invariant forall k | k in pending && k.0 == c :: k.1 in left
        decreases left.Keys
      {
        var id :| id in left.Keys;
        Complete(c, id, left[id]);
        left := left - {id};
      }
      stages := stages[c := Over];
    }

    /** The outstanding tasks have ended and their own callbacks have run: what a drain that is
        itself cancelled has waited for, since a gathering reports after its tasks' earlier callbacks. */
    predicate CalledBack(c: Connection)
      reads this`stages, this`pending, this`tcpDone
      requires c in stages && stages[c].Draining?
    {
      && stages[c].outstanding.Values <= tcpDone
      && forall id | id in stages[c].outstanding :: (c, id) !in pending || pending[(c, id)] != stages[c].outstanding[id]
    }

    /** A cancelled drain completes nothing itself; the tasks' own callbacks have left nothing to do. */
    method LeaveDraining(c: Connection)
      requires Valid() && c in connectionTasks && stages[c].Draining? && CalledBack(c)
      modifies this`stages
      ensures Valid() && stages == old(stages)[c := Over] && Of(pending, c) == {}
    {
      forall k | k in pending ensures k.0 != c {
        assert k.0 == c ==> Holds(stages[c], k.1, pending[k]);
      }
      stages := stages[c := Over];
    }

    /** Shutdown's last part: every task has ended, and each is completed, again if need be. */
    method FinishClosing()
      requires Valid() && ReadyToFinish()
      modifies this`accepted, this`udpTasks, this`connections, this`connectionTasks, this`released
      ensures Valid() && accepted == 0 && connections == 0 && pending == map[]
      ensures AllReleased()
    {
      while udpTasks != {}
        invariant Valid() && forall c | c in connectionTasks :: stages[c].Over?
        decreases udpTasks
      {
        var t :| t in udpTasks;
        UdpCompleted(t);
      }
      assert pending.Keys == {};
      while connectionTasks != {}
        invariant Valid() && udpTasks == {} && pending.Keys == {} && forall c | c in connectionTasks :: stages[c].Over?
        decreases connectionTasks
      {
        var c :| c in connectionTasks;
        ConnectionCompleted(c);
      }
      assert pending == map[];
    }

    method UdpStep(t: UdpTask, event: TaskEvent)
      requires Valid()
      modifies this`accepted, this`udpTasks, this`admitted, this`released, this`udpDone
      ensures Valid() && admitted >= old(admitted)
      ensures event.Arrives? && Udp(t) !in old(admitted) && old(Admits()) ==> udpTasks == old(udpTasks) + {t}
      ensures event.Callback? && t in udpDone ==> t !in udpTasks
      ensures closed ==> admitted == old(admitted)
    {
      if event.Arrives? && Udp(t) !in admitted {
        var ok := UdpQuery(t);
      } else if event.Ends? {
        udpDone := udpDone + {t};
      } else if event.Callback? && t in udpDone {
        UdpCompleted(t);
      }
    }

    method TcpStep(c: Connection, id: QueryId, t: TcpTask, event: TaskEvent)
      requires Valid()
      modifies this`accepted, this`pending, this`stages, this`admitted, this`released, this`home, this`tcpDone
      ensures Valid() && admitted >= old(admitted)
      ensures event.Callback? && t in tcpDone ==> !((c, id) in pending && pending[(c, id)] == t)
      ensures (event.Arrives?
               && old(Tcp(t) !in admitted && c in connectionTasks && c in stages && stages[c].Reading?)) ==>
        if Tcp(t) in admitted then pending == old(pending)[(c, id) := t]
        else stages[c].Draining? && pending == old(pending)
      ensures closed ==> admitted == old(admitted)
    {
      if event.Arrives? && Tcp(t) !in admitted && c in connectionTasks && stages[c].Reading? {
        var ok := TcpQuery(c, id, t);
      } else if event.Ends? {
        tcpDone := tcpDone + {t};
      } else if event.Callback? && t in tcpDone {
        Complete(c, id, t);
      }
    }

    method ConnectionStep(c: Connection, event: ConnectionEvent)
      requires Valid()
      modifies this`accepted, this`connections, this`connectionTasks, this`pending, this`stages, this`released,
          this`home
      ensures Valid()
      ensures event.Opens? && old(c !in stages && !closed && connections < limits.connections) ==>
          c in stages && stages[c].Reading?
      ensures event.Tears? && old(c in connectionTasks && stages[c].Reading?) ==> c in stages && stages[c].Draining?
      ensures (event.Drains?
               && old(c in connectionTasks && stages[c].Draining? && stages[c].outstanding.Values <= tcpDone)) ==>
        c in stages && stages[c].Over? && Of(pending, c) == {}
      ensures event.Cancelled? && old(c in connectionTasks && stages[c].Draining? && CalledBack(c)) ==>
        c in stages && stages[c].Over? && Of(pending, c) == {} && accepted == old(accepted)
      ensures event.Ended? && old(c in stages && stages[c].Over?) ==> c !in connectionTasks
    {
      if event.Opens? && c !in stages {
        var ok := Connect(c);
      } else if event.Tears? && c in connectionTasks && stages[c].Reading? {
        Tear(c);
      } else if event.Drains? && c in connectionTasks && stages[c].Draining?
          && stages[c].outstanding.Values <= tcpDone {
        Drain(c);
      } else if event.Cancelled? && c in connectionTasks && stages[c].Draining? && CalledBack(c) {
        LeaveDraining(c);
      } else if event.Ended? && c in stages && stages[c].Over? {
        ConnectionCompleted(c);
      }
    }

    /** One atomic step between two suspension points; a step that cannot happen now is skipped. */
    method Step(a: Action)
      requires Valid()
      modifies this
      ensures Valid() && admitted >= old(admitted)
      ensures old(closed) ==> closed && admitted == old(admitted)
      ensures a.FinishesClosing? && old(ReadyToFinish()) ==> accepted == 0 && connections == 0 && AllReleased()
    {
      match a {
        case OnUdp(t, event) => UdpStep(t, event);
        case OnTcp(c, id, t, event) => TcpStep(c, id, t, event);
        case OnConnection(c, event) => ConnectionStep(c, event);
        case Closes => closed := true;
        case FinishesClosing =>
          if ReadyToFinish() {
            FinishClosing();
          }
      }
    }

    /** Any interleaving keeps the account; once closed nothing more is admitted. */
    method Execute(schedule: seq<Action>)
      requires Valid()
      modifies this
      ensures Valid() && admitted >= old(admitted)
      ensures old(closed) ==> closed && admitted == old(admitted)
    {
      for i := 0 to |schedule|
        invariant Valid() && admitted >= old(admitted)
        invariant old(closed) ==> closed && admitted == old(admitted)
      {
        Step(schedule[i]);
      }
    }
  }

  lemma Smaller<T>(a: set<T>, b: set<T>)
    requires a <= b
    ensures |a| <= |b|
  {
    if a != b {
      var rest := b - a;
      assert b == a + rest;
    }
  }
}
