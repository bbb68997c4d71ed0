/** The preserved model rows: what makes a backup acceptable, how a row finds its model again
    through the owner's API, and what restoring every row leaves behind. */
module Preservation {
  type Id = nat
  type Owner = nat

  /** What the API accepts and returns; `details` holds the description, the authentication and
      the options. */
  datatype Payload = Payload(name: string, kind: string, url: string, details: string)

  /** A stored model row; `complete` says that every field is there with a valid format. */
  datatype Row = Row(id: Id, owner: Owner, payload: Payload, complete: bool)

  predicate SameModel(a: Payload, b: Payload) { a.name == b.name && a.kind == b.kind && a.url == b.url }

  predicate Collides(a: Row, b: Row) {
    a.id == b.id || (a.owner == b.owner && SameModel(a.payload, b.payload))
  }

  /** A backup worth keeping: not empty, complete, and no two rows alike. */
  ghost predicate ValidRows(rows: seq<Row>) {
    && rows != []
    && (forall i | 0 <= i < |rows| :: rows[i].complete)
    && NoneCollide(rows)
  }

  predicate UniqueIds(rows: seq<Row>) { forall i, j | 0 <= i < j < |rows| :: rows[i].id != rows[j].id }

  datatype Identity = Identity(owner: Owner, kind: string, url: string, name: string)

  function IdentityOf(r: Row): Identity { Identity(r.owner, r.payload.kind, r.payload.url, r.payload.name) }

  function IdsOf(rows: seq<Row>): set<Id> {
    if rows == [] then {} else IdsOf(rows[..|rows| - 1]) + {rows[|rows| - 1].id}
  }

  lemma {:induction false} IdsInclude(rows: seq<Row>)
    ensures forall r | r in rows :: r.id in IdsOf(rows)
  {
    if rows != [] {
      IdsInclude(rows[..|rows| - 1]);
      assert rows == rows[..|rows| - 1] + [rows[|rows| - 1]];
    }
  }

  lemma {:induction false} IdFrom(rows: seq<Row>, x: Id)
    requires x in IdsOf(rows)
    ensures exists i :: 0 <= i < |rows| && rows[i].id == x
  {
    var n := |rows| - 1;
    if rows[n].id != x {
      IdFrom(rows[..n], x);
      var i :| 0 <= i < n && rows[..n][i].id == x;
      assert rows[i].id == x;
    }
  }

  function IdentitiesOf(rows: seq<Row>): set<Identity> {
    if rows == [] then {} else IdentitiesOf(rows[..|rows| - 1]) + {IdentityOf(rows[|rows| - 1])}
  }

  ghost predicate Clashes(rows: seq<Row>, row: Row) { exists i :: 0 <= i < |rows| && Collides(rows[i], row) }

  /** The two sets the check keeps answer exactly whether a row is like an earlier one. */
  lemma {:induction false} NotedClash(rows: seq<Row>, row: Row)
    ensures (row.id in IdsOf(rows) || IdentityOf(row) in IdentitiesOf(rows)) <==> Clashes(rows, row)
  {
    if rows != [] {
      var n := |rows| - 1;
      NotedClash(rows[..n], row);
      assert Clashes(rows, row) <==> Clashes(rows[..n], row) || Collides(rows[n], row) by {
        if Clashes(rows[..n], row) {
          var i :| 0 <= i < n && Collides(rows[..n][i], row);
          assert Collides(rows[i], row);
        }
        if Clashes(rows, row) {
          var i :| 0 <= i < |rows| && Collides(rows[i], row);
          assert i < n ==> Collides(rows[..n][i], row);
        }
      }
    }
  }

  ghost predicate NoneCollide(rows: seq<Row>) { forall i, j | 0 <= i < j < |rows| :: !Collides(rows[i], rows[j]) }

  lemma NoneCollideMore(rows: seq<Row>, k: nat)
    requires k < |rows| && NoneCollide(rows[..k])
    ensures NoneCollide(rows[..k + 1]) <==> !Clashes(rows[..k], rows[k])
  {
    var more := rows[..k + 1];
    if Clashes(rows[..k], rows[k]) {
      var i :| 0 <= i < k && Collides(rows[..k][i], rows[k]);
      assert Collides(more[i], more[k]);
    }
    if !Clashes(rows[..k], rows[k]) {
      forall i, j | 0 <= i < j < |more| ensures !Collides(more[i], more[j]) {
        assert more[i] == rows[..k][i];
        if j < k { assert more[j] == rows[..k][j]; }
      }
    }
  }

  lemma NoneCollidePrefix(rows: seq<Row>, k: nat)
    requires k <= |rows|
    ensures NoneCollide(rows) ==> NoneCollide(rows[..k])
  {
    forall i, j | 0 <= i < j < k ensures Collides(rows[..k][i], rows[..k][j]) == Collides(rows[i], rows[j]) {
    }
  }

  method ValidateModels(rows: seq<Row>) returns (ok: bool)
    ensures ok == ValidRows(rows)
  {
    if rows == [] {
      return false;
    }
    var ids: set<Id> := {};
    var identities: set<Identity> := {};
    for k := 0 to |rows|
      invariant forall i | 0 <= i < k :: rows[i].complete
      invariant ids == IdsOf(rows[..k]) && identities == IdentitiesOf(rows[..k]) && NoneCollide(rows[..k])
    {
      if !rows[k].complete {
        return false;
      }
      NotedClash(rows[..k], rows[k]);
      NoneCollideMore(rows, k);
      if rows[k].id in ids || IdentityOf(rows[k]) in identities {
        NoneCollidePrefix(rows, k + 1);
        return false;
      }
      assert rows[..k + 1][..k] == rows[..k];
      ids := ids + {rows[k].id};
      identities := identities + {IdentityOf(rows[k])};
    }
    assert rows[..|rows|] == rows;
    return true;
  }

  // ---- finding a row's model again ----

  predicate Matching(row: Row, m: Row) {
    m.owner == row.owner && (m.id == row.id || SameModel(m.payload, row.payload))
  }

  /** Among the owner's models, those with the row's id or its logical identity. */
  function Matches(row: Row, models: seq<Row>): (found: seq<Row>)
    ensures forall m | m in found :: m in models && Matching(row, m)
    ensures forall m | m in models && Matching(row, m) :: m in found
  {
    if models == [] then [] else
      var rest := Matches(row, models[..|models| - 1]);
      assert models == models[..|models| - 1] + [models[|models| - 1]];
      if Matching(row, models[|models| - 1]) then rest + [models[|models| - 1]] else rest
  }

  lemma MatchesMore(row: Row, models: seq<Row>, m: Row)
    ensures Matches(row, models + [m]) == if Matching(row, m) then Matches(row, models) + [m] else Matches(row, models)
  {
    assert (models + [m])[..|models|] == models;
  }

  /** Reading one model back by its id. */
  function Lookup(models: seq<Row>, owner: Owner, id: Id): (found: seq<Row>)
    ensures |found| <= 1 && forall m | m in found :: m in models && m.owner == owner && m.id == id
  {
    if models == [] then [] else
    if models[0].owner == owner && models[0].id == id then [models[0]] else Lookup(models[1..], owner, id)
  }

  lemma {:induction false} LookupFinds(models: seq<Row>, m: Row)
    requires UniqueIds(models) && m in models
    ensures Lookup(models, m.owner, m.id) == [m]
  {
    if models[0] != m {
      assert m in models[1..];
      LookupFinds(models[1..], m);
    }
  }

  // ---- restoration ----

  /** The row has exactly one model, with its own payload. */
  predicate RestoredOne(row: Row, models: seq<Row>) {
    |Matches(row, models)| == 1 && Matches(row, models)[0].payload == row.payload
  }

  ghost predicate Restored(models: seq<Row>, backup: seq<Row>) {
    forall i | 0 <= i < |backup| :: RestoredOne(backup[i], models)
  }

  predicate Copy(m: Row, row: Row) { m.owner == row.owner && m.payload == row.payload }

  ghost predicate Backed(models: seq<Row>, backup: seq<Row>) {
    forall m | m in models :: exists row :: row in backup && Copy(m, row)
  }

  /** A restoration under way: nothing but copies of backed-up rows under new ids, no two alike. */
  ghost predicate Partial(models: seq<Row>, backup: seq<Row>) {
    && Backed(models, backup)
    && (forall m, row | m in models && row in backup :: m.id != row.id)
    && NoneCollide(models)
  }

  /** Where each row's model now is. */
  ghost predicate Mapped(mapping: map<Id, Id>, backup: seq<Row>, models: seq<Row>) {
    && mapping.Keys == IdsOf(backup)
    && (forall i | 0 <= i < |backup| :: MapsTo(mapping, backup[i], models))
  }

  predicate MapsTo(mapping: map<Id, Id>, row: Row, models: seq<Row>) {
    row.id in mapping && |Matches(row, models)| == 1 && mapping[row.id] == Matches(row, models)[0].id
  }

  /** Every row's model is there once, where the mapping says, and nothing else is. */
  ghost predicate AllBack(mapping: map<Id, Id>, backup: seq<Row>, models: seq<Row>) {
    Partial(models, backup) && StillBack(mapping, backup, models)
  }

  /** Every row's model is there once, where the mapping says. */
  ghost predicate StillBack(mapping: map<Id, Id>, backup: seq<Row>, models: seq<Row>) {
    Restored(models, backup) && Mapped(mapping, backup, models)
  }

  lemma MappedOnce(a: map<Id, Id>, b: map<Id, Id>, backup: seq<Row>, models: seq<Row>)
    requires Mapped(a, backup, models) && Mapped(b, backup, models)
    ensures a == b
  {
    assert a.Keys == b.Keys;
    forall x | x in a ensures b[x] == a[x] {
      IdFrom(backup, x);
      var i :| 0 <= i < |backup| && backup[i].id == x;
      assert MapsTo(a, backup[i], models) && MapsTo(b, backup[i], models);
    }
  }

  /** Why restoring may refuse: the row has two models, or one that differs. */
  predicate Conflicts(row: Row, models: seq<Row>) {
    |Matches(row, models)| > 1 || (|Matches(row, models)| == 1 && Matches(row, models)[0].payload != row.payload)
  }

  /** A restoration interrupted anywhere can always go on: no row ever conflicts. */
  lemma PartialNeverConflicts(models: seq<Row>, backup: seq<Row>, row: Row)
    requires ValidRows(backup) && Partial(models, backup) && row in backup
    ensures !Conflicts(row, models)
  {
    forall m | m in models && Matching(row, m) ensures Copy(m, row) { MatchIsCopy(models, backup, row, m); }
    if |Matches(row, models)| > 1 { TwoMatchesCollide(row, models); }
  }

  lemma MatchIsCopy(models: seq<Row>, backup: seq<Row>, row: Row, m: Row)
    requires ValidRows(backup) && Partial(models, backup) && row in backup && m in models && Matching(row, m)
    ensures Copy(m, row)
  {
    var other :| other in backup && Copy(m, other);
    var i :| 0 <= i < |backup| && backup[i] == row;
    var j :| 0 <= j < |backup| && backup[j] == other;
    assert Collides(backup[i], backup[j]) && Collides(backup[j], backup[i]);
  }

  lemma {:induction false} TwoMatchesCollide(row: Row, models: seq<Row>)
    requires |Matches(row, models)| > 1
    requires forall m | m in models && Matching(row, m) :: Copy(m, row)
    ensures exists i, j :: 0 <= i < j < |models| && Collides(models[i], models[j])
  {
    var n := |models| - 1;
    var rest := Matches(row, models[..n]);
    if |rest| > 1 {
      TwoMatchesCollide(row, models[..n]);
      var i, j :| 0 <= i < j < n && Collides(models[..n][i], models[..n][j]);
      assert Collides(models[i], models[j]);
    } else {
      assert rest[0] in models[..n];
      var i :| 0 <= i < n && models[i] == rest[0];
      assert Matching(row, models[i]) && Matching(row, models[n]) && models[i] in models && models[n] in models;
      assert Collides(models[i], models[n]);
    }
  }

  /** Creating a row's model keeps an unfinished restoration in order and every earlier row
      restored. */
  lemma CreateKeepsPartial(models: seq<Row>, backup: seq<Row>, row: Row, m: Row)
    requires ValidRows(backup) && Partial(models, backup) && row in backup && Matches(row, models) == []
    requires Copy(m, row) && (forall other | other in backup :: m.id != other.id)
        && (forall other | other in models :: m.id != other.id)
    ensures Partial(models + [m], backup)
  {
    forall other | other in models ensures !Collides(other, m) {
      assert !Matching(row, other);
    }
  }

  lemma CreateKeepsRestored(models: seq<Row>, backup: seq<Row>, i: nat, j: nat, m: Row)
    requires ValidRows(backup) && i < j < |backup| && Copy(m, backup[j]) && m.id != backup[i].id
    ensures Matches(backup[i], models + [m]) == Matches(backup[i], models)
  {
    assert !Collides(backup[i], backup[j]);
    MatchesMore(backup[i], models, m);
  }

  // ---- what a finished restoration amounts to ----

  type Content = (Owner, Payload)

  function Contents(rows: seq<Row>): seq<Content> {
    seq(|rows|, i requires 0 <= i < |rows| => (rows[i].owner, rows[i].payload))
  }

  ghost predicate Distinct<T>(s: seq<T>) { forall i, j | 0 <= i < j < |s| :: s[i] != s[j] }

  lemma {:induction false} DistinctCounts<T>(s: seq<T>, x: T)
    requires Distinct(s)
    ensures multiset(s)[x] == if x in s then 1 else 0
  {
    if s != [] {
      DistinctCounts(s[1..], x);
      assert s == [s[0]] + s[1..];
      assert s[0] !in s[1..];
    }
  }

  lemma DistinctContents(rows: seq<Row>)
    requires NoneCollide(rows)
    ensures Distinct(Contents(rows))
  {
    forall i, j | 0 <= i < j < |rows| ensures Contents(rows)[i] != Contents(rows)[j] {
      assert !Collides(rows[i], rows[j]);
    }
  }

  lemma ContentBacked(models: seq<Row>, backup: seq<Row>, x: Content)
    requires Backed(models, backup) && x in Contents(models)
    ensures x in Contents(backup)
  {
    var k :| 0 <= k < |models| && Contents(models)[k] == x;
    assert models[k] in models;
    var row :| row in backup && Copy(models[k], row);
    var i :| 0 <= i < |backup| && backup[i] == row;
    assert Contents(backup)[i] == x;
  }

  lemma ContentRestored(models: seq<Row>, backup: seq<Row>, x: Content)
    requires Restored(models, backup) && x in Contents(backup)
    ensures x in Contents(models)
  {
    var i :| 0 <= i < |backup| && Contents(backup)[i] == x;
    assert RestoredOne(backup[i], models);
    var m := Matches(backup[i], models)[0];
    assert m in Matches(backup[i], models);
    var k :| 0 <= k < |models| && models[k] == m;
    assert Contents(models)[k] == x;
  }

  lemma SameSize<T>(a: seq<T>, b: seq<T>)
    requires multiset(a) == multiset(b)
    ensures |a| == |b|
  {
    assert |multiset(a)| == |a| && |multiset(b)| == |b|;
  }

  lemma SameElements<T>(a: seq<T>, b: seq<T>)
    requires Distinct(a) && Distinct(b) && forall x :: x in a <==> x in b
    ensures multiset(a) == multiset(b)
  {
    forall x ensures multiset(a)[x] == multiset(b)[x] {
      DistinctCounts(a, x);
      DistinctCounts(b, x);
    }
  }

  /** Nothing lost, nothing doubled, nothing added: the owners' models are the backup's. */
  lemma RestoredExactly(models: seq<Row>, backup: seq<Row>)
    requires ValidRows(backup) && Partial(models, backup) && Restored(models, backup)
    ensures multiset(Contents(models)) == multiset(Contents(backup)) && |models| == |backup|
  {
    DistinctContents(models);
    DistinctContents(backup);
    forall x ensures x in Contents(models) <==> x in Contents(backup) {
      if x in Contents(models) { ContentBacked(models, backup, x); }
      if x in Contents(backup) { ContentRestored(models, backup, x); }
    }
    SameElements(Contents(models), Contents(backup));
    SameSize(Contents(models), Contents(backup));
  }

  // ---- what owners may have done to it since ----

  predicate SameRow(a: Row, b: Row) { a.id == b.id && a.owner == b.owner && a.payload == b.payload }

  ghost predicate Stands(m: Row, models: seq<Row>) { exists k :: k in models && SameRow(k, m) }

  /** No settled model was deleted or changed, and none like a backed-up row was added. */
  ghost predicate Untouched(backup: seq<Row>, settled: seq<Row>, models: seq<Row>) {
    && (forall m | m in settled :: Stands(m, models))
    && (forall row, k | row in backup && k in models && Matching(row, k) :: Stands(k, settled))
  }

  /** The models are still the backup's exactly when owners left those it had restored alone. */
  lemma StillBackExactly(mapping: map<Id, Id>, backup: seq<Row>, settled: seq<Row>, models: seq<Row>)
    requires AllBack(mapping, backup, settled) && UniqueIds(models)
    ensures StillBack(mapping, backup, models) <==> Untouched(backup, settled, models)
  {
    if StillBack(mapping, backup, models) { BackUntouched(mapping, backup, settled, models); }
    if Untouched(backup, settled, models) {
      forall i | 0 <= i < |backup|
        ensures RestoredOne(backup[i], models) && MapsTo(mapping, backup[i], models) {
        UntouchedBack(mapping, backup, settled, models, i);
      }
    }
  }

  /** The row's one match. */
  ghost predicate Only(m: Row, row: Row, models: seq<Row>) {
    m in models && Matching(row, m) && forall other | other in models && Matching(row, other) :: other == m
  }

  lemma OnlyMatch(row: Row, models: seq<Row>, found: seq<Row>)
    requires found == Matches(row, models) && |found| == 1
    ensures Only(found[0], row, models)
  {
    assert found[0] in found;
    forall other | other in models && Matching(row, other) ensures other == found[0] {
      assert other in found;
    }
  }

  /** Where everything is back, a row's match is a copy of it under the mapped id. */
  lemma OwnModel(mapping: map<Id, Id>, backup: seq<Row>, models: seq<Row>, row: Row) returns (m: Row)
    requires StillBack(mapping, backup, models) && row in backup
    ensures Only(m, row, models) && Copy(m, row) && row.id in mapping && m.id == mapping[row.id]
  {
    var i :| 0 <= i < |backup| && backup[i] == row;
    assert RestoredOne(row, models) && MapsTo(mapping, row, models);
    m := Matches(row, models)[0];
    OnlyMatch(row, models, Matches(row, models));
  }

  lemma BackUntouched(mapping: map<Id, Id>, backup: seq<Row>, settled: seq<Row>, models: seq<Row>)
    requires Backed(settled, backup) && StillBack(mapping, backup, settled) && StillBack(mapping, backup, models)
    ensures Untouched(backup, settled, models)
  {
    forall m | m in settled ensures Stands(m, models) {
      var row :| row in backup && Copy(m, row);
      StandsToo(mapping, backup, settled, models, row, m);
    }
    forall row, k | row in backup && k in models && Matching(row, k) ensures Stands(k, settled) {
      StandsToo(mapping, backup, models, settled, row, k);
    }
  }

  lemma StandsToo(mapping: map<Id, Id>, backup: seq<Row>, models: seq<Row>, others: seq<Row>, row: Row, m: Row)
    requires StillBack(mapping, backup, models) && StillBack(mapping, backup, others)
    requires row in backup && m in models && Matching(row, m)
    ensures Stands(m, others)
  {
    var own := OwnModel(mapping, backup, models, row);
    var other := OwnModel(mapping, backup, others, row);
    assert own == m && SameRow(other, m);
  }

  lemma UntouchedBack(mapping: map<Id, Id>, backup: seq<Row>, settled: seq<Row>, models: seq<Row>, i: nat)
    requires AllBack(mapping, backup, settled) && UniqueIds(models) && Untouched(backup, settled, models)
    requires i < |backup|
    ensures RestoredOne(backup[i], models) && MapsTo(mapping, backup[i], models)
  {
    var row := backup[i];
    var m := OwnModel(mapping, backup, settled, row);
    var k :| k in models && SameRow(k, m);
    forall other | other in models && Matching(row, other) ensures SameRow(other, m) {
      assert Stands(other, settled);
      var kept :| kept in settled && SameRow(kept, other);
      assert Matching(row, kept) && kept == m;
    }
    OneMatch(row, models, k);
  }

  lemma OneMatch(row: Row, models: seq<Row>, k: Row)
    requires UniqueIds(models) && k in models && Matching(row, k)
    requires forall other | other in models && Matching(row, other) :: SameRow(other, k)
    ensures |Matches(row, models)| == 1 && SameRow(Matches(row, models)[0], k)
  {
    var found := Matches(row, models);
    AtMostOneMatch(row, models, k.id);
    assert k in found;
    assert found[0] in found;
  }

  lemma {:induction false} AtMostOneMatch(row: Row, models: seq<Row>, id: Id)
    requires UniqueIds(models) && forall m | m in models && Matching(row, m) :: m.id == id
    ensures |Matches(row, models)| <= 1
  {
    if models != [] {
      var n := |models| - 1;
      var rest := Matches(row, models[..n]);
      assert models[n] in models;
      AtMostOneMatch(row, models[..n], id);
      if rest != [] {
        assert rest[0] in models[..n];
        assert rest[0].id != models[n].id;
      }
    }
  }

  lemma NothingRestored(backup: seq<Row>)
    requires ValidRows(backup)
    ensures !Restored([], backup)
  {
    assert Matches(backup[0], []) == [];
  }
}
