/** Revocation from certificate revocation lists: scope, base and delta merging, and the verdict. */
module Crl {
  import opened Wrappers

  datatype Reason =
    | Unspecified | KeyCompromise | CaCompromise | AffiliationChanged | Superseded | CessationOfOperation
    | CertificateHold | PrivilegeWithdrawn | AaCompromise | RemoveFromCrl

  /** Every reason a list can be partitioned by. */
  const REASONS: set<Reason> :=
    {KeyCompromise, CaCompromise, AffiliationChanged, Superseded, CessationOfOperation, CertificateHold,
     PrivilegeWithdrawn, AaCompromise}

  type Id = (string, nat)

  /** A distribution point as the issuing list or the certificate states it. */
  datatype IssuingPoint = IssuingPoint(
    onlyAttribute: bool, onlyCa: bool, onlyUser: bool, indirect: bool,
    someReasons: Option<set<Reason>>, names: set<string>)

  datatype Point = Point(crlIssuer: Option<set<string>>, names: set<string>, reasons: Option<set<Reason>>)

  datatype Certificate = Certificate(issuer: string, serial: nat, ca: bool, points: Option<seq<Point>>)

  /** One revoked entry; `issuer` is what its certificate-issuer extension says, if it has one. */
  datatype Entry = Entry(
    serial: nat, issuer: Option<EntryIssuer>, future: bool, unknownCritical: bool, reason: Option<Reason>)
  datatype EntryIssuer = EntryIssuer(names: seq<string>, critical: bool)

  datatype List = List(
    issuer: string, number: Option<nat>, deltaBase: Option<nat>, point: Option<IssuingPoint>,
    authorityKey: Option<string>, updated: int, entries: seq<Entry>)

  datatype Outcome<+T> = Good(value: T) | Unavailable

  // ---------- scope ----------

  function Restrict(some: Option<set<Reason>>): set<Reason> {
    if some.Some? && some.value != {} then some.value else REASONS
  }

  /** The reasons a list may speak about for this certificate before its points are consulted. */
  function ListReasons(crl: List, cert: Certificate): set<Reason> {
    if crl.point.None? then REASONS
    else
      var p := crl.point.value;
      if p.onlyAttribute || (p.onlyCa && !cert.ca) || (p.onlyUser && cert.ca) then {}
      else REASONS * Restrict(p.someReasons)
  }

  function PointNames(crl: List): set<string> { if crl.point.Some? then crl.point.value.names else {} }

  predicate Serves(crl: List, cert: Certificate, point: Point) {
    && (if point.crlIssuer.Some?
        then crl.point.Some? && crl.point.value.indirect && crl.issuer in point.crlIssuer.value
        else crl.issuer == cert.issuer)
    && (PointNames(crl) == {} || PointNames(crl) * point.names != {})
  }

  /** The reasons for which a list is authoritative for the certificate. */
  ghost function Scope(crl: List, cert: Certificate): set<Reason> {
    if cert.points.None? then
      if PointNames(crl) != {} || crl.issuer != cert.issuer then {} else ListReasons(crl, cert)
    else
      set p, r | p in cert.points.value && Serves(crl, cert, p)
          && r in ListReasons(crl, cert) * Restrict(p.reasons) :: r
  }

  method ScopeOf(crl: List, cert: Certificate) returns (covered: set<Reason>)
    ensures covered == Scope(crl, cert)
  {
    var reasons := ListReasons(crl, cert);
    if reasons == {} {
      return {};
    }
    var names := PointNames(crl);
    if cert.points.None? {
      return if names != {} || crl.issuer != cert.issuer then {} else reasons;
    }
    var points := cert.points.value;
    covered := {};
    for i := 0 to |points|
      invariant covered == set p, r | p in points[..i] && Serves(crl, cert, p)
          && r in reasons * Restrict(p.reasons) :: r
    {
      var point := points[i];
      assert points[..i + 1] == points[..i] + [point];
      if point.crlIssuer.Some? {
        if crl.point.None? || !crl.point.value.indirect || crl.issuer !in point.crlIssuer.value {
          continue;
        }
      } else if crl.issuer != cert.issuer {
        continue;
      }
      if names != {} && names * point.names == {} {
        continue;
      }
      covered := covered + reasons * Restrict(point.reasons);
    }
    assert points[..|points|] == points;
  }

  // ---------- entries ----------

  type Entries = map<Id, Reason>

  function EntryReason(e: Entry): Reason { if e.reason.Some? then e.reason.value else Unspecified }

  /** A named issuer must be one, critical, and in an indirect list. */
  predicate IssuerAllowed(crl: List, e: Entry) {
    e.issuer.None?
    || (crl.point.Some? && crl.point.value.indirect && |e.issuer.value.names| == 1 && e.issuer.value.critical)
  }

  /** Removals belong to deltas only. */
  predicate Acceptable(crl: List, e: Entry) {
    && IssuerAllowed(crl, e) && !e.future && !e.unknownCritical
    && (EntryReason(e) == RemoveFromCrl ==> crl.deltaBase.Some?)
  }

  /** The issuer named by the last of the first `n` entries that names one, or the list's own. */
  function IssuerAfter(crl: List, n: nat): string
    requires n <= |crl.entries|
  {
    if n == 0 then crl.issuer
    else
      var named := crl.entries[n - 1].issuer;
      if named.Some? && |named.value.names| > 0 then named.value.names[0] else IssuerAfter(crl, n - 1)
  }

  /** Which certificate an entry is about: the issuer it names or inherits, and its serial. */
  function IdAt(crl: List, i: nat): Id
    requires i < |crl.entries|
  {
    (IssuerAfter(crl, i + 1), crl.entries[i].serial)
  }

  /** Inheritance spelled out: the issuer is the one named last, at or before the entry. */
  lemma {:induction false} IssuerInherited(crl: List, i: nat, j: nat)
    requires j <= i < |crl.entries| && crl.entries[j].issuer.Some? && |crl.entries[j].issuer.value.names| > 0
    requires forall k | j < k <= i :: crl.entries[k].issuer.None?
    ensures IdAt(crl, i).0 == crl.entries[j].issuer.value.names[0]
  {
    if j < i { IssuerInherited(crl, i - 1, j); }
  }

  ghost predicate ReadableUpTo(crl: List, n: nat)
    requires n <= |crl.entries|
  {
    && (forall i | 0 <= i < n :: Acceptable(crl, crl.entries[i]))
    && (forall i, j | 0 <= i < n && 0 <= j < n && IdAt(crl, i) == IdAt(crl, j) :: i == j)
  }

  /** Every entry is acceptable and no certificate is listed twice. */
  ghost predicate Readable(crl: List) { ReadableUpTo(crl, |crl.entries|) }

  /** Each certificate listed, with its own entry's reason. */
  ghost function EntriesOf(crl: List): Outcome<Entries> {
    if Readable(crl)
    then Good(EntryMap(crl, |crl.entries|))
    else Unavailable
  }

  function EntryMap(crl: List, n: nat): Entries
    requires n <= |crl.entries|
  {
    if n == 0 then map[] else EntryMap(crl, n - 1)[IdAt(crl, n - 1) := EntryReason(crl.entries[n - 1])]
  }

  /** The map holds exactly the first `n` entries. */
  ghost predicate Holds(crl: List, n: nat, entries: Entries)
    requires n <= |crl.entries|
  {
    && (forall i | 0 <= i < n :: IdAt(crl, i) in entries && entries[IdAt(crl, i)] == EntryReason(crl.entries[i]))
    && (forall id | id in entries :: exists i :: 0 <= i < n && IdAt(crl, i) == id)
  }

  lemma HoldsMore(crl: List, n: nat, entries: Entries)
    requires n < |crl.entries| && Holds(crl, n, entries) && IdAt(crl, n) !in entries
    ensures Holds(crl, n + 1, entries[IdAt(crl, n) := EntryReason(crl.entries[n])])
  {
    var more := entries[IdAt(crl, n) := EntryReason(crl.entries[n])];
    forall id | id in more ensures exists i :: 0 <= i < n + 1 && IdAt(crl, i) == id {
      if id in entries {
        var i :| 0 <= i < n && IdAt(crl, i) == id;
      }
    }
  }

  lemma ReadableMore(crl: List, n: nat, entries: Entries)
    requires n < |crl.entries| && ReadableUpTo(crl, n) && Holds(crl, n, entries)
    ensures ReadableUpTo(crl, n + 1) <==> Acceptable(crl, crl.entries[n]) && IdAt(crl, n) !in entries
  {
    if IdAt(crl, n) in entries {
      var i :| 0 <= i < n && IdAt(crl, i) == IdAt(crl, n);
    }
  }

  /** The first `n` entries have been read into the map without a fault. */
  ghost predicate ReadSoFar(crl: List, n: nat, entries: Entries)
    requires n <= |crl.entries|
  {
    ReadableUpTo(crl, n) && entries == EntryMap(crl, n) && Holds(crl, n, entries)
  }

  lemma ReadStep(crl: List, n: nat, entries: Entries)
    requires n < |crl.entries| && ReadSoFar(crl, n, entries)
    ensures if Acceptable(crl, crl.entries[n]) && IdAt(crl, n) !in entries
            then ReadSoFar(crl, n + 1, entries[IdAt(crl, n) := EntryReason(crl.entries[n])])
            else !Readable(crl) && !ReadableUpTo(crl, n + 1)
  {
    ReadableMore(crl, n, entries);
    if Acceptable(crl, crl.entries[n]) && IdAt(crl, n) !in entries {
      HoldsMore(crl, n, entries);
    } else {
      NotReadable(crl, n + 1);
    }
  }

  lemma NotReadable(crl: List, n: nat)
    requires n <= |crl.entries| && !ReadableUpTo(crl, n)
    ensures !Readable(crl)
  {
  }

  lemma {:induction false} MapHolds(crl: List, n: nat)
    requires n <= |crl.entries| && ReadableUpTo(crl, n)
    ensures ReadSoFar(crl, n, EntryMap(crl, n))
  {
    if n > 0 {
      var last := n - 1;
      ReadableBefore(crl, last);
      MapHolds(crl, last);
      assert ReadableUpTo(crl, last + 1);
      ReadStep(crl, last, EntryMap(crl, last));
    }
  }

  lemma ReadableBefore(crl: List, n: nat)
    requires n < |crl.entries| && ReadableUpTo(crl, n + 1)
    ensures ReadableUpTo(crl, n)
  {
  }

  lemma BaseNeverRemoves(crl: List)
    requires crl.deltaBase.None? && EntriesOf(crl).Good?
    ensures forall id | id in EntriesOf(crl).value :: EntriesOf(crl).value[id] != RemoveFromCrl
  {
    MapHolds(crl, |crl.entries|);
    forall id | id in EntriesOf(crl).value ensures EntriesOf(crl).value[id] != RemoveFromCrl {
      var i :| 0 <= i < |crl.entries| && IdAt(crl, i) == id;
      assert Acceptable(crl, crl.entries[i]);
    }
  }

  /** The list is read exactly when every entry is acceptable and none repeats a certificate; then
      each certificate listed has the reason of its one entry. */
  method ReadEntries(crl: List) returns (r: Outcome<Entries>)
    ensures r == EntriesOf(crl)
    ensures r.Good? <==> Readable(crl)
    ensures r.Good? ==> Holds(crl, |crl.entries|, r.value)
  {
    var result: Entries := map[];
    var current := crl.issuer;
    for i := 0 to |crl.entries|
      invariant current == IssuerAfter(crl, i) && ReadSoFar(crl, i, result)
    {
      var e := crl.entries[i];
      ReadStep(crl, i, result);
      if e.issuer.Some? {
        if crl.point.None? || !crl.point.value.indirect || |e.issuer.value.names| != 1 || !e.issuer.value.critical {
          return Unavailable;
        }
        current := e.issuer.value.names[0];
      }
      var id := (current, e.serial);
      if id in result || e.future || e.unknownCritical {
        return Unavailable;
      }
      var reason := EntryReason(e);
      if reason == RemoveFromCrl && crl.deltaBase.None? {
        return Unavailable;
      }
      result := result[id := reason];
    }
    r := Good(result);
  }

  // ---------- merging a delta into a base ----------

  /** A delta may remove only what is absent or on hold. */
  ghost predicate Removable(base: Entries, delta: Entries) {
    forall id | id in delta && delta[id] == RemoveFromCrl && id in base :: base[id] == CertificateHold
  }

  function Merged(base: Entries, delta: Entries): Entries {
    map id | id in base.Keys + delta.Keys && !(id in delta && delta[id] == RemoveFromCrl) ::
      if id in delta then delta[id] else base[id]
  }

  method Merge(base: Entries, delta: Entries) returns (r: Outcome<Entries>)
    ensures r == if Removable(base, delta) then Good(Merged(base, delta)) else Unavailable
  {
    var entries := base;
    var todo := delta.Keys;
    ghost var done: set<Id> := {};
    while todo != {}
      invariant done + todo == delta.Keys && done !! todo
      invariant entries.Keys == (base.Keys + done) - set id | id in done && delta[id] == RemoveFromCrl
      invariant forall id | id in entries :: entries[id] == if id in done then delta[id] else base[id]
      invariant forall id | id in done && delta[id] == RemoveFromCrl && id in base :: base[id] == CertificateHold
      decreases todo
    {
      var id :| id in todo;
      todo, done := todo - {id}, done + {id};
      if delta[id] == RemoveFromCrl {
        if id in entries && entries[id] != CertificateHold {
          assert id in delta && id in base && base[id] != CertificateHold;
          return Unavailable;
        }
        entries := entries - {id};
      } else {
        entries := entries[id := delta[id]];
      }
    }
    assert done == delta.Keys;
    assert Removable(base, delta);
    assert entries.Keys == Merged(base, delta).Keys;
    assert entries == Merged(base, delta);
    r := Good(entries);
  }

  // ---------- an authority's history ----------

  predicate Same(a: Entries, b: Entries, id: Id) {
    (id in a <==> id in b) && (id in a ==> a[id] == b[id])
  }

  /** Section 5.2.4 of RFC 5280, for the full list an authority stands by at each number: what a
      delta lists is the state at its own number, and it lists whatever changed since any list it
      may be merged into. */
  ghost predicate HonestDelta(full: nat -> Entries, base: nat, number: nat, delta: Entries) {
    && (forall id | id in delta && delta[id] != RemoveFromCrl :: id in full(number) && full(number)[id] == delta[id])
    && (forall id | id in delta && delta[id] == RemoveFromCrl :: id !in full(number))
    && (forall n: nat, id: Id | base <= n < number && !Same(full(n), full(number), id) :: id in delta)
  }

  /** Something revoked for good has left the authority's list, as an expired certificate may
      (section 5.3.1 of RFC 5280). */
  ghost predicate Retires(before: Entries, after: Entries) {
    exists id | id in before :: before[id] != CertificateHold && id !in after
  }

  /** Merging the delta into any base it covers gives the authority's own list at the delta's
      number, and is refused exactly when that list has dropped something that was not on hold. */
  lemma MergeRefinesFull(full: nat -> Entries, base: nat, n: nat, number: nat, delta: Entries)
    requires base <= n < number && HonestDelta(full, base, number, delta)
    ensures Merged(full(n), delta) == full(number)
    ensures Removable(full(n), delta) <==> !Retires(full(n), full(number))
  {
    var merged := Merged(full(n), delta);
    forall id: Id ensures Same(merged, full(number), id) {
      if id !in delta { assert Same(full(n), full(number), id); }
    }
    assert merged.Keys == full(number).Keys by {
      forall id: Id ensures id in merged <==> id in full(number) { assert Same(merged, full(number), id); }
    }
    assert forall id | id in merged :: Same(merged, full(number), id);
    forall id | id in full(n) && full(n)[id] != CertificateHold && id !in full(number)
      ensures id in delta && delta[id] == RemoveFromCrl
    {
      assert !Same(full(n), full(number), id);
    }
  }
}
