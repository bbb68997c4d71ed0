/** Soundness and completeness of NSEC conclusions against an honestly signed zone. */
module NsecTheorems {
  import opened Wrappers
  import opened Names
  import opened Denial

  // ---------- honest zones ----------

  datatype Node = Node(name: Name, types: set<RType>)

  /** The names the zone signs for (authoritative data and delegation points), in canonical order. */
  datatype Zone = Zone(apex: Name, nodes: seq<Node>)

  predicate Cut(types: set<RType>) { DNAME in types || (NS in types && SOA !in types) }

  ghost predicate WellFormed(z: Zone) {
    && |z.nodes| > 0
    && z.nodes[0].name == z.apex
    && (forall i | 0 <= i < |z.nodes| :: AtOrBelow(z.nodes[i].name, z.apex))
    && (forall i, j | 0 <= i < j < |z.nodes| :: Before(z.nodes[i].name, z.nodes[j].name))
    // nothing the zone signs for lies strictly below a delegation or DNAME owner
    && (forall i, j | 0 <= i < |z.nodes| && 0 <= j < |z.nodes| && Cut(z.nodes[i].types) ::
          !StrictlyBelow(z.nodes[j].name, z.nodes[i].name))
  }

  ghost predicate Encodes(windows: seq<Window>, types: set<RType>) {
    && (windows == [] <==> types == {})
    && (forall t: RType :: HasType(windows, t) <==> t in types)
  }

  function NextIndex(z: Zone, i: nat): nat { if i + 1 < |z.nodes| then i + 1 else 0 }

  /** The i-th record of the zone's circular NSEC chain. */
  ghost predicate ChainRecord(z: Zone, r: Nsec, i: nat) {
    && i < |z.nodes|
    && r.owner == z.nodes[i].name
    && r.next == z.nodes[NextIndex(z, i)].name
    && Encodes(r.windows, z.nodes[i].types)
  }

  ghost predicate Honest(z: Zone, records: seq<Nsec>) {
    forall r | r in records :: exists i: nat :: ChainRecord(z, r, i)
  }

  ghost predicate Owner(z: Zone, name: Name) {
    exists i | 0 <= i < |z.nodes| :: z.nodes[i].name == name
  }

  /** The name exists: it owns records or is an empty non-terminal above a name that does. */
  ghost predicate Exists(z: Zone, name: Name) {
    exists i | 0 <= i < |z.nodes| :: AtOrBelow(z.nodes[i].name, name)
  }

  ghost predicate UnderCut(z: Zone, name: Name) {
    exists i | 0 <= i < |z.nodes| :: Cut(z.nodes[i].types) && StrictlyBelow(name, z.nodes[i].name)
  }

  /** The longest existing ancestor of a name that does not exist. */
  ghost predicate ClosestEncloser(z: Zone, qname: Name, c: Name) {
    && StrictlyBelow(qname, c)
    && AtOrBelow(c, z.apex)
    && Exists(z, c)
    && !Exists(z, NextCloser(qname, c))
  }

  // ---------- one covering record ----------

  lemma ApexFirst(z: Zone, name: Name)
    requires WellFormed(z) && AtOrBelow(name, z.apex)
    ensures !Before(name, z.apex)
  {
    if name != z.apex { AncestorFirst(z.apex, name); }
    Total(name, z.apex);
  }

  /** No existing name starts at or before `name` yet below it. */
  lemma NotBelowLater(owner: Name, name: Name)
    requires Before(owner, name)
    ensures !AtOrBelow(owner, name)
  {
    Total(owner, name);
    if AtOrBelow(owner, name) && owner != name { AncestorFirst(name, owner); }
  }

  /** What a covering record says about every owner of the zone. */
  lemma OwnersAround(z: Zone, r: Nsec, i: nat, name: Name, j: nat)
    requires WellFormed(z) && ChainRecord(z, r, i) && AtOrBelow(name, z.apex)
    requires Covers(z.apex, r, name) && j < |z.nodes|
    ensures Before(r.owner, name)
    ensures j <= i ==> Before(z.nodes[j].name, name)
    ensures j > i ==> Before(name, r.next) && (z.nodes[j].name == r.next || Before(r.next, z.nodes[j].name))
  {
    ApexFirst(z, name);
    Total(r.owner, r.next);
    if i + 1 < |z.nodes| {
      assert Before(r.owner, r.next);
    } else if i > 0 {
      assert Before(r.next, r.owner);
    } else {
      Total(name, z.apex);
    }
    if j < i { Transitive(z.nodes[j].name, r.owner, name); }
  }

  /** A covered name is no owner, comes after the record's owner, and exists (then as an
      empty non-terminal) exactly when the record's next owner lies below it. */
  lemma CoveredName(z: Zone, r: Nsec, i: nat, name: Name)
    requires WellFormed(z) && ChainRecord(z, r, i) && AtOrBelow(name, z.apex)
    requires Covers(z.apex, r, name)
    ensures !Owner(z, name)
    ensures Before(r.owner, name)
    ensures Exists(z, name) <==> AtOrBelow(r.next, name)
  {
    OwnersAround(z, r, i, name, i);
    forall j | 0 <= j < |z.nodes|
      ensures z.nodes[j].name != name
      ensures AtOrBelow(z.nodes[j].name, name) ==> AtOrBelow(r.next, name)
    {
      OwnersAround(z, r, i, name, j);
      Total(name, name);
      if j <= i {
        NotBelowLater(z.nodes[j].name, name);
      } else if z.nodes[j].name != r.next {
        Transitive(name, r.next, z.nodes[j].name);
        if AtOrBelow(z.nodes[j].name, name) { Contiguous(name, name, r.next, z.nodes[j].name); }
      }
    }
  }

  lemma BetweenIsBelow(top: Name, middle: Name, name: Name)
    requires Before(top, middle) && Before(middle, name) && StrictlyBelow(name, top)
    ensures StrictlyBelow(middle, top)
  {
    Contiguous(top, top, middle, name);
    Total(top, top);
    assert |middle| == |top| ==> middle == top;
  }

  /** The ancestor-delegation exclusion at work: a covered name whose covering record's owner
      is not itself a cut above it lies under a cut only through an ancestor that is a cut and
      an owner after which nothing follows up to the name; honest zones have none but the owner. */
  lemma CoveredNotUnderCut(z: Zone, r: Nsec, i: nat, name: Name)
    requires WellFormed(z) && ChainRecord(z, r, i) && AtOrBelow(name, z.apex)
    requires Covers(z.apex, r, name)
    ensures !UnderCut(z, name)
  {
    OwnersAround(z, r, i, name, i);
    forall k | 0 <= k < |z.nodes| && Cut(z.nodes[k].types)
      ensures !StrictlyBelow(name, z.nodes[k].name)
    {
      var a := z.nodes[k].name;
      if StrictlyBelow(name, a) {
        AncestorFirst(a, name);
        OwnersAround(z, r, i, name, k);
        if k == i {
          assert false;
        } else if k < i {
          BetweenIsBelow(a, r.owner, name);
        } else {
          Total(name, a);
          if a != r.next { Transitive(name, r.next, a); }
        }
      }
    }
  }

  // ---------- reading the record lists ----------

  lemma {:induction false} ExactNsecIs(records: seq<Nsec>, name: Name)
    ensures ExactNsec(records, name).Some? ==>
              ExactNsec(records, name).value in records && ExactNsec(records, name).value.owner == name
    ensures ExactNsec(records, name).None? ==> forall r | r in records :: r.owner != name
  {
    if records != [] { ExactNsecIs(records[1..], name); }
  }

  lemma {:induction false} CoveringNsecIs(zone: Name, records: seq<Nsec>, name: Name)
    ensures CoveringNsec(zone, records, name).Some? ==>
              CoveringNsec(zone, records, name).value in records
                  && Covers(zone, CoveringNsec(zone, records, name).value, name)
    ensures CoveringNsec(zone, records, name).None? ==> forall r | r in records :: !Covers(zone, r, name)
  {
    if records != [] { CoveringNsecIs(zone, records[1..], name); }
  }

  lemma {:induction false} ClosestIs(f: Facts, name: Name)
    requires f.nsec != []
    ensures f.Closest(name).Some? ==>
              var c := f.Closest(name).value;
              && AtOrBelow(name, c) && AtOrBelow(c, f.zone) && f.Endpoint(c)
              && (c != name ==> StrictlyBelow(name, c) && !f.Endpoint(NextCloser(name, c)))
    decreases |name|
  {
    if AtOrBelow(name, f.zone) && !f.Endpoint(name) && name != f.zone {
      ClosestIs(f, Parent(name));
      if f.Closest(name).Some? {
        var c := f.Closest(name).value;
        if c == Parent(name) {
          assert NextCloser(name, c) == name;
        } else {
          assert NextCloser(name, c) == NextCloser(Parent(name), c);
        }
      }
    }
  }

  /** Endpoints of honest records are owners, so what lies above one exists. */
  lemma EndpointExists(z: Zone, f: Facts, name: Name)
    requires WellFormed(z) && Honest(z, f.nsec) && f.Endpoint(name)
    ensures Exists(z, name)
  {
    var r :| r in f.nsec && (AtOrBelow(r.owner, name) || AtOrBelow(r.next, name));
    var i: nat :| ChainRecord(z, r, i);
  }

  // ---------- soundness ----------

  /** What each kind of conclusion claims about the zone. */
  ghost predicate NameError(z: Zone, qname: Name, c: Name) {
    && ClosestEncloser(z, qname, c)
    && !Exists(z, qname)
    && !UnderCut(z, qname)
    && !Owner(z, Wildcard(c))
  }

  ghost predicate TypesAt(z: Zone, name: Name, types: set<RType>) {
    exists i | 0 <= i < |z.nodes| :: z.nodes[i].name == name && z.nodes[i].types == types
  }

  ghost predicate NoRecords(types: set<RType>, qtype: RType) {
    && qtype !in types && CNAME !in types
    && (qtype == DS ==> SOA !in types)
    && (qtype != DS ==> !(NS in types && SOA !in types))
  }

  ghost predicate NoDataAt(z: Zone, name: Name, qtype: RType) {
    exists types ::
      && TypesAt(z, name, types)
      && (qtype == ANY ==> types == {})
      && (qtype != ANY ==> NoRecords(types, qtype))
  }

  ghost predicate UnsignedChild(z: Zone, name: Name) {
    exists types :: TypesAt(z, name, types) && NS in types && DS !in types && SOA !in types && CNAME !in types
        && DNAME !in types
  }

  ghost predicate EmptyNonTerminal(z: Zone, name: Name) { Exists(z, name) && !Owner(z, name) }

  /** Where a name does not exist nothing exists below it, and no cut starts there. */
  lemma NothingBelow(z: Zone, name: Name, top: Name)
    requires AtOrBelow(name, top) && !Exists(z, top)
    ensures !Exists(z, name)
    ensures UnderCut(z, name) ==> UnderCut(z, top)
  {
    if UnderCut(z, name) {
      var k :| 0 <= k < |z.nodes| && Cut(z.nodes[k].types) && StrictlyBelow(name, z.nodes[k].name);
      var a := z.nodes[k].name;
      assert !AtOrBelow(a, top);
      assert a < top;
    }
  }

  lemma CoveredByHonest(z: Zone, records: seq<Nsec>, r: Nsec, name: Name)
    requires WellFormed(z) && Honest(z, records) && r in records
    requires AtOrBelow(name, z.apex) && Covers(z.apex, r, name)
    ensures !Owner(z, name) && !UnderCut(z, name)
    ensures Exists(z, name) <==> AtOrBelow(r.next, name)
  {
    var i: nat :| ChainRecord(z, r, i);
    CoveredName(z, r, i, name);
    CoveredNotUnderCut(z, r, i, name);
  }

  /** The record covering the next closer name and the closest encloser found from endpoints
      together pin the encloser down. */
  lemma EncloserSound(z: Zone, f: Facts, qname: Name, c: Name, r: Nsec)
    requires WellFormed(z) && f.zone == z.apex && f.nsec != [] && Honest(z, f.nsec)
    requires AtOrBelow(qname, z.apex) && f.Closest(qname) == Some(c) && c != qname
    requires r in f.nsec && Covers(z.apex, r, NextCloser(qname, c))
    ensures ClosestEncloser(z, qname, c) && !Exists(z, qname) && !UnderCut(z, qname)
  {
    NextCloserAbsent(z, f, qname, c, r);
    EndpointExists(z, f, c);
    NothingBelow(z, qname, NextCloser(qname, c));
  }

  lemma NextCloserAbsent(z: Zone, f: Facts, qname: Name, c: Name, r: Nsec)
    requires WellFormed(z) && f.zone == z.apex && f.nsec != [] && Honest(z, f.nsec)
    requires AtOrBelow(qname, z.apex) && f.Closest(qname) == Some(c) && c != qname
    requires r in f.nsec && Covers(z.apex, r, NextCloser(qname, c))
    ensures !Exists(z, NextCloser(qname, c)) && !UnderCut(z, NextCloser(qname, c)) && f.Endpoint(c)
    ensures AtOrBelow(c, z.apex) && StrictlyBelow(qname, c) && AtOrBelow(qname, NextCloser(qname, c))
  {
    AboveNextCloser(f, qname, c, r);
    CoveredByHonest(z, f.nsec, r, NextCloser(qname, c));
  }

  /** No endpoint is at or below the next closer name: the walk would have stopped there. */
  lemma AboveNextCloser(f: Facts, qname: Name, c: Name, r: Nsec)
    requires f.nsec != [] && AtOrBelow(qname, f.zone) && f.Closest(qname) == Some(c) && c != qname && r in f.nsec
    ensures f.Endpoint(c) && AtOrBelow(c, f.zone) && StrictlyBelow(qname, c)
    ensures var nc := NextCloser(qname, c); AtOrBelow(qname, nc) && StrictlyBelow(nc, c) && !AtOrBelow(r.next, nc)
  {
    ClosestIs(f, qname);
    assert !f.Endpoint(NextCloser(qname, c));
  }

  lemma MatchIs(z: Zone, f: Facts, name: Name)
    requires WellFormed(z) && f.nsec != [] && Honest(z, f.nsec)
    ensures f.Exact(name).Some? ==>
              exists i | 0 <= i < |z.nodes| :: z.nodes[i].name == name && Encodes(f.Exact(name).value, z.nodes[i].types)
  {
    ExactNsecIs(f.nsec, name);
    if f.Exact(name).Some? {
      var r := ExactNsec(f.nsec, name).value;
      var i: nat :| ChainRecord(z, r, i);
    }
  }

  lemma NoDataMeans(z: Zone, windows: seq<Window>, i: nat, qtype: RType)
    requires i < |z.nodes| && Encodes(windows, z.nodes[i].types)
    ensures NoData(windows, qtype) <==>
            if qtype == ANY then z.nodes[i].types == {} else NoRecords(z.nodes[i].types, qtype)
  {
  }

  lemma NoDataAtSound(z: Zone, f: Facts, name: Name, qtype: RType)
    requires WellFormed(z) && f.nsec != [] && Honest(z, f.nsec)
    requires f.Exact(name).Some? && NoData(f.Exact(name).value, qtype)
    ensures NoDataAt(z, name, qtype)
  {
    MatchIs(z, f, name);
    var i :| 0 <= i < |z.nodes| && z.nodes[i].name == name && Encodes(f.Exact(name).value, z.nodes[i].types);
    NoDataMeans(z, f.Exact(name).value, i, qtype);
    assert TypesAt(z, name, z.nodes[i].types);
  }

  /** A proof through a closest encloser found from endpoints: what was matched and covered. */
  lemma ThroughEncloser(f: Facts, qname: Name, qtype: RType, kind: Kind, wildcard: Option<Name>)
    requires f.nsec != [] && kind in {NxDomain, WildcardNoData}
    requires Decide(f, qname, qtype, kind, wildcard).valid
    ensures var d := Decide(f, qname, qtype, kind, wildcard);
            && d.closest.Some? && d.closest == f.Closest(qname) && d.closest.value != qname && !d.optOut
            && var nc := NextCloser(qname, d.closest.value);
            && CoveringNsec(f.zone, f.nsec, nc).Some?
            && (kind == NxDomain ==> CoveringNsec(f.zone, f.nsec, Wildcard(d.closest.value)).Some?)
            && (kind == WildcardNoData ==>
                  var star := f.Exact(Wildcard(d.closest.value)); star.Some? && NoData(star.value, qtype))
  {
  }

  lemma EncloserOfProof(z: Zone, f: Facts, qname: Name, qtype: RType, kind: Kind, wildcard: Option<Name>)
    requires WellFormed(z) && f.zone == z.apex && f.nsec != [] && Honest(z, f.nsec)
    requires AtOrBelow(qname, z.apex) && kind in {NxDomain, WildcardNoData}
    requires Decide(f, qname, qtype, kind, wildcard).valid
    ensures var c := Decide(f, qname, qtype, kind, wildcard).closest;
            c.Some? && ClosestEncloser(z, qname, c.value) && !Exists(z, qname) && !UnderCut(z, qname)
  {
    ThroughEncloser(f, qname, qtype, kind, wildcard);
    var c := f.Closest(qname).value;
    var nc := NextCloser(qname, c);
    ClosestIs(f, qname);
    CoveringNsecIs(z.apex, f.nsec, nc);
    EncloserSound(z, f, qname, c, CoveringNsec(z.apex, f.nsec, nc).value);
  }

  /** A valid name error: nothing exists at or below the name, it is under no delegation or
      DNAME, the encloser is the true one, and the wildcard there is no owner. */
  lemma NameErrorSound(z: Zone, f: Facts, qname: Name, qtype: RType, wildcard: Option<Name>)
    requires WellFormed(z) && f.zone == z.apex && f.nsec != [] && Honest(z, f.nsec)
    requires AtOrBelow(qname, z.apex) && Decide(f, qname, qtype, NxDomain, wildcard).valid
    ensures Decide(f, qname, qtype, NxDomain, wildcard).closest.Some?
    ensures NameError(z, qname, Decide(f, qname, qtype, NxDomain, wildcard).closest.value)
  {
    EncloserOfProof(z, f, qname, qtype, NxDomain, wildcard);
    ThroughEncloser(f, qname, qtype, NxDomain, wildcard);
    var star := Wildcard(f.Closest(qname).value);
    CoveringNsecIs(z.apex, f.nsec, star);
    CoveredByHonest(z, f.nsec, CoveringNsec(z.apex, f.nsec, star).value, star);
  }

  lemma WildcardNoDataSound(z: Zone, f: Facts, qname: Name, qtype: RType, wildcard: Option<Name>)
    requires WellFormed(z) && f.zone == z.apex && f.nsec != [] && Honest(z, f.nsec)
    requires AtOrBelow(qname, z.apex) && Decide(f, qname, qtype, WildcardNoData, wildcard).valid
    ensures var c := Decide(f, qname, qtype, WildcardNoData, wildcard).closest;
            && c.Some? && ClosestEncloser(z, qname, c.value) && !Exists(z, qname) && !UnderCut(z, qname)
            && NoDataAt(z, Wildcard(c.value), qtype)
  {
    EncloserOfProof(z, f, qname, qtype, WildcardNoData, wildcard);
    ThroughEncloser(f, qname, qtype, WildcardNoData, wildcard);
    NoDataAtSound(z, f, Wildcard(f.Closest(qname).value), qtype);
  }

  /** A valid NODATA: the name is an owner without the type (or alias, or a closer zone's
      data), or an empty non-terminal. */
  lemma NoDataSound(z: Zone, f: Facts, qname: Name, qtype: RType, wildcard: Option<Name>)
    requires WellFormed(z) && f.zone == z.apex && f.nsec != [] && Honest(z, f.nsec)
    requires AtOrBelow(qname, z.apex) && Decide(f, qname, qtype, NoDataKind, wildcard).valid
    ensures NoDataAt(z, qname, qtype) || EmptyNonTerminal(z, qname)
  {
    if f.Exact(qname).Some? {
      NoDataAtSound(z, f, qname, qtype);
    } else {
      ClosestIs(f, qname);
      EndpointExists(z, f, qname);
      CoveringNsecIs(z.apex, f.nsec, qname);
      CoveredByHonest(z, f.nsec, CoveringNsec(z.apex, f.nsec, qname).value, qname);
    }
  }

  /** A valid unsigned-delegation proof: the name is a delegation without DS. */
  lemma UnsignedDelegationSound(z: Zone, f: Facts, qname: Name, qtype: RType, wildcard: Option<Name>)
    requires WellFormed(z) && f.zone == z.apex && f.nsec != [] && f.nsec3 == [] && Honest(z, f.nsec)
    requires AtOrBelow(qname, z.apex) && Decide(f, qname, qtype, UnsignedDelegation, wildcard).valid
    ensures UnsignedChild(z, qname)
  {
    var r := f.Exact(qname);
    assert r.Some? && Delegation(r.value);
    MatchIs(z, f, qname);
    var i :| 0 <= i < |z.nodes| && z.nodes[i].name == qname && Encodes(r.value, z.nodes[i].types);
    assert TypesAt(z, qname, z.nodes[i].types);
  }

  /** The name-error proof rules the wildcard out as an owner; it rules it out altogether
      exactly when the record covering it does not end below it. */
  lemma NameErrorWildcardExact(z: Zone, f: Facts, qname: Name, qtype: RType, wildcard: Option<Name>)
    requires WellFormed(z) && f.zone == z.apex && f.nsec != [] && Honest(z, f.nsec)
    requires AtOrBelow(qname, z.apex) && Decide(f, qname, qtype, NxDomain, wildcard).valid
    ensures var star := Wildcard(Decide(f, qname, qtype, NxDomain, wildcard).closest.value);
            && CoveringNsec(z.apex, f.nsec, star).Some?
            && (Exists(z, star) <==> AtOrBelow(CoveringNsec(z.apex, f.nsec, star).value.next, star))
  {
    EncloserOfProof(z, f, qname, qtype, NxDomain, wildcard);
    ThroughEncloser(f, qname, qtype, NxDomain, wildcard);
    var star := Wildcard(f.Closest(qname).value);
    CoveringNsecIs(z.apex, f.nsec, star);
    CoveredByHonest(z, f.nsec, CoveringNsec(z.apex, f.nsec, star).value, star);
  }

  /** A positive wildcard answer's NSEC proof takes its encloser from the caller: the next
      closer name is then no owner and not under a cut, and it does not exist exactly when the
      covering record does not end below it. Then the question does not exist either; in general
      one that the record does not end before exists exactly when the record ends at or below it. */
  lemma WildcardExact(z: Zone, f: Facts, qname: Name, qtype: RType, wildcard: Option<Name>)
    requires WellFormed(z) && f.zone == z.apex && f.nsec != [] && Honest(z, f.nsec)
    requires Decide(f, qname, qtype, WildcardKind, wildcard).valid && AtOrBelow(qname, z.apex)
    ensures wildcard.Some? && wildcard.value != []
    ensures var nc := NextCloser(qname, Parent(wildcard.value));
            && !Owner(z, nc) && !UnderCut(z, nc)
            && CoveringNsec(z.apex, f.nsec, nc).Some?
            && (!Exists(z, nc) <==> !AtOrBelow(CoveringNsec(z.apex, f.nsec, nc).value.next, nc))
            && (!Exists(z, nc) ==> !Exists(z, qname) && !UnderCut(z, qname))
            && var next := CoveringNsec(z.apex, f.nsec, nc).value.next;
               !Before(next, qname) ==> (Exists(z, qname) <==> AtOrBelow(next, qname))
  {
    var c := Parent(wildcard.value);
    var nc := NextCloser(qname, c);
    assert AtOrBelow(qname, nc) && c <= qname;
    assert |z.apex| <= |nc|;
    CoveringNsecIs(z.apex, f.nsec, nc);
    var r := CoveringNsec(z.apex, f.nsec, nc).value;
    CoveredByHonest(z, f.nsec, r, nc);
    if !Exists(z, nc) { NothingBelow(z, qname, nc); }
    QuestionCovered(z, f.nsec, r, qname, nc);
  }

  /** A record that covers an ancestor of the question, and does not end before the question, is
      about the question too. */
  lemma QuestionCovered(z: Zone, records: seq<Nsec>, r: Nsec, qname: Name, nc: Name)
    requires WellFormed(z) && Honest(z, records) && r in records
    requires AtOrBelow(nc, z.apex) && AtOrBelow(qname, nc) && Covers(z.apex, r, nc)
    ensures !Before(r.next, qname) ==> (Exists(z, qname) <==> AtOrBelow(r.next, qname))
  {
    var i: nat :| ChainRecord(z, r, i);
    Total(r.next, qname);
    if r.next == qname {
      assert Owner(z, qname);
    } else if !Before(r.next, qname) {
      CoveredName(z, r, i, nc);
      OwnerBefore(r.owner, nc, qname);
      CoveredName(z, r, i, qname);
    }
  }

  lemma OwnerBefore(owner: Name, nc: Name, qname: Name)
    requires Before(owner, nc) && AtOrBelow(qname, nc)
    ensures Before(owner, qname) && owner != qname && (StrictlyBelow(qname, owner) ==> StrictlyBelow(nc, owner))
  {
    if qname != nc {
      AncestorFirst(nc, qname);
      Transitive(owner, nc, qname);
    }
    Total(owner, qname);
    NotBelowLater(owner, nc);
  }

  // ---------- completeness ----------

  /** The last owner before a name, whose chain record is the one to serve for it. */
  ghost predicate LastBefore(z: Zone, i: nat, name: Name) {
    && i < |z.nodes| && Before(z.nodes[i].name, name)
    && forall j | i < j < |z.nodes| :: !Before(z.nodes[j].name, name)
  }

  lemma LastBeforeExists(z: Zone, name: Name) returns (i: nat)
    requires WellFormed(z) && StrictlyBelow(name, z.apex)
    ensures LastBefore(z, i, name)
  {
    AncestorFirst(z.apex, name);
    i := |z.nodes| - 1;
    while !Before(z.nodes[i].name, name)
      invariant i < |z.nodes|
      invariant forall j | i < j < |z.nodes| :: !Before(z.nodes[j].name, name)
      decreases i
    {
      i := i - 1;
    }
  }

  /** That record covers the name when it is no owner and lies under no cut. */
  lemma ServesCover(z: Zone, r: Nsec, i: nat, name: Name)
    requires WellFormed(z) && ChainRecord(z, r, i) && LastBefore(z, i, name)
    requires StrictlyBelow(name, z.apex) && !Owner(z, name) && !UnderCut(z, name)
    ensures Covers(z.apex, r, name)
  {
    assert StrictlyBelow(name, r.owner) ==> !Cut(z.nodes[i].types);
    assert Authoritative(r.windows) <==> !Cut(z.nodes[i].types);
    if i + 1 < |z.nodes| {
      Total(name, r.next);
    } else if i > 0 {
      assert Before(r.next, r.owner);
    }
  }

  /** An existing encloser of an absent name has an endpoint at or below it in the record
      serving the name. */
  lemma ServedEndpoint(z: Zone, r: Nsec, i: nat, qname: Name, c: Name)
    requires WellFormed(z) && ChainRecord(z, r, i) && LastBefore(z, i, qname)
    requires StrictlyBelow(qname, c) && Exists(z, c) && !Owner(z, qname)
    ensures AtOrBelow(r.owner, c) || AtOrBelow(r.next, c)
  {
    var w :| 0 <= w < |z.nodes| && AtOrBelow(z.nodes[w].name, c);
    var name := z.nodes[w].name;
    if w < i {
      Contiguous(c, name, r.owner, qname);
    } else if w > i {
      Total(qname, name);
      if w > i + 1 {
        Total(qname, r.next);
        Contiguous(c, qname, r.next, name);
      }
    }
  }

  /** When the next closer name does not exist, the record serving the name serves it too. */
  lemma ServesNextCloser(z: Zone, i: nat, qname: Name, nc: Name)
    requires WellFormed(z) && LastBefore(z, i, qname) && AtOrBelow(qname, nc) && !Exists(z, nc)
    ensures LastBefore(z, i, nc)
  {
    forall j | 0 <= j < |z.nodes|
      ensures Before(z.nodes[j].name, nc) <==> Before(z.nodes[j].name, qname)
    {
      Outside(nc, qname, z.nodes[j].name);
    }
  }

  lemma NoEndpointBelow(z: Zone, f: Facts, qname: Name, absent: Name)
    requires WellFormed(z) && f.zone == z.apex && Honest(z, f.nsec)
    requires AtOrBelow(absent, z.apex) && AtOrBelow(qname, absent) && !Exists(z, absent)
    ensures !f.Endpoint(qname)
  {
    if f.Endpoint(qname) {
      EndpointExists(z, f, qname);
      NothingBelow(z, qname, absent);
    }
  }

  lemma {:induction false} ClosestReaches(z: Zone, f: Facts, qname: Name, c: Name)
    requires WellFormed(z) && f.zone == z.apex && f.nsec != [] && Honest(z, f.nsec)
    requires AtOrBelow(c, z.apex) && AtOrBelow(qname, c) && f.Endpoint(c)
    requires c != qname ==> StrictlyBelow(qname, c) && !Exists(z, NextCloser(qname, c))
    ensures f.Closest(qname) == Some(c)
    decreases |qname|
  {
    if c != qname {
      NoEndpointBelow(z, f, qname, NextCloser(qname, c));
      var p := Parent(qname);
      assert c != p ==> NextCloser(p, c) == NextCloser(qname, c);
      ClosestReaches(z, f, p, c);
    }
  }

  lemma ServedIsCovered(z: Zone, f: Facts, r: Nsec, i: nat, name: Name)
    requires WellFormed(z) && f.zone == z.apex && r in f.nsec && ChainRecord(z, r, i) && LastBefore(z, i, name)
    requires StrictlyBelow(name, z.apex) && !Owner(z, name) && !UnderCut(z, name)
    ensures CoveringNsec(f.zone, f.nsec, name).Some?
  {
    ServesCover(z, r, i, name);
    CoveringNsecIs(z.apex, f.nsec, name);
  }

  lemma NextCloserIsCovered(z: Zone, f: Facts, r: Nsec, i: nat, qname: Name, c: Name)
    requires WellFormed(z) && f.zone == z.apex && r in f.nsec && ChainRecord(z, r, i) && LastBefore(z, i, qname)
    requires ClosestEncloser(z, qname, c) && !UnderCut(z, qname)
    ensures CoveringNsec(f.zone, f.nsec, NextCloser(qname, c)).Some?
  {
    var nc := NextCloser(qname, c);
    ServesNextCloser(z, i, qname, nc);
    NotUnderCutAbove(z, qname, nc);
    ServedIsCovered(z, f, r, i, nc);
  }

  lemma EncloserIsFound(z: Zone, f: Facts, r: Nsec, i: nat, qname: Name, c: Name)
    requires WellFormed(z) && f.zone == z.apex && Honest(z, f.nsec)
    requires r in f.nsec && ChainRecord(z, r, i) && LastBefore(z, i, qname)
    requires ClosestEncloser(z, qname, c)
    ensures f.Closest(qname) == Some(c) && f.Exact(qname).None?
  {
    NothingBelow(z, qname, NextCloser(qname, c));
    ServedEndpoint(z, r, i, qname, c);
    ClosestReaches(z, f, qname, c);
    AbsentFromList(z, f, qname);
  }

  /** Completeness: for every absent name under no cut, whose encloser has no wildcard owner,
      any honest record list holding the records that serve the name and the wildcard is
      accepted, and the encloser computed from its endpoints is the true one. */
  lemma NameErrorComplete(z: Zone, f: Facts, qname: Name, qtype: RType, wildcard: Option<Name>,
                          c: Name, r: Nsec, i: nat, rs: Nsec, s: nat)
    requires WellFormed(z) && f.zone == z.apex && Honest(z, f.nsec)
    requires ClosestEncloser(z, qname, c) && !UnderCut(z, qname) && !Owner(z, Wildcard(c))
    requires r in f.nsec && ChainRecord(z, r, i) && LastBefore(z, i, qname)
    requires rs in f.nsec && ChainRecord(z, rs, s) && LastBefore(z, s, Wildcard(c))
    ensures Decide(f, qname, qtype, NxDomain, wildcard) == Proof(true, false, Some(c), NoLimitation)
  {
    EncloserIsFound(z, f, r, i, qname, c);
    NextCloserIsCovered(z, f, r, i, qname, c);
    StarNotUnderCut(z, qname, c);
    ServedIsCovered(z, f, rs, s, Wildcard(c));
    EncloserRecordAuthoritative(z, f, qname, c);
    NameErrorFrom(f, qname, qtype, wildcard, c);
  }

  lemma NameErrorFrom(f: Facts, qname: Name, qtype: RType, wildcard: Option<Name>, c: Name)
    requires f.nsec != [] && f.Exact(qname).None? && f.Closest(qname) == Some(c) && c != qname
    requires f.Exact(c).Some? ==> Authoritative(f.Exact(c).value)
    requires f.Covering(NextCloser(qname, c)).Some? && f.Covering(Wildcard(c)).Some?
    ensures Decide(f, qname, qtype, NxDomain, wildcard) == Proof(true, false, Some(c), NoLimitation)
  {
  }

  lemma NotUnderCutAbove(z: Zone, qname: Name, name: Name)
    requires !UnderCut(z, qname) && AtOrBelow(qname, name)
    ensures !UnderCut(z, name)
  {
  }

  lemma StarNotUnderCut(z: Zone, qname: Name, c: Name)
    requires !UnderCut(z, qname) && StrictlyBelow(qname, c)
    ensures !UnderCut(z, Wildcard(c))
  {
    forall k | 0 <= k < |z.nodes| && StrictlyBelow(Wildcard(c), z.nodes[k].name)
      ensures StrictlyBelow(qname, z.nodes[k].name)
    {
      assert |z.nodes[k].name| <= |c|;
      assert z.nodes[k].name == Wildcard(c)[..|z.nodes[k].name|] == qname[..|z.nodes[k].name|];
    }
  }

  lemma AbsentFromList(z: Zone, f: Facts, name: Name)
    requires WellFormed(z) && f.nsec != [] && Honest(z, f.nsec) && !Owner(z, name)
    ensures f.Exact(name).None?
  {
    MatchIs(z, f, name);
  }

  lemma EncloserRecordAuthoritative(z: Zone, f: Facts, qname: Name, c: Name)
    requires WellFormed(z) && f.nsec != [] && Honest(z, f.nsec) && !UnderCut(z, qname) && StrictlyBelow(qname, c)
    ensures f.Exact(c).Some? ==> Authoritative(f.Exact(c).value)
  {
    MatchIs(z, f, c);
  }

  /** The zone can always serve such a proof: the two serving records exist in its chain. */
  lemma NameErrorServable(z: Zone, qname: Name, c: Name) returns (i: nat, s: nat)
    requires WellFormed(z) && ClosestEncloser(z, qname, c)
    ensures LastBefore(z, i, qname) && LastBefore(z, s, Wildcard(c))
  {
    assert StrictlyBelow(Wildcard(c), z.apex) by { assert Wildcard(c)[..|z.apex|] == z.apex; }
    i := LastBeforeExists(z, qname);
    s := LastBeforeExists(z, Wildcard(c));
  }

  /** An owner's own record decides NODATA for it exactly. */
  lemma NoDataExact(z: Zone, f: Facts, qtype: RType, wildcard: Option<Name>, r: Nsec, i: nat)
    requires WellFormed(z) && f.zone == z.apex && Honest(z, f.nsec) && r in f.nsec && ChainRecord(z, r, i)
    ensures Decide(f, r.owner, qtype, NoDataKind, wildcard).valid <==>
            if qtype == ANY then z.nodes[i].types == {} else NoRecords(z.nodes[i].types, qtype)
  {
    ExactNsecIs(f.nsec, r.owner);
    MatchIs(z, f, r.owner);
    var windows := f.Exact(r.owner).value;
    var k :| 0 <= k < |z.nodes| && z.nodes[k].name == r.owner && Encodes(windows, z.nodes[k].types);
    assert k == i by { Total(r.owner, r.owner); }
    NoDataMeans(z, windows, i, qtype);
  }

  /** Every empty non-terminal under no cut is accepted as NODATA from the record serving it. */
  lemma EmptyNonTerminalComplete(z: Zone, f: Facts, qname: Name, qtype: RType, wildcard: Option<Name>, r: Nsec, i: nat)
    requires WellFormed(z) && f.zone == z.apex && Honest(z, f.nsec) && StrictlyBelow(qname, z.apex)
    requires EmptyNonTerminal(z, qname) && !UnderCut(z, qname)
    requires r in f.nsec && ChainRecord(z, r, i) && LastBefore(z, i, qname)
    ensures Decide(f, qname, qtype, NoDataKind, wildcard).valid
  {
    assert f.Endpoint(qname) by {
      ServesCover(z, r, i, qname);
      CoveredName(z, r, i, qname);
    }
    ClosestReaches(z, f, qname, qname);
    ServedIsCovered(z, f, r, i, qname);
    AbsentFromList(z, f, qname);
    NonTerminalFrom(f, qname, qtype, wildcard);
  }

  lemma NonTerminalFrom(f: Facts, qname: Name, qtype: RType, wildcard: Option<Name>)
    requires f.nsec != [] && f.Exact(qname).None? && f.Closest(qname) == Some(qname) && f.Covering(qname).Some?
    ensures Decide(f, qname, qtype, NoDataKind, wildcard).valid
  {
  }

  // ---------- where the wildcard conclusions fall short ----------

  const E: Octets := [101]
  const ADDRESS: seq<Window> := [Window(0, [0x40])]

  lemma AddressOnly()
    ensures Encodes(ADDRESS, {1 as RType})
  {
    forall t: RType ensures HasType(ADDRESS, t) <==> t == 1 {
      var w := Window(0, [0x40]);
      assert ADDRESS[0] == w && w in ADDRESS;
      assert HasType(ADDRESS, t) <==>
          t / 256 == 0 && t % 256 / 8 == 0 && (0x40 as bv8) & ((0x80 as bv8) >> (t % 8)) != 0;
      var bit := t % 8;
      assert bit == 0 || bit == 1 || bit == 2 || bit == 3 || bit == 4 || bit == 5 || bit == 6 || bit == 7;
    }
  }

  /** The zone "e" with one further owner. */
  function TwoOwners(name: Name): Zone { Zone([E], [Node([E], {1}), Node(name, {1})]) }

  function TwoRecords(name: Name): seq<Nsec> { [Nsec([E], name, ADDRESS), Nsec(name, [E], ADDRESS)] }

  lemma TwoOwnersHonest(name: Name)
    requires StrictlyBelow(name, [E])
    ensures WellFormed(TwoOwners(name)) && Honest(TwoOwners(name), TwoRecords(name))
  {
    AddressOnly();
    AncestorFirst([E], name);
    assert ChainRecord(TwoOwners(name), TwoRecords(name)[0], 0);
    assert ChainRecord(TwoOwners(name), TwoRecords(name)[1], 1);
  }

  /** A valid wildcard proof for "a.e" while "b.a.e" exists, so "a.e" does too. */
  lemma WildcardAcceptsEmptyNonTerminal()
    ensures var name: Name := [E, [97], [98]]; var z := TwoOwners(name);
            && WellFormed(z) && Honest(z, TwoRecords(name))
            && Decide(Facts([E], TwoRecords(name), [], n => []), [E, [97]], 1, WildcardKind, Some(Wildcard([E]))).valid
            && Exists(z, [E, [97]])
  {
    var name: Name := [E, [97], [98]];
    var z := TwoOwners(name);
    var f := Facts([E], TwoRecords(name), [], n => []);
    var qname: Name := [E, [97]];
    TwoOwnersHonest(name);
    AncestorFirst([E], qname);
    AncestorFirst(qname, name);
    assert NextCloser(qname, [E]) == qname && Parent(Wildcard([E])) == [E];
    ServedIsCovered(z, f, f.nsec[0], 0, qname) by {
      AddressOnly();
      Total(qname, name);
    }
    AbsentFromList(z, f, qname);
    EncloserRecordAuthoritative(z, f, qname, [E]);
    WildcardFrom(f, qname, 1, [E]);
    assert AtOrBelow(z.nodes[1].name, qname);
  }

  /** The first record alone makes the proof valid for "b.a.e" itself, an owner with the type asked for. */
  lemma WildcardAcceptsOwner()
    ensures var name: Name := [E, [97], [98]]; var z := TwoOwners(name); var served := [TwoRecords(name)[0]];
            && WellFormed(z) && Honest(z, served)
            && Decide(Facts([E], served, [], n => []), name, 1, WildcardKind, Some(Wildcard([E]))).valid
            && Owner(z, name) && TypesAt(z, name, {1})
  {
    var name: Name := [E, [97], [98]];
    var z := TwoOwners(name);
    var served := [TwoRecords(name)[0]];
    TwoOwnersHonest(name);
    assert served[0] in TwoRecords(name);
    FirstDecides(name, name);
    assert z.nodes[1].name == name;
  }

  /** Past the record's end nothing is decided: the same record makes the proof valid for "c.a.e" in
      a zone where it does not exist and in one where it does. */
  lemma WildcardUndecided()
    ensures var name: Name := [E, [97], [98]]; var qname: Name := [E, [97], [99]];
            var y := TwoOwners(name); var z := y.(nodes := y.nodes + [Node(qname, {1})]);
            var served := [TwoRecords(name)[0]];
            && WellFormed(y) && Honest(y, served) && WellFormed(z) && Honest(z, served)
            && Decide(Facts([E], served, [], n => []), qname, 1, WildcardKind, Some(Wildcard([E]))).valid
            && !Exists(y, qname) && Exists(z, qname)
  {
    var name: Name := [E, [97], [98]];
    var qname: Name := [E, [97], [99]];
    var y := TwoOwners(name);
    var z := y.(nodes := y.nodes + [Node(qname, {1})]);
    var served := [TwoRecords(name)[0]];
    TwoOwnersHonest(name);
    assert served[0] in TwoRecords(name);
    ThirdOwner(name, qname);
    FirstDecides(name, qname);
    assert name[2] != qname[2];
    assert z.nodes[2].name == qname;
  }

  /** The first record alone makes the proof valid for any other name two labels below "e" in the
      same subtree. */
  lemma FirstDecides(name: Name, qname: Name)
    requires |name| == |qname| == 3 && name[..2] == qname[..2] && StrictlyBelow(name, [E])
    ensures Decide(Facts([E], [TwoRecords(name)[0]], [], n => []), qname, 1, WildcardKind, Some(Wildcard([E]))).valid
  {
    var served := [TwoRecords(name)[0]];
    FirstCovers(name, name[..2]);
    assert ExactNsec(served[1..], qname).None?;
    assert ExactNsec(served, [E]) == Some(served[0]);
    assert qname[..2] <= qname && [E] <= name[..2];
    assert NextCloser(qname, [E]) == name[..2];
    WildcardFrom(Facts([E], served, [], n => []), qname, 1, [E]);
  }

  lemma ThirdOwner(name: Name, qname: Name)
    requires name == [E, [97], [98]] && qname == [E, [97], [99]]
    ensures var y := TwoOwners(name); var z := y.(nodes := y.nodes + [Node(qname, {1})]);
            WellFormed(z) && Honest(z, [TwoRecords(name)[0]])
  {
    var y := TwoOwners(name);
    var z := y.(nodes := y.nodes + [Node(qname, {1})]);
    AddressOnly();
    AncestorFirst([E], name);
    AncestorFirst([E], qname);
    assert OctetsBefore([98], [99]);
    assert Before(name[2..], qname[2..]);
    assert name[1..][1..] == name[2..] && qname[1..][1..] == qname[2..];
    assert Before(name[1..], qname[1..]);
    assert Before(name, qname);
    assert ChainRecord(z, TwoRecords(name)[0], 0);
  }

  lemma FirstCovers(name: Name, nc: Name)
    requires StrictlyBelow(nc, [E]) && StrictlyBelow(name, nc)
    ensures Covers([E], TwoRecords(name)[0], nc) && Authoritative(ADDRESS)
  {
    AddressOnly();
    AncestorFirst([E], nc);
    AncestorFirst(nc, name);
  }

  lemma WildcardFrom(f: Facts, qname: Name, qtype: RType, c: Name)
    requires f.nsec != [] && f.Exact(qname).None? && StrictlyBelow(qname, c) && qname != Wildcard(c)
    requires f.Exact(c).Some? ==> Authoritative(f.Exact(c).value)
    requires f.Covering(NextCloser(qname, c)).Some? && AtOrBelow(c, f.zone)
    ensures Decide(f, qname, qtype, WildcardKind, Some(Wildcard(c))).valid
  {
    assert Parent(Wildcard(c)) == c;
    assert Wildcard(c)[..|f.zone|] == f.zone;
  }

  /** A valid name error for "z.e" while "x.*.e" exists, so the wildcard "*.e" does too. */
  lemma NameErrorAcceptsNonTerminalWildcard()
    ensures var name: Name := [E, STAR, [120]]; var z := TwoOwners(name);
            && WellFormed(z) && Honest(z, TwoRecords(name))
            && Decide(Facts([E], TwoRecords(name), [], n => []), [E, [122]], 1, NxDomain, None).valid
            && Exists(z, Wildcard([E]))
  {
    var name: Name := [E, STAR, [120]];
    var z := TwoOwners(name);
    var f := Facts([E], TwoRecords(name), [], n => []);
    var qname: Name := [E, [122]];
    TwoOwnersHonest(name);
    assert OctetsBefore(STAR, [122]);
    assert Before(name[1..], qname[1..]) && Before(name, qname);
    assert NextCloser(qname, [E]) == qname;
    assert !Owner(z, Wildcard([E])) by { assert |Wildcard([E])| == 2; }
    AncestorFirst([E], qname);
    AncestorFirst([E], Wildcard([E]));
    AncestorFirst(Wildcard([E]), name);
    assert qname[1] == [122] && name[1] == STAR;
    Total(Wildcard([E]), name);
    NameErrorComplete(z, f, qname, 1, None, [E], f.nsec[1], 1, f.nsec[0], 0) by {
      assert ChainRecord(z, f.nsec[1], 1) && ChainRecord(z, f.nsec[0], 0) by { AddressOnly(); }
    }
    assert AtOrBelow(z.nodes[1].name, Wildcard([E]));
  }
}
