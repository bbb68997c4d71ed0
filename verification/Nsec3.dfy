/** Soundness and completeness of NSEC3 conclusions against an honest hash chain. */
module Nsec3Theorems {
  import opened Wrappers
  import opened Names
  import opened Denial
  import opened NsecTheorems

  // ---------- honest hash chains ----------

  /** The names of the zone that have an NSEC3 record, in the order of their hashes. */
  ghost predicate HashChain(z: Zone, chain: seq<Name>, h: Name -> Octets) {
    && |chain| > 0
    && (forall i | 0 <= i < |chain| :: Exists(z, chain[i]))
    && (forall i, j | 0 <= i < j < |chain| :: OctetsBefore(h(chain[i]), h(chain[j])))
  }

  ghost predicate TypesOf(z: Zone, name: Name, types: set<RType>) {
    TypesAt(z, name, types) || (!Owner(z, name) && types == {})
  }

  ghost predicate InsecureOnly(z: Zone, name: Name) {
    forall i | 0 <= i < |z.nodes| && AtOrBelow(z.nodes[i].name, name) ::
      NS in z.nodes[i].types && SOA !in z.nodes[i].types && DS !in z.nodes[i].types
  }

  /** The circular interval a record speaks for. */
  predicate Span(r: Nsec3, target: Octets) {
    if OctetsBefore(r.owner, r.next)
    then OctetsBefore(r.owner, target) && OctetsBefore(target, r.next)
    else OctetsBefore(r.owner, target) || OctetsBefore(target, r.next)
  }

  /** Section 6 of RFC 5155: with the Opt-Out flag clear every existing name hashing into the
      interval is in the chain; with it set the others lead only to insecure delegations. */
  ghost predicate SpanHonest(z: Zone, chain: seq<Name>, h: Name -> Octets, r: Nsec3) {
    forall name: Name | Exists(z, name) && name !in chain && Span(r, h(name)) ::
      r.optOut && InsecureOnly(z, name)
  }

  ghost predicate ChainRecord3(z: Zone, chain: seq<Name>, h: Name -> Octets, r: Nsec3, i: nat) {
    && i < |chain|
    && r.owner == h(chain[i])
    && r.next == h(chain[if i + 1 < |chain| then i + 1 else 0])
    && (exists types :: TypesOf(z, chain[i], types) && Encodes(r.windows, types))
    && SpanHonest(z, chain, h, r)
  }

  ghost predicate Honest3(z: Zone, chain: seq<Name>, h: Name -> Octets, records: seq<Nsec3>) {
    forall r | r in records :: exists i: nat :: ChainRecord3(z, chain, h, r, i)
  }

  /** No two names the proof can compare share a hash: existing names, ancestors of the
      question and wildcards at those ancestors. */
  ghost predicate Compared(z: Zone, qname: Name, name: Name) {
    || Exists(z, name)
    || AtOrBelow(qname, name)
    || (exists c: Name | AtOrBelow(qname, c) :: name == Wildcard(c))
  }

  ghost predicate CollisionFree(z: Zone, qname: Name, h: Name -> Octets) {
    forall a: Name, b: Name | Compared(z, qname, a) && Compared(z, qname, b) && h(a) == h(b) :: a == b
  }

  ghost predicate Setting(z: Zone, chain: seq<Name>, f: Facts, qname: Name) {
    && WellFormed(z) && f.zone == z.apex && AtOrBelow(qname, z.apex)
    && f.nsec == [] && HashChain(z, chain, f.hash) && Honest3(z, chain, f.hash, f.nsec3)
    && CollisionFree(z, qname, f.hash)
  }

  // ---------- matching and covering ----------

  lemma {:induction false} ExactNsec3Is(records: seq<Nsec3>, hash: Octets)
    ensures ExactNsec3(records, hash).Some? ==>
              ExactNsec3(records, hash).value in records && ExactNsec3(records, hash).value.owner == hash
    ensures ExactNsec3(records, hash).None? ==> forall r | r in records :: r.owner != hash
  {
    if records != [] { ExactNsec3Is(records[1..], hash); }
  }

  lemma {:induction false} CoveringNsec3Is(records: seq<Nsec3>, target: Octets)
    ensures CoveringNsec3(records, target).Some? ==>
              CoveringNsec3(records, target).value in records && Covers3(CoveringNsec3(records, target).value, target)
    ensures CoveringNsec3(records, target).None? ==> forall r | r in records :: !Covers3(r, target)
  {
    if records != [] { CoveringNsec3Is(records[1..], target); }
  }

  lemma CoversIsSpan(r: Nsec3, target: Octets)
    ensures Covers3(r, target) <==> Span(r, target) && target != r.owner && target != r.next
  {
    OctetsTotal(r.owner, r.next);
    OctetsTotal(r.owner, target);
  }

  /** A matched name is in the chain, with the types its record lists. */
  lemma MatchedInChain(z: Zone, chain: seq<Name>, f: Facts, qname: Name, name: Name)
    requires Setting(z, chain, f, qname) && Compared(z, qname, name)
    ensures f.Exact(name).Some? ==>
              name in chain && exists types :: TypesOf(z, name, types) && Encodes(f.Exact(name).value, types)
  {
    ExactNsec3Is(f.nsec3, f.hash(name));
    if f.Exact(name).Some? {
      var r := ExactNsec3(f.nsec3, f.hash(name)).value;
      var i: nat :| ChainRecord3(z, chain, f.hash, r, i);
      assert Compared(z, qname, chain[i]);
    }
  }

  /** No chain hash lies strictly inside a record's interval. */
  lemma CoveredNotInChain(z: Zone, chain: seq<Name>, h: Name -> Octets, r: Nsec3, i: nat, name: Name)
    requires HashChain(z, chain, h) && ChainRecord3(z, chain, h, r, i) && Covers3(r, h(name))
    ensures name !in chain
  {
    if name in chain {
      var k :| 0 <= k < |chain| && chain[k] == name;
      CoversIsSpan(r, h(name));
      OctetsTotal(r.owner, r.next);
      OctetsTotal(r.owner, h(name));
      OctetsTotal(h(name), r.next);
      if i + 1 < |chain| && k < i {
        OctetsTotal(h(name), r.owner);
      }
    }
  }

  /** What a covering record proves: with the flag clear the name does not exist. */
  lemma CoveredMeans(z: Zone, chain: seq<Name>, f: Facts, qname: Name, name: Name)
    requires Setting(z, chain, f, qname) && f.Covering(name).Some?
    ensures !f.Covering(name).value ==> !Exists(z, name)
    ensures InsecureOnly(z, name)
  {
    CoveringNsec3Is(f.nsec3, f.hash(name));
    var r := CoveringNsec3(f.nsec3, f.hash(name)).value;
    var i: nat :| ChainRecord3(z, chain, f.hash, r, i);
    CoveredNotInChain(z, chain, f.hash, r, i, name);
    CoversIsSpan(r, f.hash(name));
  }

  lemma {:induction false} Closest3Is(f: Facts, name: Name)
    requires f.nsec == []
    ensures f.Closest(name).Some? ==>
              var c := f.Closest(name).value;
              AtOrBelow(name, c) && AtOrBelow(c, f.zone) && f.Exact(c).Some?
    decreases |name|
  {
    if AtOrBelow(name, f.zone) && f.Exact(name).None? && name != f.zone { Closest3Is(f, Parent(name)); }
  }

  // ---------- soundness ----------

  /** An authoritative record matching an ancestor leaves no cut at or above it. */
  lemma NoCutAtOrAbove(z: Zone, chain: seq<Name>, f: Facts, qname: Name, c: Name)
    requires Setting(z, chain, f, qname) && AtOrBelow(qname, c)
    requires f.Exact(c).Some? && Authoritative(f.Exact(c).value)
    ensures Exists(z, c)
    ensures forall i | 0 <= i < |z.nodes| && AtOrBelow(c, z.nodes[i].name) :: !Cut(z.nodes[i].types)
  {
    MatchedInChain(z, chain, f, qname, c);
    var types :| TypesOf(z, c, types) && Encodes(f.Exact(c).value, types);
    assert !Cut(types);
    var w :| 0 <= w < |z.nodes| && AtOrBelow(z.nodes[w].name, c);
    forall i | 0 <= i < |z.nodes| && AtOrBelow(c, z.nodes[i].name)
      ensures !Cut(z.nodes[i].types)
    {
      if z.nodes[i].name == c {
        OwnerTypes(z, i, types);
      } else {
        assert StrictlyBelow(z.nodes[w].name, z.nodes[i].name);
      }
    }
  }

  lemma OwnerTypes(z: Zone, i: nat, types: set<RType>)
    requires WellFormed(z) && i < |z.nodes| && TypesOf(z, z.nodes[i].name, types)
    ensures types == z.nodes[i].types
  {
    var k :| 0 <= k < |z.nodes| && z.nodes[k].name == z.nodes[i].name && z.nodes[k].types == types;
    Total(z.nodes[i].name, z.nodes[i].name);
  }

  /** With the Opt-Out flag clear the encloser is the true one and the question is under no
      cut; with it set whatever lies at or below the next closer name is insecure delegation. */
  lemma Encloser3Sound(z: Zone, chain: seq<Name>, f: Facts, qname: Name, c: Name, optOut: bool)
    requires Setting(z, chain, f, qname) && f.Closest(qname) == Some(c) && c != qname
    requires f.Exact(c).Some? && Authoritative(f.Exact(c).value)
    requires f.Covering(NextCloser(qname, c)) == Some(optOut)
    ensures StrictlyBelow(qname, c) && Exists(z, c)
    ensures InsecureOnly(z, NextCloser(qname, c))
    ensures !optOut ==> ClosestEncloser(z, qname, c) && !Exists(z, qname) && !UnderCut(z, qname)
  {
    Closest3Is(f, qname);
    NoCutAtOrAbove(z, chain, f, qname, c);
    var nc := NextCloser(qname, c);
    CoveredMeans(z, chain, f, qname, nc);
    if !optOut {
      NothingBelow(z, qname, nc);
      assert !UnderCut(z, nc) by {
        forall k | 0 <= k < |z.nodes| && StrictlyBelow(nc, z.nodes[k].name)
          ensures AtOrBelow(c, z.nodes[k].name)
        {
          assert c == nc[..|c|] && z.nodes[k].name == nc[..|z.nodes[k].name|];
        }
      }
    }
  }

  lemma Through3(f: Facts, qname: Name, qtype: RType, kind: Kind, wildcard: Option<Name>)
    requires f.nsec == [] && kind in {NxDomain, WildcardNoData}
    requires Decide(f, qname, qtype, kind, wildcard).valid
    ensures var d := Decide(f, qname, qtype, kind, wildcard);
            && d.closest.Some? && d.closest == f.Closest(qname) && d.closest.value != qname
            && f.Covering(NextCloser(qname, d.closest.value)) == Some(d.optOut)
            && (f.Exact(d.closest.value).Some? ==> Authoritative(f.Exact(d.closest.value).value))
            && (kind == NxDomain ==> f.Covering(Wildcard(d.closest.value)).Some?)
            && (kind == WildcardNoData ==>
                  var star := f.Exact(Wildcard(d.closest.value)); star.Some? && NoData(star.value, qtype))
  {
  }

  lemma Encloser3OfProof(z: Zone, chain: seq<Name>, f: Facts, qname: Name, qtype: RType, kind: Kind,
                         wildcard: Option<Name>)
    requires Setting(z, chain, f, qname) && kind in {NxDomain, WildcardNoData}
    requires Decide(f, qname, qtype, kind, wildcard).valid
    ensures var d := Decide(f, qname, qtype, kind, wildcard);
            && d.closest.Some? && StrictlyBelow(qname, d.closest.value) && Exists(z, d.closest.value)
            && InsecureOnly(z, NextCloser(qname, d.closest.value))
            && (!d.optOut ==>
                  ClosestEncloser(z, qname, d.closest.value) && !Exists(z, qname) && !UnderCut(z, qname))
  {
    Through3(f, qname, qtype, kind, wildcard);
    Closest3Is(f, qname);
    var d := Decide(f, qname, qtype, kind, wildcard);
    Encloser3Sound(z, chain, f, qname, d.closest.value, d.optOut);
  }

  /** Name error: section 8.4 of RFC 5155. */
  lemma NameError3Sound(z: Zone, chain: seq<Name>, f: Facts, qname: Name, qtype: RType, wildcard: Option<Name>)
    requires Setting(z, chain, f, qname) && Decide(f, qname, qtype, NxDomain, wildcard).valid
    ensures var d := Decide(f, qname, qtype, NxDomain, wildcard);
            && d.closest.Some?
            && InsecureOnly(z, NextCloser(qname, d.closest.value))
            && InsecureOnly(z, Wildcard(d.closest.value))
            && (f.Covering(Wildcard(d.closest.value)) == Some(false) ==> !Exists(z, Wildcard(d.closest.value)))
            && (!d.optOut ==>
                  ClosestEncloser(z, qname, d.closest.value) && !Exists(z, qname) && !UnderCut(z, qname))
  {
    Encloser3OfProof(z, chain, f, qname, qtype, NxDomain, wildcard);
    Through3(f, qname, qtype, NxDomain, wildcard);
    CoveredMeans(z, chain, f, qname, Wildcard(Decide(f, qname, qtype, NxDomain, wildcard).closest.value));
  }

  /** Positive wildcard answer: section 8.8 of RFC 5155. */
  lemma Wildcard3Sound(z: Zone, chain: seq<Name>, f: Facts, qname: Name, qtype: RType, wildcard: Option<Name>)
    requires Setting(z, chain, f, qname) && Decide(f, qname, qtype, WildcardKind, wildcard).valid
    ensures wildcard.Some? && wildcard.value != []
    ensures var nc := NextCloser(qname, Parent(wildcard.value));
            && InsecureOnly(z, nc)
            && (!Decide(f, qname, qtype, WildcardKind, wildcard).optOut ==> !Exists(z, nc) && !Exists(z, qname))
  {
    var nc := NextCloser(qname, Parent(wildcard.value));
    CoveredMeans(z, chain, f, qname, nc);
    if !Exists(z, nc) { NothingBelow(z, qname, nc); }
  }

  ghost predicate NoDataOf(z: Zone, name: Name, qtype: RType) {
    exists types ::
      && TypesOf(z, name, types)
      && (qtype == ANY ==> types == {})
      && (qtype != ANY ==> NoRecords(types, qtype))
  }

  lemma NoDataOfSound(z: Zone, chain: seq<Name>, f: Facts, qname: Name, name: Name, qtype: RType)
    requires Setting(z, chain, f, qname) && Compared(z, qname, name)
    requires f.Exact(name).Some? && NoData(f.Exact(name).value, qtype)
    ensures Exists(z, name) && NoDataOf(z, name, qtype)
  {
    MatchedInChain(z, chain, f, qname, name);
    var types :| TypesOf(z, name, types) && Encodes(f.Exact(name).value, types);
    assert qtype == ANY ==> types == {};
    assert qtype != ANY ==> NoRecords(types, qtype);
  }

  /** NODATA by a matching record, or for DS by Opt-Out; sections 8.5 and 8.6 of RFC 5155. */
  lemma NoData3Sound(z: Zone, chain: seq<Name>, f: Facts, qname: Name, qtype: RType, wildcard: Option<Name>)
    requires Setting(z, chain, f, qname) && Decide(f, qname, qtype, NoDataKind, wildcard).valid
    ensures || (Exists(z, qname) && NoDataOf(z, qname, qtype))
            || (qtype == DS && Decide(f, qname, qtype, NoDataKind, wildcard).optOut && InsecureOnly(z, qname))
  {
    if f.Exact(qname).Some? {
      NoDataOfSound(z, chain, f, qname, qname, qtype);
    } else {
      OptOutSound(z, chain, f, qname, qtype, NoDataKind, wildcard);
    }
  }

  lemma OptOutSound(z: Zone, chain: seq<Name>, f: Facts, qname: Name, qtype: RType, kind: Kind, wildcard: Option<Name>)
    requires Setting(z, chain, f, qname) && Decide(f, qname, qtype, kind, wildcard).valid && f.Exact(qname).None?
    requires kind == UnsignedDelegation || kind == NoDataKind
    ensures kind == NoDataKind ==> qtype == DS
    ensures Decide(f, qname, qtype, kind, wildcard).optOut && InsecureOnly(z, qname)
  {
    var c := Decide(f, qname, qtype, kind, wildcard).closest.value;
    assert f.Closest(qname) == Some(c) && c != qname;
    Closest3Is(f, qname);
    Encloser3Sound(z, chain, f, qname, c, true);
  }

  /** An unsigned-delegation proof: the name is a delegation without DS, or by Opt-Out whatever
      is at or below it is; section 8.9 of RFC 5155. */
  lemma UnsignedDelegation3Sound(z: Zone, chain: seq<Name>, f: Facts, qname: Name, qtype: RType, wildcard: Option<Name>)
    requires Setting(z, chain, f, qname) && Decide(f, qname, qtype, UnsignedDelegation, wildcard).valid
    ensures || UnsignedChild(z, qname)
            || (Decide(f, qname, qtype, UnsignedDelegation, wildcard).optOut && InsecureOnly(z, qname))
  {
    if f.Exact(qname).Some? {
      MatchedInChain(z, chain, f, qname, qname);
      var types :| TypesOf(z, qname, types) && Encodes(f.Exact(qname).value, types);
      assert NS in types;
    } else {
      OptOutSound(z, chain, f, qname, qtype, UnsignedDelegation, wildcard);
    }
  }

  lemma WildcardNoData3Sound(z: Zone, chain: seq<Name>, f: Facts, qname: Name, qtype: RType, wildcard: Option<Name>)
    requires Setting(z, chain, f, qname) && Decide(f, qname, qtype, WildcardNoData, wildcard).valid
    ensures var d := Decide(f, qname, qtype, WildcardNoData, wildcard);
            && d.closest.Some? && NoDataOf(z, Wildcard(d.closest.value), qtype)
            && InsecureOnly(z, NextCloser(qname, d.closest.value))
            && (!d.optOut ==>
                  ClosestEncloser(z, qname, d.closest.value) && !Exists(z, qname) && !UnderCut(z, qname))
  {
    Encloser3OfProof(z, chain, f, qname, qtype, WildcardNoData, wildcard);
    Through3(f, qname, qtype, WildcardNoData, wildcard);
    NoDataOfSound(z, chain, f, qname, Wildcard(f.Closest(qname).value), qtype);
  }

  // ---------- completeness ----------

  /** The longest ancestor of the question that has a record. */
  ghost predicate ProvableEncloser(z: Zone, chain: seq<Name>, qname: Name, c: Name) {
    && StrictlyBelow(qname, c) && AtOrBelow(c, z.apex) && c in chain
    && forall name: Name | AtOrBelow(qname, name) && StrictlyBelow(name, c) :: name !in chain
  }

  lemma NotInChainUnmatched(z: Zone, chain: seq<Name>, f: Facts, qname: Name, name: Name)
    requires Setting(z, chain, f, qname) && Compared(z, qname, name) && name !in chain
    ensures f.Exact(name).None?
  {
    MatchedInChain(z, chain, f, qname, name);
  }

  lemma {:induction false} Closest3Reaches(z: Zone, chain: seq<Name>, f: Facts, qname: Name, name: Name, c: Name)
    requires Setting(z, chain, f, qname) && ProvableEncloser(z, chain, qname, c)
    requires AtOrBelow(qname, name) && AtOrBelow(name, c) && f.Exact(c).Some?
    ensures f.Closest(name) == Some(c)
    decreases |name|
  {
    if name != c {
      assert StrictlyBelow(name, c);
      NotInChainUnmatched(z, chain, f, qname, name);
      Closest3Reaches(z, chain, f, qname, Parent(name), c);
    }
  }

  /** Completeness: the records matching the closest provable encloser and spanning the hashes
      of the next closer name and of the wildcard are always accepted as a name error. */
  lemma NameError3Complete(z: Zone, chain: seq<Name>, f: Facts, qname: Name, qtype: RType, wildcard: Option<Name>,
                           c: Name, rc: Nsec3, rn: Nsec3, rs: Nsec3)
    requires Setting(z, chain, f, qname) && ProvableEncloser(z, chain, qname, c) && !UnderCut(z, qname)
    requires Wildcard(c) !in chain
    requires rc in f.nsec3 && rc.owner == f.hash(c)
    requires rn in f.nsec3 && Span(rn, f.hash(NextCloser(qname, c)))
    requires rs in f.nsec3 && Span(rs, f.hash(Wildcard(c)))
    ensures var d := Decide(f, qname, qtype, NxDomain, wildcard); d.valid && d.closest == Some(c)
  {
    Encloser3Found(z, chain, f, qname, c, rc);
    SpanIsCovered(z, chain, f, qname, rn, NextCloser(qname, c));
    SpanIsCovered(z, chain, f, qname, rs, Wildcard(c));
    Encloser3Authoritative(z, chain, f, qname, c);
    NameError3From(f, qname, qtype, wildcard, c);
  }

  lemma Encloser3Found(z: Zone, chain: seq<Name>, f: Facts, qname: Name, c: Name, rc: Nsec3)
    requires Setting(z, chain, f, qname) && ProvableEncloser(z, chain, qname, c)
    requires rc in f.nsec3 && rc.owner == f.hash(c)
    ensures f.Closest(qname) == Some(c) && f.Exact(qname).None?
    ensures var nc := NextCloser(qname, c); AtOrBelow(qname, nc) && StrictlyBelow(nc, c)
  {
    ExactNsec3Is(f.nsec3, f.hash(c));
    Closest3Reaches(z, chain, f, qname, qname, c);
    NotInChainUnmatched(z, chain, f, qname, qname);
  }

  lemma NameError3From(f: Facts, qname: Name, qtype: RType, wildcard: Option<Name>, c: Name)
    requires f.nsec == [] && f.Exact(qname).None? && f.Closest(qname) == Some(c) && c != qname
    requires f.Exact(c).Some? ==> Authoritative(f.Exact(c).value)
    requires f.Covering(NextCloser(qname, c)).Some? && f.Covering(Wildcard(c)).Some?
    ensures var d := Decide(f, qname, qtype, NxDomain, wildcard); d.valid && d.closest == Some(c)
  {
  }

  lemma SpanIsCovered(z: Zone, chain: seq<Name>, f: Facts, qname: Name, r: Nsec3, name: Name)
    requires Setting(z, chain, f, qname) && Compared(z, qname, name) && name !in chain
    requires r in f.nsec3 && Span(r, f.hash(name))
    ensures f.Covering(name).Some?
  {
    var i: nat :| ChainRecord3(z, chain, f.hash, r, i);
    var n := if i + 1 < |chain| then i + 1 else 0;
    assert Compared(z, qname, chain[i]) && Compared(z, qname, chain[n]);
    CoversIsSpan(r, f.hash(name));
    CoveringNsec3Is(f.nsec3, f.hash(name));
  }

  lemma Encloser3Authoritative(z: Zone, chain: seq<Name>, f: Facts, qname: Name, c: Name)
    requires Setting(z, chain, f, qname) && StrictlyBelow(qname, c) && !UnderCut(z, qname)
    ensures f.Exact(c).Some? ==> Authoritative(f.Exact(c).value)
  {
    MatchedInChain(z, chain, f, qname, c);
  }

  /** The chain can always serve such a proof: every hash that is no chain name's falls into
      the interval of one of its records. */
  lemma SpanServable(z: Zone, chain: seq<Name>, h: Name -> Octets, target: Octets) returns (i: nat)
    requires HashChain(z, chain, h) && forall k | 0 <= k < |chain| :: h(chain[k]) != target
    ensures i < |chain|
    ensures forall r: Nsec3 | r.owner == h(chain[i]) && r.next == h(chain[if i + 1 < |chain| then i + 1 else 0]) ::
              Span(r, target)
  {
    i := |chain| - 1;
    OctetsTotal(h(chain[0]), h(chain[i]));
    OctetsTotal(h(chain[i]), target);
    OctetsTotal(h(chain[0]), target);
    if OctetsBefore(h(chain[0]), target) {
      while !OctetsBefore(h(chain[i]), target)
        invariant i < |chain|
        invariant i + 1 < |chain| ==> OctetsBefore(target, h(chain[i + 1]))
        decreases i
      {
        OctetsTotal(h(chain[i]), target);
        i := i - 1;
      }
    }
  }
}
