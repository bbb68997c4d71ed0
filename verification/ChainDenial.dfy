/** The walk with the denial validator for its oracle: what an insecure verdict says about the
    content of the zones it climbed through. */
module ChainDenial {
  import opened Wrappers
  import opened Names
  import opened Denial
  import opened NsecTheorems
  import opened Nsec3Theorems
  import opened DenialValidator
  import C = Chain

  type Pair = (C.RRset, Option<C.RRset>)

  /** How a record set reads, and what checking its signatures under a key set reports. */
  datatype Reader = Reader(
    records: C.RRset -> seq<RawRecord>,
    check: (C.RRset, Option<C.RRset>, C.RRset) -> Check,
    p: Primitives)

  function ReadOne(d: Reader, pair: Pair, keys: C.RRset): Evidence {
    var rdtype := if pair.0.rdtype == C.NSEC then NSEC else NSEC3;
    Evidence(pair.0.name, rdtype, d.records(pair.0), d.check(pair.0, pair.1, keys))
  }

  function Read(d: Reader, pairs: seq<Pair>, keys: C.RRset): seq<Evidence> {
    seq(|pairs|, i requires 0 <= i < |pairs| => ReadOne(d, pairs[i], keys))
  }

  const EVIDENCE_LIMIT := 64

  /** What the walk asks of the validator: an unsigned-delegation proof for the zone's DS, under
      the parent's keys. */
  predicate Denies(d: Reader, zone: Name, pairs: seq<Pair>, keys: C.RRset) {
    && StrictlyBelow(zone, keys.name) && |pairs| <= EVIDENCE_LIMIT
    && (forall i | 0 <= i < |pairs| :: d.check(pairs[i].0, pairs[i].1, keys).Checked?)
    && var g := Gather(keys.name, Read(d, pairs, keys), d.p.decode);
       Conclude(keys.name, zone, DS, UnsignedDelegation, g, d.p.hash, None).valid
  }

  ghost predicate Judges(w: C.World, d: Reader) {
    forall zone, pairs, keys :: w.denies(zone, pairs, keys) == Denies(d, zone, pairs, keys)
  }

  /** What the zones publish: their content and the hash chain for each set of parameters. */
  datatype Published = Published(zones: Name -> Zone, chains: Name -> Parameters -> seq<Name>)

  /** The evidence a zone's DS reply holds for a parent, as that parent's keys verify it. */
  function EvidenceFor(w: C.World, d: Reader, parent: Name, zone: Name, keys: C.RRset): seq<Evidence> {
    var authority := w.dsReply(zone).authority;
    Read(d, C.DenialEvidence(authority, C.ProofSets(authority), parent), keys)
  }

  /** What the parent's keys verify there is the parent zone's own. */
  ghost predicate SpeaksTruly(w: C.World, d: Reader, t: Published, parent: Name, zone: Name, keys: C.RRset) {
    var z := t.zones(parent);
    var evidence := EvidenceFor(w, d, parent, zone, keys);
    && WellFormed(z) && z.apex == parent
    && Authentic(z, evidence) && Authentic3(z, t.chains(parent), evidence, d.p)
    && Hashed(z, t.chains(parent), zone, Gather(parent, evidence, d.p.decode).parameters, d.p)
  }

  /** So it is for every trusted parent that the walk from this zone can meet. */
  ghost predicate Truthful(w: C.World, d: Reader, t: Published, zone: Name) {
    forall parent, cut | C.Trusted(w, parent) && C.DeniedDs(w, parent, cut) && AtOrBelow(zone, cut) ::
      SpeaksTruly(w, d, t, parent, cut, C.Keys(w, parent).value)
  }

  // ---------- what an unsigned-delegation proof excludes ----------

  predicate SecureDelegation(types: set<RType>) { NS in types && SOA !in types && DS in types }

  /** The zone signs a delegation that the name lies at or below. */
  ghost predicate SecurelyDelegated(z: Zone, name: Name) {
    exists i | 0 <= i < |z.nodes| :: AtOrBelow(name, z.nodes[i].name) && SecureDelegation(z.nodes[i].types)
  }

  lemma ProofExcludes(z: Zone, chains: Parameters -> seq<Name>, qname: Name, evidence: seq<Evidence>, p: Primitives)
    requires WellFormed(z) && AtOrBelow(qname, z.apex)
    requires Authentic(z, evidence) && Authentic3(z, chains, evidence, p)
    requires Hashed(z, chains, qname, Gather(z.apex, evidence, p.decode).parameters, p)
    requires Conclude(z.apex, qname, DS, UnsignedDelegation, Gather(z.apex, evidence, p.decode), p.hash, None).valid
    ensures UnsignedChild(z, qname) || InsecureOnly(z, qname)
    ensures !SecurelyDelegated(z, qname)
  {
    var g := Gather(z.apex, evidence, p.decode);
    var f := FactsOf(z.apex, g, p.hash);
    GatheredHonest(z, evidence, p.decode);
    if g.nsec != [] {
      UnsignedDelegationSound(z, f, qname, DS, None);
      UnsignedExcludes(z, qname);
    } else {
      GatheredSetting(z, chains, qname, evidence, p);
      var chain := chains(g.parameters.value);
      UnsignedDelegation3Sound(z, chain, f, qname, DS, None);
      if UnsignedChild(z, qname) {
        UnsignedExcludes(z, qname);
      } else {
        OptOutExcludes(z, chain, f, qname);
      }
    }
  }

  /** An unsigned child lies at or below no signed delegation of its parent. */
  lemma UnsignedExcludes(z: Zone, qname: Name)
    requires WellFormed(z) && UnsignedChild(z, qname)
    ensures !SecurelyDelegated(z, qname)
  {
    var types :| TypesAt(z, qname, types) && NS in types && DS !in types;
    var k :| 0 <= k < |z.nodes| && z.nodes[k].name == qname && z.nodes[k].types == types;
    forall i | 0 <= i < |z.nodes| && AtOrBelow(qname, z.nodes[i].name) ensures !SecureDelegation(z.nodes[i].types) {
      if z.nodes[i].name == qname {
        OwnerTypes(z, i, types);
      } else {
        assert StrictlyBelow(z.nodes[k].name, z.nodes[i].name);
      }
    }
  }

  /** Nor does a name that an Opt-Out interval hides: above its encloser there is no cut, and
      below it no delegation is signed. */
  lemma OptOutExcludes(z: Zone, chain: seq<Name>, f: Facts, qname: Name)
    requires Setting(z, chain, f, qname) && Decide(f, qname, DS, UnsignedDelegation, None).valid && f.Exact(qname).None?
    ensures !SecurelyDelegated(z, qname)
  {
    var c := f.Closest(qname).value;
    Closest3Is(f, qname);
    Encloser3Sound(z, chain, f, qname, c, true);
    NoCutAtOrAbove(z, chain, f, qname, c);
    forall i | 0 <= i < |z.nodes| && AtOrBelow(qname, z.nodes[i].name) ensures !SecureDelegation(z.nodes[i].types) {
      var m := z.nodes[i].name;
      assert m == qname[..|m|] && c == qname[..|c|];
      assert AtOrBelow(c, m) || AtOrBelow(m, NextCloser(qname, c));
    }
  }

  // ---------- what an insecure verdict excludes ----------

  /** A denied DS: the parent's zone delegates the child insecurely, and signs no delegation on
      the way to it. */
  lemma DeniedMeans(w: C.World, d: Reader, t: Published, parent: Name, cut: Name)
    requires Judges(w, d) && C.DeniedDs(w, parent, cut)
    requires SpeaksTruly(w, d, t, parent, cut, C.Keys(w, parent).value)
    ensures UnsignedChild(t.zones(parent), cut) || InsecureOnly(t.zones(parent), cut)
    ensures !SecurelyDelegated(t.zones(parent), cut)
  {
    var keys := C.Keys(w, parent).value;
    KeysNamed(w.keyReply(parent).answer, parent);
    var authority := w.dsReply(cut).authority;
    assert Denies(d, cut, C.DenialEvidence(authority, C.ProofSets(authority), parent), keys);
    ProofExcludes(t.zones(parent), t.chains(parent), cut, EvidenceFor(w, d, parent, cut, keys), d.p);
  }

  lemma {:induction false} KeysNamed(sets: seq<C.RRset>, name: Name)
    ensures forall s | s in C.Matching(sets, name, C.DNSKEY, C.NO_TYPE) :: s.name == name
  {
    if sets != [] { KeysNamed(sets[1..], name); }
  }

  /** What an insecure verdict says: somewhere at or above the zone a trusted parent delegates
      without a usable DS. */
  ghost predicate InsecurelyDelegated(w: C.World, t: Published, parent: Name, cut: Name) {
    && C.Trusted(w, parent) && StrictlyBelow(cut, parent)
    && ( || C.UnsupportedDs(w, parent, cut)
         || (WellFormed(t.zones(parent)) && !SecurelyDelegated(t.zones(parent), cut)
             && (UnsignedChild(t.zones(parent), cut) || InsecureOnly(t.zones(parent), cut))))
  }

  lemma InsecureMeans(w: C.World, d: Reader, t: Published, zone: Name, depth: nat, limited: bool)
    requires C.MatchesGiven(w) && Judges(w, d) && Truthful(w, d, t, zone)
    requires C.Walk(w, zone, depth, limited).Answer? && C.Walk(w, zone, depth, limited).auth.state == C.Insecure
    ensures exists parent, cut :: InsecurelyDelegated(w, t, parent, cut) && AtOrBelow(zone, cut)
  {
    C.InsecureSound(w, zone, depth, limited);
    var parent, cut :| C.InsecureCut(w, parent, cut) && AtOrBelow(zone, cut);
    if C.DeniedDs(w, parent, cut) { DeniedMeans(w, d, t, parent, cut); }
    assert InsecurelyDelegated(w, t, parent, cut);
  }

  /** No downgrade: where every trusted zone above signs a delegation on the way to the zone, and
      no verified DS is without a supported algorithm, no reply makes the zone insecure. */
  lemma NoDowngrade(w: C.World, d: Reader, t: Published, zone: Name, depth: nat, limited: bool)
    requires C.MatchesGiven(w) && Judges(w, d) && Truthful(w, d, t, zone)
    requires forall parent | C.Trusted(w, parent) && StrictlyBelow(zone, parent) ::
               SecurelyDelegated(t.zones(parent), zone)
    requires forall parent, cut | C.Trusted(w, parent) && AtOrBelow(zone, cut) :: !C.UnsupportedDs(w, parent, cut)
    ensures C.Walk(w, zone, depth, limited).Answer? ==> C.Walk(w, zone, depth, limited).auth.state != C.Insecure
  {
    if C.Walk(w, zone, depth, limited).Answer? && C.Walk(w, zone, depth, limited).auth.state == C.Insecure {
      InsecureMeans(w, d, t, zone, depth, limited);
      var parent, cut :| InsecurelyDelegated(w, t, parent, cut) && AtOrBelow(zone, cut);
      NotSecurelyDelegated(t.zones(parent), zone, cut);
    }
  }

  /** Below an insecure delegation nothing is securely delegated. */
  lemma NotSecurelyDelegated(z: Zone, zone: Name, cut: Name)
    requires WellFormed(z) && AtOrBelow(zone, cut) && !SecurelyDelegated(z, cut)
    requires UnsignedChild(z, cut) || InsecureOnly(z, cut)
    ensures !SecurelyDelegated(z, zone)
  {
    forall i | 0 <= i < |z.nodes| && AtOrBelow(zone, z.nodes[i].name) ensures !SecureDelegation(z.nodes[i].types) {
      var m := z.nodes[i].name;
      assert m == zone[..|m|] && cut == zone[..|cut|];
      assert AtOrBelow(cut, m) || StrictlyBelow(m, cut);
    }
  }
}
