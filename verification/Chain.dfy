/** The trust-chain walk: from a zone up its observed signers to a configured anchor. */
module Chain {
  import opened Wrappers
  import opened Names

  // ---------- messages and the fixed oracles they are judged by ----------

  const DS := 43
  const RRSIG := 46
  const NSEC := 47
  const DNSKEY := 48
  const NSEC3 := 50
  const SOA := 6
  const NO_TYPE := 0

  datatype Item = Data(id: nat) | Signature(signer: Name, id: nat)

  datatype RRset = RRset(name: Name, rdtype: nat, covers: nat, items: seq<Item>)

  datatype Message = Message(noError: bool, answer: seq<RRset>, authority: seq<RRset>)

  /** For each verified signature whether it was a wildcard expansion, and what else was seen. */
  datatype SigCheck = SigCheck(wildcards: seq<bool>, failures: bool, unsupported: bool, limitations: bool) {
    predicate Verified() { false in wildcards }
    predicate Uncertain() { limitations || wildcards != [] || (unsupported && !failures) }
    predicate Blurred() { limitations || (wildcards != [] && false !in wildcards) }
  }

  datatype DsCheck = DsCheck(matched: seq<Item>, supported: nat)

  /** Everything the walk reads: the anchors, the upstream replies and the checking primitives. */
  datatype World = World(
    anchors: map<Name, RRset>,
    keyReply: Name -> Message,
    dsReply: Name -> Message,
    bounded: RRset -> bool,
    checkSignatures: (RRset, Option<RRset>, RRset) -> SigCheck,
    checkDs: (RRset, RRset) -> DsCheck,
    denies: (Name, seq<(RRset, Option<RRset>)>, RRset) -> bool)

  datatype State = Secure | Insecure | Bogus | Indeterminate

  datatype Auth = Auth(state: State, keys: Option<RRset>, checks: set<SigCheck>)

  datatype Refusal = DepthOrCycle | EvidenceLimit
  datatype Outcome = Refused(why: Refusal) | Answer(auth: Auth)

  const DEPTH_LIMIT := 32
  const PROOF_LIMIT := 64

  // ---------- reading messages ----------

  function Matching(sets: seq<RRset>, name: Name, rdtype: nat, covers: nat): seq<RRset> {
    if sets == [] then []
    else (if sets[0].name == name && sets[0].rdtype == rdtype && sets[0].covers == covers then [sets[0]] else [])
         + Matching(sets[1..], name, rdtype, covers)
  }

  /** The one record set of that name and type; several are unusable, not a choice. */
  function Only(sets: seq<RRset>, name: Name, rdtype: nat, covers: nat): Option<RRset> {
    var found := Matching(sets, name, rdtype, covers);
    if |found| == 1 then Some(found[0]) else None
  }

  function Keys(w: World, zone: Name): Option<RRset> { Only(w.keyReply(zone).answer, zone, DNSKEY, NO_TYPE) }
  function KeySigs(w: World, zone: Name): Option<RRset> { Only(w.keyReply(zone).answer, zone, RRSIG, DNSKEY) }
  function Ds(w: World, zone: Name): Option<RRset> { Only(w.dsReply(zone).answer, zone, DS, NO_TYPE) }
  function DsSigs(w: World, zone: Name): Option<RRset> { Only(w.dsReply(zone).answer, zone, RRSIG, DS) }

  predicate Present(s: Option<RRset>) { s.Some? && s.value.items != [] }

  /** The most specific anchor at or above a name. */
  function ClosestAnchor(anchors: map<Name, RRset>, name: Name): (r: Option<Name>)
    ensures r.Some? ==> r.value in anchors && AtOrBelow(name, r.value)
    ensures forall a | a in anchors && AtOrBelow(name, a) :: r.Some? && |a| <= |r.value|
    decreases |name|
  {
    if name in anchors then Some(name)
    else if name == [] then None
    else
      assert forall a | a in anchors && AtOrBelow(name, a) :: AtOrBelow(Parent(name), a) by {
        forall a | a in anchors && AtOrBelow(name, a) ensures AtOrBelow(Parent(name), a) {
          assert |a| < |name| || a == name;
        }
      }
      ClosestAnchor(anchors, Parent(name))
  }

  /** A signer the walk may climb to: strictly above the zone, not above its anchor. */
  predicate Climbable(w: World, zone: Name, signer: Name) {
    && StrictlyBelow(zone, signer)
    && (ClosestAnchor(w.anchors, zone).Some? ==> AtOrBelow(signer, ClosestAnchor(w.anchors, zone).value))
  }

  function Signers(w: World, zone: Name, items: seq<Item>): (r: seq<Name>)
    ensures forall p | p in r :: Climbable(w, zone, p)
    ensures forall i | i in items && i.Signature? && Climbable(w, zone, i.signer) :: i.signer in r
    ensures forall p | p in r :: exists i | i in items :: i.Signature? && i.signer == p
  {
    if items == [] then []
    else
      var last := items[|items| - 1];
      var before := Signers(w, zone, items[..|items| - 1]);
      assert forall i | i in items :: i in items[..|items| - 1] || i == last;
      if last.Signature? && Climbable(w, zone, last.signer) && last.signer !in before
      then before + [last.signer]
      else before
  }

  predicate DenialSignature(s: RRset) { s.rdtype == RRSIG && (s.covers == NSEC || s.covers == NSEC3) }

  function DenialItems(authority: seq<RRset>): seq<Item> {
    if authority == [] then []
    else (if DenialSignature(authority[0]) then authority[0].items else []) + DenialItems(authority[1..])
  }

  function ProofSets(authority: seq<RRset>): seq<RRset> {
    if authority == [] then []
    else
      (if authority[0].rdtype == NSEC || authority[0].rdtype == NSEC3 then [authority[0]] else [])
      + ProofSets(authority[1..])
  }

  /** The denial evidence a parent zone may be asked about, each set with its one signature set. */
  function DenialEvidence(authority: seq<RRset>, sets: seq<RRset>, parent: Name): seq<(RRset, Option<RRset>)> {
    if sets == [] then []
    else
      (if AtOrBelow(sets[0].name, parent)
       then [(sets[0], Only(authority, sets[0].name, RRSIG, sets[0].rdtype))]
       else [])
      + DenialEvidence(authority, sets[1..], parent)
  }

  // ---------- the walk as a plain recursion ----------

  function Verdict(state: State, checks: set<SigCheck>): Outcome { Answer(Auth(state, None, checks)) }

  /** What the selected keys' signature over the whole key set decides. */
  function BySelfSignature(keys: RRset, check: SigCheck, checks: set<SigCheck>): Outcome {
    if check.Verified() then Answer(Auth(Secure, Some(keys), checks + {check}))
    else Verdict(if check.Uncertain() then Indeterminate else Bogus, checks + {check})
  }

  function Select(keys: RRset, items: seq<Item>): RRset { keys.(items := items) }

  function InAnchor(items: seq<Item>, anchor: RRset): seq<Item> {
    if items == [] then []
    else (if items[0] in anchor.items then [items[0]] else []) + InAnchor(items[1..], anchor)
  }

  function AtAnchor(w: World, zone: Name): Outcome
    requires zone in w.anchors
  {
    if !Present(Keys(w, zone)) then
      Verdict(Indeterminate, {})
    else
      var keys, anchor := Keys(w, zone).value, w.anchors[zone];
      if anchor.rdtype == DS && w.checkDs(anchor, keys).supported == 0 then
        Verdict(Indeterminate, {})
      else
        var candidates := if anchor.rdtype == DS then w.checkDs(anchor, keys).matched else InAnchor(keys.items, anchor);
        if candidates == [] then Verdict(Bogus, {})
        else BySelfSignature(keys, w.checkSignatures(keys, KeySigs(w, zone), Select(keys, candidates)), {})
  }

  /** The key set a delegation is matched against; a proven-empty one when the child has none. */
  function ChildKeys(w: World, zone: Name): Option<RRset> {
    if Present(Keys(w, zone)) then
      Keys(w, zone)
    else
      var soa := Matching(w.keyReply(zone).authority, zone, SOA, NO_TYPE);
      if w.keyReply(zone).answer != [] || |soa| != 1 || |soa[0].items| != 1 then None
      else Some(RRset(zone, DNSKEY, NO_TYPE, []))
  }

  /** A delegation whose DS a secure parent has verified: nothing here depends on which parent. */
  function ByDelegation(w: World, zone: Name, ds: RRset, keys: RRset, checks: set<SigCheck>): Outcome {
    var matched := w.checkDs(ds, keys);
    if matched.supported == 0 then Verdict(Insecure, checks)
    else if matched.matched == [] then Verdict(Bogus, checks)
    else BySelfSignature(keys, w.checkSignatures(keys, KeySigs(w, zone), Select(keys, matched.matched)), checks)
  }

  function Unparented(states: set<State>, checks: set<SigCheck>): Outcome {
    if Indeterminate in states || (exists c | c in checks :: c.Blurred()) then Verdict(Indeterminate, checks)
    else if Insecure in states then Verdict(Insecure, checks)
    else Verdict(Bogus, checks)
  }

  predicate Trusts(auth: Auth) { auth.state == Secure && auth.keys.Some? }

  /** Parents of a delegation without DS, in order: the first secure one whose denial holds decides. */
  function ByAbsence(w: World, zone: Name, parents: seq<Name>, depth: nat, limited: bool,
                     checks: set<SigCheck>): Outcome
    requires forall p | p in parents :: Climbable(w, zone, p)
    decreases |zone|, 0, |parents|
  {
    if parents == [] then
      Verdict(Indeterminate, checks)
    else
      assert Climbable(w, zone, parents[0]) && |parents[0]| < |zone|;
      var up := Walk(w, parents[0], depth, limited);
      if up.Refused? then up
      else
        var authority := w.dsReply(zone).authority;
        if Trusts(up.auth)
           && w.denies(zone, DenialEvidence(authority, ProofSets(authority), parents[0]), up.auth.keys.value)
        then Verdict(Insecure, checks + up.auth.checks)
        else ByAbsence(w, zone, parents[1..], depth, limited, checks + up.auth.checks)
  }

  /** Parents of a signed delegation, in order: the first secure one that verifies its DS decides. */
  function ByParents(w: World, zone: Name, ds: RRset, keys: RRset, parents: seq<Name>, depth: nat, limited: bool,
                     states: set<State>, checks: set<SigCheck>): Outcome
    requires forall p | p in parents :: Climbable(w, zone, p)
    decreases |zone|, 0, |parents|
  {
    if parents == [] then
      Unparented(states, checks)
    else
      assert Climbable(w, zone, parents[0]) && |parents[0]| < |zone|;
      var up := Walk(w, parents[0], depth, limited);
      if up.Refused? then
        up
      else if !Trusts(up.auth) then
        ByParents(w, zone, ds, keys, parents[1..], depth, limited, states + {up.auth.state}, checks + up.auth.checks)
      else
        var check := w.checkSignatures(ds, DsSigs(w, zone), up.auth.keys.value);
        var seen := checks + up.auth.checks + {check};
        if check.Verified() then ByDelegation(w, zone, ds, keys, seen)
        else ByParents(w, zone, ds, keys, parents[1..], depth, limited, states + {up.auth.state}, seen)
  }

  function Walk(w: World, zone: Name, depth: nat, limited: bool): Outcome
    decreases |zone|, 1, 0
  {
    if limited && depth >= DEPTH_LIMIT then
      Refused(DepthOrCycle)
    else if !w.keyReply(zone).noError then
      Verdict(Indeterminate, {})
    else if Keys(w, zone).Some? && !w.bounded(Keys(w, zone).value) then
      Refused(EvidenceLimit)
    else if zone in w.anchors then
      AtAnchor(w, zone)
    else
      var reply := w.dsReply(zone);
      if !reply.noError then
        Verdict(Indeterminate, {})
      else if !Present(Ds(w, zone)) then
        if |ProofSets(reply.authority)| > PROOF_LIMIT
           || (exists s | s in reply.authority :: DenialSignature(s) && !w.bounded(s))
        then Refused(EvidenceLimit)
        else ByAbsence(w, zone, Signers(w, zone, DenialItems(reply.authority)), depth + 1, limited, {})
      else if DsSigs(w, zone).None? || ChildKeys(w, zone).None? then
        Verdict(Indeterminate, {})
      else if !w.bounded(DsSigs(w, zone).value) then
        Refused(EvidenceLimit)
      else
        var parents := Signers(w, zone, DsSigs(w, zone).value.items);
        if parents == [] then Verdict(Indeterminate, {})
        else ByParents(w, zone, Ds(w, zone).value, ChildKeys(w, zone).value, parents, depth + 1, limited, {}, {})
  }

  // ---------- trusted chains ----------

  /** The keys of an anchored zone are vouched for by its anchor. */
  ghost predicate Anchored(w: World, zone: Name) {
    && w.keyReply(zone).noError && zone in w.anchors && Present(Keys(w, zone))
    && var keys, anchor := Keys(w, zone).value, w.anchors[zone];
    && (anchor.rdtype == DS ==> w.checkDs(anchor, keys).supported > 0)
    && var candidates := if anchor.rdtype == DS then w.checkDs(anchor, keys).matched else InAnchor(keys.items, anchor);
    && candidates != []
    && w.checkSignatures(keys, KeySigs(w, zone), Select(keys, candidates)).Verified()
  }

  /** The child's DS names the parent among its signers. */
  ghost predicate SignedDelegation(w: World, parent: Name, child: Name) {
    && w.keyReply(child).noError && child !in w.anchors && w.dsReply(child).noError
    && Present(Ds(w, child)) && DsSigs(w, child).Some? && ChildKeys(w, child).Some?
    && Climbable(w, child, parent)
    && (exists i | i in DsSigs(w, child).value.items :: i.Signature? && i.signer == parent)
  }

  /** The parent's keys verify the child's DS set other than as a wildcard expansion. */
  ghost predicate VerifiedDs(w: World, parent: Name, child: Name) {
    && SignedDelegation(w, parent, child) && Keys(w, parent).Some?
    && w.checkSignatures(Ds(w, child).value, DsSigs(w, child), Keys(w, parent).value).Verified()
  }

  /** One link: verified DS, a matching key, and that key verifying the child's whole key set. */
  ghost predicate Link(w: World, parent: Name, child: Name) {
    && VerifiedDs(w, parent, child)
    && var matched := w.checkDs(Ds(w, child).value, ChildKeys(w, child).value);
    && matched.supported > 0 && matched.matched != []
    && w.checkSignatures(ChildKeys(w, child).value, KeySigs(w, child),
         Select(ChildKeys(w, child).value, matched.matched)).Verified()
  }

  /** An unbroken chain of links from an anchored zone down to `zone`. */
  ghost predicate TrustedPath(w: World, path: seq<Name>, zone: Name) {
    && |path| > 0 && path[|path| - 1] == zone
    && Anchored(w, path[0])
    && forall i | 0 <= i < |path| - 1 :: Link(w, path[i], path[i + 1])
  }

  ghost predicate Trusted(w: World, zone: Name) {
    exists path: seq<Name> :: TrustedPath(w, path, zone)
  }

  /** The DS comparison matches only keys it was given. */
  ghost predicate MatchesGiven(w: World) {
    forall ds: RRset, keys: RRset, i | i in w.checkDs(ds, keys).matched :: i in keys.items
  }

  // ---------- the closest anchor is shared along a climb ----------

  lemma SameAnchor(w: World, zone: Name, parent: Name)
    requires Climbable(w, zone, parent)
    ensures ClosestAnchor(w.anchors, parent) == ClosestAnchor(w.anchors, zone) || zone in w.anchors
  {
    var a, b := ClosestAnchor(w.anchors, zone), ClosestAnchor(w.anchors, parent);
    if b.Some? && zone !in w.anchors {
      assert AtOrBelow(zone, b.value);
      assert |a.value| <= |b.value| by { assert AtOrBelow(parent, a.value); }
      assert a.value == zone[..|a.value|] && b.value == zone[..|b.value|];
    }
  }

  // ---------- secure means exactly a trusted path ----------

  lemma PathExtends(w: World, parent: Name, child: Name)
    requires Trusted(w, parent) && Link(w, parent, child)
    ensures Trusted(w, child)
  {
    var path :| TrustedPath(w, path, parent);
    var longer := path + [child];
    forall i | 0 <= i < |longer| - 1 ensures Link(w, longer[i], longer[i + 1]) {
      assert longer[i] == path[i];
      if i < |path| - 1 { assert longer[i + 1] == path[i + 1]; }
    }
    assert longer[0] == path[0];
    assert TrustedPath(w, longer, child);
  }

  lemma DelegationSecure(w: World, parent: Name, zone: Name, checks: set<SigCheck>)
    requires MatchesGiven(w) && VerifiedDs(w, parent, zone)
    ensures var r := ByDelegation(w, zone, Ds(w, zone).value, ChildKeys(w, zone).value, checks);
            && r.Answer?
            && (r.auth.state == Secure <==> Link(w, parent, zone))
            && (r.auth.state == Secure ==> r.auth.keys == Keys(w, zone))
  {
    var keys := ChildKeys(w, zone).value;
    var matched := w.checkDs(Ds(w, zone).value, keys).matched;
    if matched != [] {
      assert matched[0] in w.checkDs(Ds(w, zone).value, keys).matched;
      assert ChildKeys(w, zone) == Keys(w, zone);
    }
  }

  /** Soundness: a secure verdict has a trusted path behind it, and hands out the zone's own keys. */
  lemma {:induction false} SecureSound(w: World, zone: Name, depth: nat, limited: bool)
    requires MatchesGiven(w)
    requires Walk(w, zone, depth, limited).Answer? && Walk(w, zone, depth, limited).auth.state == Secure
    ensures Trusted(w, zone) && Walk(w, zone, depth, limited).auth.keys == Keys(w, zone)
    decreases |zone|, 1, 0
  {
    if zone in w.anchors {
      assert Anchored(w, zone);
      assert TrustedPath(w, [zone], zone);
    } else if !Present(Ds(w, zone)) {
      AbsenceNeverSecure(w, zone, Signers(w, zone, DenialItems(w.dsReply(zone).authority)), depth + 1, limited, {});
    } else {
      ParentsSound(w, zone, Signers(w, zone, DsSigs(w, zone).value.items), depth + 1, limited, {}, {});
    }
  }

  /** Parents that sign the zone's DS, as the walk collects them. */
  ghost predicate SigningParents(w: World, zone: Name, parents: seq<Name>) {
    forall p | p in parents :: SignedDelegation(w, p, zone)
  }

  lemma {:induction false} ParentsSound(w: World, zone: Name, parents: seq<Name>, depth: nat, limited: bool,
                                        states: set<State>, checks: set<SigCheck>)
    requires MatchesGiven(w) && SigningParents(w, zone, parents) && Ds(w, zone).Some? && ChildKeys(w, zone).Some?
    requires var r := ByParents(w, zone, Ds(w, zone).value, ChildKeys(w, zone).value, parents,
        depth, limited, states, checks);
             r.Answer? && r.auth.state == Secure
    ensures Trusted(w, zone)
    ensures ByParents(w, zone, Ds(w, zone).value, ChildKeys(w, zone).value, parents,
        depth, limited, states, checks).auth.keys == Keys(w, zone)
    decreases |zone|, 0, |parents|
  {
    if parents != [] {
      var p := parents[0];
      assert SignedDelegation(w, p, zone);
      var up := Walk(w, p, depth, limited);
      if !Trusts(up.auth) {
        ParentsSound(w, zone, parents[1..], depth, limited, states + {up.auth.state}, checks + up.auth.checks);
      } else {
        SecureSound(w, p, depth, limited);
        var check := w.checkSignatures(Ds(w, zone).value, DsSigs(w, zone), up.auth.keys.value);
        if check.Verified() {
          DelegationSecure(w, p, zone, checks + up.auth.checks + {check});
          PathExtends(w, p, zone);
        } else {
          ParentsSound(w, zone, parents[1..], depth, limited, states + {up.auth.state},
              checks + up.auth.checks + {check});
        }
      }
    }
  }

  lemma PathParent(w: World, path: seq<Name>, zone: Name) returns (p: Name)
    requires TrustedPath(w, path, zone) && |path| > 1
    ensures Trusted(w, p) && Link(w, p, zone)
  {
    p := path[|path| - 2];
    assert Link(w, path[|path| - 2], path[|path| - 2 + 1]);
    assert TrustedPath(w, path[..|path| - 1], p);
  }

  lemma DelegatedWalk(w: World, p: Name, zone: Name, depth: nat, limited: bool)
    requires SignedDelegation(w, p, zone) && Walk(w, zone, depth, limited).Answer?
    ensures var parents := Signers(w, zone, DsSigs(w, zone).value.items);
            && p in parents && SigningParents(w, zone, parents)
            && Walk(w, zone, depth, limited)
                 == ByParents(w, zone, Ds(w, zone).value, ChildKeys(w, zone).value, parents, depth + 1, limited, {}, {})
  {
  }

  /** Completeness: wherever the walk reaches a verdict, a trusted path makes it secure. */
  lemma {:induction false} SecureComplete(w: World, zone: Name, depth: nat, limited: bool)
    requires MatchesGiven(w) && Trusted(w, zone) && Walk(w, zone, depth, limited).Answer?
    ensures Walk(w, zone, depth, limited).auth.state == Secure
    decreases |zone|, 1, 0
  {
    var path :| TrustedPath(w, path, zone);
    if |path| > 1 {
      var p := PathParent(w, path, zone);
      DelegatedWalk(w, p, zone, depth, limited);
      ParentsComplete(w, zone, Signers(w, zone, DsSigs(w, zone).value.items), depth + 1, limited, {}, {}, p);
    }
  }

  lemma {:induction false} ParentsComplete(w: World, zone: Name, parents: seq<Name>, depth: nat, limited: bool,
                                           states: set<State>, checks: set<SigCheck>, p: Name)
    requires MatchesGiven(w) && SigningParents(w, zone, parents) && p in parents && Trusted(w, p) && Link(w, p, zone)
    requires ByParents(w, zone, Ds(w, zone).value, ChildKeys(w, zone).value, parents,
        depth, limited, states, checks).Answer?
    ensures ByParents(w, zone, Ds(w, zone).value, ChildKeys(w, zone).value, parents,
        depth, limited, states, checks).auth.state == Secure
    decreases |zone|, 0, |parents|
  {
    var q := parents[0];
    assert SignedDelegation(w, q, zone);
    var up := Walk(w, q, depth, limited);
    if q == p { SecureComplete(w, p, depth, limited); }
    if !Trusts(up.auth) {
      if q == p { SecureSound(w, p, depth, limited); }
      ParentsComplete(w, zone, parents[1..], depth, limited, states + {up.auth.state}, checks + up.auth.checks, p);
    } else {
      SecureSound(w, q, depth, limited);
      var check := w.checkSignatures(Ds(w, zone).value, DsSigs(w, zone), up.auth.keys.value);
      if check.Verified() {
        DelegationSecure(w, q, zone, checks + up.auth.checks + {check});
      } else {
        ParentsComplete(w, zone, parents[1..], depth, limited, states + {up.auth.state},
            checks + up.auth.checks + {check}, p);
      }
    }
  }

  lemma {:induction false} AbsenceNeverSecure(w: World, zone: Name, parents: seq<Name>, depth: nat, limited: bool,
                                              checks: set<SigCheck>)
    requires forall p | p in parents :: Climbable(w, zone, p)
    ensures var r := ByAbsence(w, zone, parents, depth, limited, checks);
            r.Answer? ==> r.auth.state in {Insecure, Indeterminate}
    decreases |parents|
  {
    if parents != [] {
      var up := Walk(w, parents[0], depth, limited);
      if up.Answer? { AbsenceNeverSecure(w, zone, parents[1..], depth, limited, checks + up.auth.checks); }
    }
  }

  /** A trusted path starts at the most specific anchor of its zone and stays at or below it. */
  lemma {:induction false} PathConfined(w: World, path: seq<Name>, zone: Name)
    requires TrustedPath(w, path, zone)
    ensures ClosestAnchor(w.anchors, zone) == Some(path[0])
    ensures forall n | n in path :: AtOrBelow(n, path[0]) && AtOrBelow(zone, n)
    decreases |path|
  {
    if |path| > 1 {
      var p, front := path[|path| - 2], path[..|path| - 1];
      PathFront(w, path, zone);
      PathConfined(w, front, p);
      SameAnchor(w, zone, p);
      forall n | n in path
        ensures AtOrBelow(n, path[0]) && AtOrBelow(zone, n)
      {
        assert n in front || n == zone;
        assert AtOrBelow(p, path[0]) && AtOrBelow(zone, p);
      }
    }
  }

  lemma PathFront(w: World, path: seq<Name>, zone: Name)
    requires TrustedPath(w, path, zone) && |path| > 1
    ensures TrustedPath(w, path[..|path| - 1], path[|path| - 2])
    ensures Climbable(w, zone, path[|path| - 2]) && zone !in w.anchors
  {
    assert Link(w, path[|path| - 2], path[|path| - 2 + 1]);
  }

  /** Chain soundness and completeness together: a verdict is secure exactly when an unbroken
      verified chain descends from the most specific configured anchor. */
  lemma SecureExactly(w: World, zone: Name, depth: nat, limited: bool)
    requires MatchesGiven(w) && Walk(w, zone, depth, limited).Answer?
    ensures Walk(w, zone, depth, limited).auth.state == Secure <==>
            exists path: seq<Name> ::
              && TrustedPath(w, path, zone)
              && ClosestAnchor(w.anchors, zone) == Some(path[0])
              && forall n | n in path :: AtOrBelow(n, path[0])
  {
    if Walk(w, zone, depth, limited).auth.state == Secure {
      SecureSound(w, zone, depth, limited);
      var path :| TrustedPath(w, path, zone);
      PathConfined(w, path, zone);
    } else if Trusted(w, zone) {
      SecureComplete(w, zone, depth, limited);
    }
  }

  // ---------- no anchor, no verdict ----------

  lemma NoAnchorAbove(w: World, zone: Name, parent: Name)
    requires ClosestAnchor(w.anchors, zone).None? && StrictlyBelow(zone, parent)
    ensures ClosestAnchor(w.anchors, parent).None?
  {
    if ClosestAnchor(w.anchors, parent).Some? {
      assert AtOrBelow(zone, ClosestAnchor(w.anchors, parent).value);
    }
  }

  /** A zone with no anchor at or above it is always indeterminate. */
  lemma {:induction false} UnanchoredIndeterminate(w: World, zone: Name, depth: nat, limited: bool)
    requires ClosestAnchor(w.anchors, zone).None? && Walk(w, zone, depth, limited).Answer?
    ensures Walk(w, zone, depth, limited).auth.state == Indeterminate
    decreases |zone|, 1, 0
  {
    if w.keyReply(zone).noError && w.dsReply(zone).noError {
      if !Present(Ds(w, zone)) {
        UnanchoredAbsence(w, zone, Signers(w, zone, DenialItems(w.dsReply(zone).authority)), depth + 1, limited, {});
      } else if DsSigs(w, zone).Some? && ChildKeys(w, zone).Some? {
        var parents := Signers(w, zone, DsSigs(w, zone).value.items);
        if parents != [] {
          UnanchoredParents(w, zone, Ds(w, zone).value, ChildKeys(w, zone).value, parents, depth + 1, limited, {}, {});
        }
      }
    }
  }

  lemma {:induction false} UnanchoredAbsence(w: World, zone: Name, parents: seq<Name>, depth: nat, limited: bool,
                                             checks: set<SigCheck>)
    requires ClosestAnchor(w.anchors, zone).None? && forall p | p in parents :: Climbable(w, zone, p)
    ensures var r := ByAbsence(w, zone, parents, depth, limited, checks); r.Answer? ==> r.auth.state == Indeterminate
    decreases |zone|, 0, |parents|
  {
    if parents != [] {
      assert Climbable(w, zone, parents[0]) && |parents[0]| < |zone|;
      NoAnchorAbove(w, zone, parents[0]);
      var up := Walk(w, parents[0], depth, limited);
      if up.Answer? {
        UnanchoredIndeterminate(w, parents[0], depth, limited);
        UnanchoredAbsence(w, zone, parents[1..], depth, limited, checks + up.auth.checks);
      }
    }
  }

  lemma {:induction false} UnanchoredParents(w: World, zone: Name, ds: RRset, keys: RRset, parents: seq<Name>,
                                             depth: nat, limited: bool, states: set<State>, checks: set<SigCheck>)
    requires ClosestAnchor(w.anchors, zone).None? && forall p | p in parents :: Climbable(w, zone, p)
    requires parents != [] || Indeterminate in states
    ensures var r := ByParents(w, zone, ds, keys, parents, depth, limited, states, checks);
            r.Answer? ==> r.auth.state == Indeterminate
    decreases |zone|, 0, |parents|
  {
    if parents != [] {
      assert Climbable(w, zone, parents[0]) && |parents[0]| < |zone|;
      NoAnchorAbove(w, zone, parents[0]);
      var up := Walk(w, parents[0], depth, limited);
      if up.Answer? {
        UnanchoredIndeterminate(w, parents[0], depth, limited);
        UnanchoredParents(w, zone, ds, keys, parents[1..], depth, limited, states + {up.auth.state},
            checks + up.auth.checks);
      }
    }
  }

  // ---------- insecure means an authenticated cut ----------

  ghost predicate DeniedDs(w: World, parent: Name, zone: Name) {
    && w.dsReply(zone).noError && !Present(Ds(w, zone)) && Keys(w, parent).Some? && Climbable(w, zone, parent)
    && var authority := w.dsReply(zone).authority;
    && w.denies(zone, DenialEvidence(authority, ProofSets(authority), parent), Keys(w, parent).value)
  }

  ghost predicate UnsupportedDs(w: World, parent: Name, zone: Name) {
    VerifiedDs(w, parent, zone) && w.checkDs(Ds(w, zone).value, ChildKeys(w, zone).value).supported == 0
  }

  /** A trusted parent proved this zone to be an insecure delegation. */
  ghost predicate InsecureCut(w: World, parent: Name, cut: Name) {
    Trusted(w, parent) && (DeniedDs(w, parent, cut) || UnsupportedDs(w, parent, cut))
  }

  ghost predicate BelowInsecureCut(w: World, zone: Name) {
    exists parent: Name, cut: Name :: InsecureCut(w, parent, cut) && AtOrBelow(zone, cut)
  }

  /** An insecure verdict has an authenticated insecure cut at or above the zone. */
  lemma {:induction false} InsecureSound(w: World, zone: Name, depth: nat, limited: bool)
    requires MatchesGiven(w)
    requires Walk(w, zone, depth, limited).Answer? && Walk(w, zone, depth, limited).auth.state == Insecure
    ensures BelowInsecureCut(w, zone)
    decreases |zone|, 1, 0
  {
    if !Present(Ds(w, zone)) {
      InsecureAbsence(w, zone, Signers(w, zone, DenialItems(w.dsReply(zone).authority)), depth + 1, limited, {});
    } else {
      var parents := Signers(w, zone, DsSigs(w, zone).value.items);
      assert SigningParents(w, zone, parents);
      InsecureParents(w, zone, parents, depth + 1, limited, {}, {});
    }
  }

  lemma {:induction false} InsecureAbsence(w: World, zone: Name, parents: seq<Name>, depth: nat, limited: bool,
                                           checks: set<SigCheck>)
    requires MatchesGiven(w) && w.dsReply(zone).noError && !Present(Ds(w, zone))
    requires forall p | p in parents :: Climbable(w, zone, p)
    requires var r := ByAbsence(w, zone, parents, depth, limited, checks); r.Answer? && r.auth.state == Insecure
    ensures BelowInsecureCut(w, zone)
    decreases |zone|, 0, |parents|
  {
    var p := parents[0];
    assert Climbable(w, zone, p) && |p| < |zone|;
    var up := Walk(w, p, depth, limited);
    var authority := w.dsReply(zone).authority;
    if Trusts(up.auth) {
      SecureSound(w, p, depth, limited);
      if w.denies(zone, DenialEvidence(authority, ProofSets(authority), p), up.auth.keys.value) {
        assert InsecureCut(w, p, zone);
        return;
      }
    }
    InsecureAbsence(w, zone, parents[1..], depth, limited, checks + up.auth.checks);
  }

  lemma {:induction false} InsecureParents(w: World, zone: Name, parents: seq<Name>, depth: nat, limited: bool,
                                           states: set<State>, checks: set<SigCheck>)
    requires MatchesGiven(w) && SigningParents(w, zone, parents) && Ds(w, zone).Some? && ChildKeys(w, zone).Some?
    requires Insecure in states ==> BelowInsecureCut(w, zone)
    requires var r := ByParents(w, zone, Ds(w, zone).value, ChildKeys(w, zone).value, parents,
        depth, limited, states, checks);
             r.Answer? && r.auth.state == Insecure
    ensures BelowInsecureCut(w, zone)
    decreases |zone|, 0, |parents|
  {
    if parents != [] {
      var p := parents[0];
      assert SignedDelegation(w, p, zone) && |p| < |zone|;
      var up := Walk(w, p, depth, limited);
      if !Trusts(up.auth) {
        if up.auth.state == Insecure {
          InsecureSound(w, p, depth, limited);
          InsecureInherited(w, p, zone);
        }
        InsecureParents(w, zone, parents[1..], depth, limited, states + {up.auth.state}, checks + up.auth.checks);
      } else {
        SecureSound(w, p, depth, limited);
        var check := w.checkSignatures(Ds(w, zone).value, DsSigs(w, zone), up.auth.keys.value);
        var seen := checks + up.auth.checks + {check};
        if check.Verified() {
          DelegationInsecure(w, p, zone, seen);
        } else {
          InsecureParents(w, zone, parents[1..], depth, limited, states + {up.auth.state}, seen);
        }
      }
    }
  }

  lemma InsecureInherited(w: World, parent: Name, zone: Name)
    requires BelowInsecureCut(w, parent) && StrictlyBelow(zone, parent)
    ensures BelowInsecureCut(w, zone)
  {
    var up: Name, cut: Name :| InsecureCut(w, up, cut) && AtOrBelow(parent, cut);
    assert AtOrBelow(zone, cut);
  }

  lemma DelegationInsecure(w: World, parent: Name, zone: Name, checks: set<SigCheck>)
    requires VerifiedDs(w, parent, zone) && Trusted(w, parent)
    requires ByDelegation(w, zone, Ds(w, zone).value, ChildKeys(w, zone).value, checks).auth.state == Insecure
    ensures BelowInsecureCut(w, zone)
  {
    assert InsecureCut(w, parent, zone);
  }

  // ---------- the depth limit only refuses ----------

  /** Any answer reached under the depth limit is the answer without one, and without one the
      starting depth does not matter. */
  lemma {:induction false} LimitOnlyRefuses(w: World, zone: Name, depth: nat, limited: bool, other: nat)
    ensures !limited || Walk(w, zone, depth, limited).Answer? ==>
              Walk(w, zone, depth, limited) == Walk(w, zone, other, false)
    decreases |zone|, 1, 0
  {
    if w.keyReply(zone).noError && zone !in w.anchors && w.dsReply(zone).noError {
      if !Present(Ds(w, zone)) {
        LimitAbsence(w, zone, Signers(w, zone, DenialItems(w.dsReply(zone).authority)), depth + 1, limited, other + 1,
            {});
      } else if DsSigs(w, zone).Some? && ChildKeys(w, zone).Some? {
        LimitParents(w, zone, Ds(w, zone).value, ChildKeys(w, zone).value,
            Signers(w, zone, DsSigs(w, zone).value.items),
                     depth + 1, limited, other + 1, {}, {});
      }
    }
  }

  lemma {:induction false} LimitAbsence(w: World, zone: Name, parents: seq<Name>, depth: nat, limited: bool, other: nat,
                                        checks: set<SigCheck>)
    requires forall p | p in parents :: Climbable(w, zone, p)
    ensures !limited || ByAbsence(w, zone, parents, depth, limited, checks).Answer? ==>
              ByAbsence(w, zone, parents, depth, limited, checks) == ByAbsence(w, zone, parents, other, false, checks)
    decreases |zone|, 0, |parents|
  {
    if parents != [] {
      assert Climbable(w, zone, parents[0]) && |parents[0]| < |zone|;
      LimitOnlyRefuses(w, parents[0], depth, limited, other);
      var up := Walk(w, parents[0], depth, limited);
      if up.Answer? { LimitAbsence(w, zone, parents[1..], depth, limited, other, checks + up.auth.checks); }
    }
  }

  lemma {:induction false} LimitParents(w: World, zone: Name, ds: RRset, keys: RRset, parents: seq<Name>, depth: nat,
                                        limited: bool, other: nat, states: set<State>, checks: set<SigCheck>)
    requires forall p | p in parents :: Climbable(w, zone, p)
    ensures !limited || ByParents(w, zone, ds, keys, parents, depth, limited, states, checks).Answer? ==>
              ByParents(w, zone, ds, keys, parents, depth, limited, states, checks)
                == ByParents(w, zone, ds, keys, parents, other, false, states, checks)
    decreases |zone|, 0, |parents|
  {
    if parents != [] {
      assert Climbable(w, zone, parents[0]) && |parents[0]| < |zone|;
      LimitOnlyRefuses(w, parents[0], depth, limited, other);
      var up := Walk(w, parents[0], depth, limited);
      if up.Answer? {
        if !Trusts(up.auth) {
          LimitParents(w, zone, ds, keys, parents[1..], depth, limited, other, states + {up.auth.state},
              checks + up.auth.checks);
        } else {
          var check := w.checkSignatures(ds, DsSigs(w, zone), up.auth.keys.value);
          LimitParents(w, zone, ds, keys, parents[1..], depth, limited, other, states + {up.auth.state},
              checks + up.auth.checks + {check});
        }
      }
    }
  }
}
