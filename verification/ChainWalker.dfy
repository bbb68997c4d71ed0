/** The walk as it runs: one request-local memo, shared along every branch of the recursion. */
module ChainWalker {
  import opened Names
  import opened Chain

  class Walker {
    const w: World
    var memo: map<Name, Auth>
    ghost var asked: set<Name>

    constructor (w: World)
      ensures this.w == w && memo == map[] && asked == {}
    {
      this.w, memo, asked := w, map[], {};
    }

    /** Every memo entry is the plain recursion's answer. */
    ghost predicate Valid()
      reads this`memo
    {
      forall z | z in memo :: Walk(w, z, 0, false) == Answer(memo[z])
    }

    /** Zones asked for upstream since an earlier moment are ancestors of `zone`, none above its anchor. */
    ghost predicate Confined(before: set<Name>, zone: Name)
      reads this`asked
    {
      forall n | n in asked && n !in before ::
        && AtOrBelow(zone, n)
        && (ClosestAnchor(w.anchors, zone).Some? ==> AtOrBelow(n, ClosestAnchor(w.anchors, zone).value))
    }

    /** Refused only where the plain recursion refuses too; otherwise the plain answer, and
        afterwards every zone asked for is in the memo, so no zone is asked for twice. */
    method Zone(zone: Name, visiting: set<Name>) returns (r: Outcome)
      requires Valid() && asked <= memo.Keys + visiting
      requires forall v | v in visiting :: StrictlyBelow(v, zone)
      modifies this`memo, this`asked
      ensures Valid() && old(memo.Keys) <= memo.Keys && old(asked) <= asked
      ensures r.Answer? ==> r == Walk(w, zone, 0, false) && zone in memo && asked <= memo.Keys + visiting
      ensures Walk(w, zone, |visiting|, true).Answer? ==> r == Walk(w, zone, |visiting|, true)
      ensures Confined(old(asked), zone)
      decreases |zone|, 4
    {
      LimitOnlyRefuses(w, zone, |visiting|, true, 0);
      if zone in memo {
        return Answer(memo[zone]);
      }
      assert zone !in visiting;
      if zone in visiting || |visiting| >= DEPTH_LIMIT {
        return Refused(DepthOrCycle);
      }
      r := Ask(zone, visiting);
    }

    /** A zone met for the first time: it is asked for, and its answer remembered. */
    method Ask(zone: Name, visiting: set<Name>) returns (r: Outcome)
      requires Valid() && asked <= memo.Keys + visiting && zone !in memo && zone !in visiting
      requires |visiting| < DEPTH_LIMIT && forall v | v in visiting :: StrictlyBelow(v, zone)
      modifies this`memo, this`asked
      ensures Valid() && old(memo.Keys) <= memo.Keys && old(asked) <= asked && zone !in old(asked)
      ensures r.Answer? ==> r == Walk(w, zone, 0, false) && zone in memo && asked <= memo.Keys + visiting
      ensures Walk(w, zone, |visiting|, true).Answer? ==> r == Walk(w, zone, |visiting|, true)
      ensures Confined(old(asked), zone)
      decreases |zone|, 3
    {
      asked := asked + {zone};
      ghost var noted := asked;
      var inner := visiting + {zone};
      assert |inner| - 1 == |visiting|;
      r := Fresh(zone, inner);
      ConfinedToo(old(asked), noted, zone);
      if r.Answer? {
        Remember(zone, r.auth);
      }
    }

    lemma ConfinedToo(before: set<Name>, noted: set<Name>, zone: Name)
      requires noted == before + {zone} && Confined(noted, zone)
      ensures Confined(before, zone)
    {
    }

    method Remember(zone: Name, auth: Auth)
      requires Valid() && Walk(w, zone, 0, false) == Answer(auth)
      modifies this`memo
      ensures Valid() && memo.Keys == old(memo.Keys) + {zone}
    {
      memo := memo[zone := auth];
    }

    /** The same for a zone just asked for; the caller remembers the answer. */
    method Fresh(zone: Name, visiting: set<Name>) returns (r: Outcome)
      requires Valid() && asked <= memo.Keys + visiting && zone in visiting && |visiting| <= DEPTH_LIMIT
      requires forall v | v in visiting :: v == zone || StrictlyBelow(v, zone)
      modifies this`memo, this`asked
      ensures Valid() && old(memo.Keys) <= memo.Keys && old(asked) <= asked
      ensures r.Answer? ==> r == Walk(w, zone, 0, false) && asked <= memo.Keys + visiting
      ensures Walk(w, zone, |visiting| - 1, true).Answer? ==> r == Walk(w, zone, |visiting| - 1, true)
      ensures Confined(old(asked), zone)
      decreases |zone|, 2
    {
      var message := w.keyReply(zone);
      if !message.noError {
        r := Verdict(Indeterminate, {});
      } else if Keys(w, zone).Some? && !w.bounded(Keys(w, zone).value) {
        r := Refused(EvidenceLimit);
      } else if zone in w.anchors {
        r := AtAnchor(w, zone);
      } else {
        r := Delegated(zone, visiting);
      }
    }

    method Delegated(zone: Name, visiting: set<Name>) returns (r: Outcome)
      requires Valid() && asked <= memo.Keys + visiting && zone in visiting && |visiting| <= DEPTH_LIMIT
      requires forall v | v in visiting :: v == zone || StrictlyBelow(v, zone)
      requires w.keyReply(zone).noError && (Keys(w, zone).Some? ==> w.bounded(Keys(w, zone).value))
          && zone !in w.anchors
      modifies this`memo, this`asked
      ensures Valid() && old(memo.Keys) <= memo.Keys && old(asked) <= asked
      ensures r.Answer? ==> r == Walk(w, zone, 0, false) && asked <= memo.Keys + visiting
      ensures Walk(w, zone, |visiting| - 1, true).Answer? ==> r == Walk(w, zone, |visiting| - 1, true)
      ensures Confined(old(asked), zone)
      decreases |zone|, 1
    {
      var reply := w.dsReply(zone);
      if !reply.noError {
        return Verdict(Indeterminate, {});
      }
      if !Present(Ds(w, zone)) {
        if |ProofSets(reply.authority)| > PROOF_LIMIT
           || (exists s | s in reply.authority :: DenialSignature(s) && !w.bounded(s)) {
          return Refused(EvidenceLimit);
        }
        r := Absent(zone, Signers(w, zone, DenialItems(reply.authority)), visiting);
        return;
      }
      if DsSigs(w, zone).None? || ChildKeys(w, zone).None? {
        return Verdict(Indeterminate, {});
      }
      if !w.bounded(DsSigs(w, zone).value) {
        return Refused(EvidenceLimit);
      }
      var parents := Signers(w, zone, DsSigs(w, zone).value.items);
      if parents == [] {
        return Verdict(Indeterminate, {});
      }
      r := Signed(zone, Ds(w, zone).value, ChildKeys(w, zone).value, parents, visiting);
    }

    method Absent(zone: Name, parents: seq<Name>, visiting: set<Name>) returns (r: Outcome)
      requires Valid() && asked <= memo.Keys + visiting && |visiting| > 0
      requires forall v | v in visiting :: v == zone || StrictlyBelow(v, zone)
      requires forall p | p in parents :: Climbable(w, zone, p)
      modifies this`memo, this`asked
      ensures Valid() && old(memo.Keys) <= memo.Keys && old(asked) <= asked
      ensures r.Answer? ==> r == ByAbsence(w, zone, parents, 1, false, {}) && asked <= memo.Keys + visiting
      ensures var plain := ByAbsence(w, zone, parents, |visiting|, true, {}); plain.Answer? ==> r == plain
      ensures Confined(old(asked), zone)
      decreases |zone|, 0
    {
      var checks: set<SigCheck> := {};
      var authority := w.dsReply(zone).authority;
      for i := 0 to |parents|
        invariant Valid() && asked <= memo.Keys + visiting && old(memo.Keys) <= memo.Keys && old(asked) <= asked
        invariant Confined(old(asked), zone)
        invariant ByAbsence(w, zone, parents, 1, false, {}) == ByAbsence(w, zone, parents[i..], 1, false, checks)
        invariant var plain := ByAbsence(w, zone, parents, |visiting|, true, {});
                  plain.Answer? ==> plain == ByAbsence(w, zone, parents[i..], |visiting|, true, checks)
      {
        var p := parents[i];
        Climb(zone, p, visiting);
        var up := Zone(p, visiting);
        if up.Refused? {
          return up;
        }
        if Trusts(up.auth) && w.denies(zone, DenialEvidence(authority, ProofSets(authority), p), up.auth.keys.value) {
          return Verdict(Insecure, checks + up.auth.checks);
        }
        checks := checks + up.auth.checks;
        assert parents[i..][1..] == parents[i + 1..];
      }
      r := Verdict(Indeterminate, checks);
    }

    method Signed(zone: Name, ds: RRset, keys: RRset, parents: seq<Name>, visiting: set<Name>) returns (r: Outcome)
      requires Valid() && asked <= memo.Keys + visiting && |visiting| > 0
      requires forall v | v in visiting :: v == zone || StrictlyBelow(v, zone)
      requires forall p | p in parents :: Climbable(w, zone, p)
      modifies this`memo, this`asked
      ensures Valid() && old(memo.Keys) <= memo.Keys && old(asked) <= asked
      ensures r.Answer? ==>
          r == ByParents(w, zone, ds, keys, parents, 1, false, {}, {}) && asked <= memo.Keys + visiting
      ensures var plain := ByParents(w, zone, ds, keys, parents, |visiting|, true, {}, {}); plain.Answer? ==> r == plain
      ensures Confined(old(asked), zone)
      decreases |zone|, 0
    {
      var states: set<State> := {};
      var checks: set<SigCheck> := {};
      for i := 0 to |parents|
        invariant Valid() && asked <= memo.Keys + visiting && old(memo.Keys) <= memo.Keys && old(asked) <= asked
        invariant Confined(old(asked), zone)
        invariant ByParents(w, zone, ds, keys, parents, 1, false, {}, {}) ==
            ByParents(w, zone, ds, keys, parents[i..], 1, false, states, checks)
        invariant var plain := ByParents(w, zone, ds, keys, parents, |visiting|, true, {}, {});
                  plain.Answer? ==>
                    plain == ByParents(w, zone, ds, keys, parents[i..], |visiting|, true, states, checks)
      {
        var p := parents[i];
        Climb(zone, p, visiting);
        var up := Zone(p, visiting);
        if up.Refused? {
          return up;
        }
        states := states + {up.auth.state};
        checks := checks + up.auth.checks;
        if Trusts(up.auth) {
          var check := w.checkSignatures(ds, DsSigs(w, zone), up.auth.keys.value);
          checks := checks + {check};
          if check.Verified() {
            return ByDelegation(w, zone, ds, keys, checks);
          }
        }
        assert parents[i..][1..] == parents[i + 1..];
      }
      r := Unparented(states, checks);
    }

    /** One step up: the parent is strictly above all that is being visited, shares the anchor,
        and its plain answer does not depend on the depth it is asked at. */
    lemma Climb(zone: Name, p: Name, visiting: set<Name>)
      requires Climbable(w, zone, p) && forall v | v in visiting :: v == zone || StrictlyBelow(v, zone)
      ensures |p| < |zone| && forall v | v in visiting :: StrictlyBelow(v, p)
      ensures zone !in w.anchors ==> ClosestAnchor(w.anchors, p) == ClosestAnchor(w.anchors, zone)
      ensures Walk(w, p, 1, false) == Walk(w, p, 0, false)
      ensures Walk(w, p, |visiting|, true).Answer? ==> Walk(w, p, |visiting|, true) == Walk(w, p, 0, false)
    {
      SameAnchor(w, zone, p);
      LimitOnlyRefuses(w, p, 1, false, 0);
      LimitOnlyRefuses(w, p, |visiting|, true, 0);
    }
  }

  /** A whole authentication: the plain recursion's answer wherever that one gives any. */
  method Authenticate(w: World, zone: Name) returns (r: Outcome, ghost asked: set<Name>)
    ensures Walk(w, zone, 0, true).Answer? ==> r == Walk(w, zone, 0, true)
    ensures r.Answer? ==> r == Walk(w, zone, 0, false)
    ensures forall n | n in asked :: AtOrBelow(zone, n)
              && (ClosestAnchor(w.anchors, zone).Some? ==> AtOrBelow(n, ClosestAnchor(w.anchors, zone).value))
  {
    var walker := new Walker(w);
    r := walker.Zone(zone, {});
    asked := walker.asked;
  }
}
