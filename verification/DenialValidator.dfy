/** The validator itself: it gathers verified records item by item, hashes names on demand
    against a work budget, and stops as soon as a conclusion is reached. */
module DenialValidator {
  import opened Wrappers
  import opened Names
  import opened Denial
  import opened NsecTheorems
  import opened Nsec3Theorems

  const EVIDENCE_LIMIT := 64

  predicate InScope(zone: Name, qname: Name, qtype: RType, kind: Kind, evidence: seq<Evidence>) {
    && AtOrBelow(qname, zone)
    && |evidence| <= EVIDENCE_LIMIT
    && (kind == UnsignedDelegation ==> qtype == DS && qname != zone)
  }

  function Refusal(item: Evidence): Option<Denied> {
    if item.rdtype != NSEC && item.rdtype != NSEC3 then Some(RecordType)
    else if item.check.Refused? then Some(SignatureRefused)
    else None
  }

  // ---------- gathering ----------

  /** What checking the first `n` sets takes from the budget. */
  function Spent(evidence: seq<Evidence>, charge: Evidence -> nat, n: nat): nat
    requires n <= |evidence|
  {
    if n == 0 then 0 else Spent(evidence, charge, n - 1) + charge(evidence[n - 1])
  }

  /** Why a set ends the request, with this much left: its type, the budget, or its signature check. */
  function Stop(item: Evidence, charge: Evidence -> nat, left: int): Option<Denied> {
    if item.rdtype != NSEC && item.rdtype != NSEC3 then Some(RecordType)
    else if left < charge(item) then Some(BudgetExhausted)
    else Refusal(item)
  }

  /** What the k-th set ends the request for, once those before it are paid. */
  function StopOf(evidence: seq<Evidence>, charge: Evidence -> nat, budget: nat, k: nat): Option<Denied>
    requires k < |evidence|
  {
    Stop(evidence[k], charge, budget - Spent(evidence, charge, k))
  }

  /** None of the first `n` sets ends the request. */
  ghost predicate Passes(evidence: seq<Evidence>, charge: Evidence -> nat, budget: nat, n: nat)
    requires n <= |evidence|
  {
    forall k | 0 <= k < n :: StopOf(evidence, charge, budget, k).None?
  }

  /** The k-th set is the first that ends the request, for this reason. */
  ghost predicate StopsAt(evidence: seq<Evidence>, charge: Evidence -> nat, budget: nat, k: nat, why: Denied) {
    k < |evidence| && Passes(evidence, charge, budget, k) && StopOf(evidence, charge, budget, k) == Some(why)
  }

  ghost predicate Stops(evidence: seq<Evidence>, charge: Evidence -> nat, budget: nat, why: Denied) {
    exists k: nat :: StopsAt(evidence, charge, budget, k, why)
  }

  /** At most one set ends the request. */
  lemma StopsOnce(evidence: seq<Evidence>, charge: Evidence -> nat, budget: nat, why: Denied)
    requires Stops(evidence, charge, budget, why)
    ensures !Passes(evidence, charge, budget, |evidence|)
    ensures forall other | Stops(evidence, charge, budget, other) :: other == why
  {
    var k: nat :| StopsAt(evidence, charge, budget, k, why);
    forall other | Stops(evidence, charge, budget, other) ensures other == why {
      var i: nat :| StopsAt(evidence, charge, budget, i, other);
      assert i == k;
    }
  }

  /** One set whose check did not end the request. */
  method Take(zone: Name, item: Evidence, before: Gathered, decode: Octets -> Option<Octets>) returns (g: Gathered)
    requires item.check.Checked?
    ensures g == Absorb(zone, before, item, decode)
  {
    g := before;
    if !(exists w | w in item.check.wildcards :: !w) {
      assert false !in item.check.wildcards;
      return;
    }
    assert Usable(item);
    if |item.records| != 1 {
      g := g.(malformed := true);
      return;
    }
    match item.records[0] {
      case RawNsec(next, windows) =>
        if !AtOrBelow(next, zone) || (exists r | r in g.nsec :: r.owner == item.name) {
          g := g.(malformed := true);
        } else {
          g := g.(nsec := g.nsec + [Nsec(item.name, next, windows)]);
        }
      case RawNsec3(algorithm, flags, config, next, windows) =>
        if algorithm == 1 && flags <= 1 {
          var owner := Decoded(zone, item, item.records[0], decode);
          if owner.None? {
            g := g.(malformed := true);
          } else if (g.parameters.Some? && g.parameters.value != config)
              || (exists r | r in g.nsec3 :: r.owner == owner.value) {
            g := g.(malformed := true);
          } else {
            g := g.(nsec3 := g.nsec3 + [Nsec3(owner.value, next, flags == 1, windows)], parameters := Some(config));
          }
        }
    }
  }

  lemma PassesMore(evidence: seq<Evidence>, charge: Evidence -> nat, budget: nat, k: nat)
    requires k < |evidence| && Passes(evidence, charge, budget, k)
    ensures var stop := StopOf(evidence, charge, budget, k);
            && (stop.Some? ==> Stops(evidence, charge, budget, stop.value))
            && (stop.None? ==> Passes(evidence, charge, budget, k + 1) && evidence[k].check.Checked?)
  {
    var stop := StopOf(evidence, charge, budget, k);
    if stop.Some? { assert StopsAt(evidence, charge, budget, k, stop.value); }
  }

  lemma GatherMore(zone: Name, evidence: seq<Evidence>, k: nat, decode: Octets -> Option<Octets>)
    requires k < |evidence|
    ensures Gather(zone, evidence[..k + 1], decode) ==
        Absorb(zone, Gather(zone, evidence[..k], decode), evidence[k], decode)
  {
    assert evidence[..k + 1][..k] == evidence[..k];
  }

  method GatherAll(zone: Name, evidence: seq<Evidence>, p: Primitives, budget: nat)
    returns (g: Gathered, denied: Option<Denied>, left: nat)
    ensures denied.None? ==>
              && g == Gather(zone, evidence, p.decode) && Passes(evidence, p.charge, budget, |evidence|)
              && left == budget - Spent(evidence, p.charge, |evidence|)
    ensures denied.Some? ==> Stops(evidence, p.charge, budget, denied.value)
    ensures left <= budget
  {
    g, denied, left := NOTHING, None, budget;
    for i := 0 to |evidence|
      invariant denied.None? && Passes(evidence, p.charge, budget, i)
      invariant left == budget - Spent(evidence, p.charge, i)
      invariant g == Gather(zone, evidence[..i], p.decode)
    {
      var item := evidence[i];
      PassesMore(evidence, p.charge, budget, i);
      GatherMore(zone, evidence, i, p.decode);
      denied := Stop(item, p.charge, left);
      if denied.Some? {
        return;
      }
      left := left - p.charge(item);
      g := Take(zone, item, g, p.decode);
    }
    assert evidence[..|evidence|] == evidence;
  }

  // ---------- hashing against the budget ----------

  class Hasher {
    const hash: Name -> Octets
    const cost: nat
    ghost const granted: nat
    var budget: nat
    var known: map<Name, Octets>

    /** Every name is charged once, and charged before it is hashed. */
    ghost predicate Valid()
      reads this
    {
      && (forall n | n in known :: known[n] == hash(n))
      && granted == budget + Price(cost, |known|)
    }

    /** What was granted does not pay for hashing these names. */
    ghost predicate Short(names: set<Name>) { granted < Price(cost, |names|) }

    lemma ShortMore(names: set<Name>, more: set<Name>)
      requires Short(names) && names <= more
      ensures Short(more)
    {
      Fewer(names, more);
      MorePrice(cost, |names|, |more|);
    }

    constructor (hash: Name -> Octets, cost: nat, budget: nat)
      ensures Valid() && this.hash == hash && this.cost == cost && this.budget == budget == granted && known == map[]
    {
      this.hash, this.cost, this.granted := hash, cost, budget;
      this.budget, this.known := budget, map[];
    }

    method Hashed(name: Name) returns (r: Option<Octets>)
      requires Valid()
      modifies this
      ensures Valid()
      ensures r.None? <==> name !in old(known) && old(budget) < cost
      ensures r.Some? ==> r.value == hash(name) && known == old(known)[name := r.value]
      ensures r.None? ==> known == old(known) && budget == old(budget)
      ensures budget <= old(budget) <= budget + cost
      ensures if r.Some? then known.Keys == old(known.Keys) + {name} else Short(old(known.Keys) + {name})
    {
      if name !in known {
        if budget < cost {
          ghost var more := known.Keys + {name};
          assert more - {name} == known.Keys;
          return None;
        }
        budget := budget - cost;
        known := known[name := hash(name)];
        assert |known| == |old(known)| + 1;
      }
      r := Some(known[name]);
      assert known == old(known)[name := r.value];
    }
  }

  lemma Fewer(a: set<Name>, b: set<Name>)
    requires a <= b
    ensures |a| <= |b|
  {
    assert b == a + (b - a);
  }

  /** The name a lookup or a covering test hashes. */
  function Hashes(f: Facts, name: Name): set<Name> { if f.nsec != [] then {} else {name} }

  predicate KnownAt(f: Facts, name: Name) { if f.nsec != [] then f.Endpoint(name) else f.Exact(name).Some? }

  /** The names hashed on the way from a name towards the apex. */
  function WalkHashes(f: Facts, name: Name): set<Name>
    requires AtOrBelow(name, f.zone)
    decreases |name|
  {
    Hashes(f, name) + if KnownAt(f, name) || name == f.zone then {} else WalkHashes(f, Parent(name))
  }

  /** The names hashed once the encloser is known: its own, then the next closer one, then its
      wildcard, as far as the answer needs them. */
  function EncloserHashes(f: Facts, qname: Name, kind: Kind, closest: Option<Name>): set<Name> {
    if closest.None? || closest.value == qname then {}
    else
      var record := f.Exact(closest.value);
      Hashes(f, closest.value)
      + if record.Some? && !Authoritative(record.value) then {}
        else Hashes(f, NextCloser(qname, closest.value)) + StarHashes(f, qname, kind, closest.value)
  }

  function StarHashes(f: Facts, qname: Name, kind: Kind, encloser: Name): set<Name> {
    if f.Covering(NextCloser(qname, encloser)).Some? && (kind == NxDomain || kind == WildcardNoData)
    then Hashes(f, Wildcard(encloser)) else {}
  }

  function AbsenceHashes(f: Facts, qname: Name, kind: Kind, wildcard: Option<Name>): set<Name>
    requires AtOrBelow(qname, f.zone)
  {
    if kind == WildcardKind then
      if !WildcardInScope(f.zone, qname, wildcard) then {}
      else EncloserHashes(f, qname, kind, Some(Parent(wildcard.value)))
    else
      WalkHashes(f, qname) + EncloserHashes(f, qname, kind, f.Closest(qname))
  }

  /** Every name the validator hashes to answer the question. */
  function QuestionHashes(f: Facts, qname: Name, kind: Kind, wildcard: Option<Name>): set<Name>
    requires AtOrBelow(qname, f.zone)
  {
    Hashes(f, qname) + if f.Exact(qname).Some? then {} else AbsenceHashes(f, qname, kind, wildcard)
  }

  /** What it costs to hash this many names. */
  function Price(cost: nat, names: nat): nat {
    if names == 0 then 0 else cost + Price(cost, names - 1)
  }

  /** A budget that pays for the question, every ancestor up to the apex, and four more names. */
  function Enough(cost: nat, zone: Name, qname: Name): nat
    requires AtOrBelow(qname, zone)
  {
    Price(cost, |qname| - |zone| + 6)
  }

  /** One charge per hash computation, and one for each further iteration. */
  function HashCost(g: Gathered): nat {
    if g.parameters.Some? then g.parameters.value.iterations + 1 else 0
  }

  /** These names have been hashed besides those before, or else they could not all be paid for. */
  ghost predicate Charged(hasher: Hasher, before: set<Name>, names: set<Name>, paid: bool)
    reads hasher`known
  {
    if paid then hasher.known.Keys == before + names else hasher.Short(before + names)
  }

  /** Two stretches of hashing, one after the other. */
  lemma ChargedOn(hasher: Hasher, before: set<Name>, first: set<Name>, second: set<Name>, paid: bool)
    requires Charged(hasher, before + first, second, paid)
    ensures Charged(hasher, before, first + second, paid)
  {
    assert before + first + second == before + (first + second);
  }

  /** What was too much already stays so. */
  lemma ChargedShort(hasher: Hasher, before: set<Name>, first: set<Name>, second: set<Name>)
    requires Charged(hasher, before, first, false)
    ensures Charged(hasher, before, first + second, false)
  {
    hasher.ShortMore(before + first, before + (first + second));
  }

  /** One lookup: an answer, or None when the budget ran out before the name was hashed. */
  method Exact(f: Facts, hasher: Hasher, name: Name) returns (r: Option<Option<seq<Window>>>)
    requires hasher.Valid() && hasher.hash == f.hash
    modifies hasher
    ensures hasher.Valid() && hasher.budget <= old(hasher.budget)
    ensures r.Some? ==> r.value == f.Exact(name)
    ensures r.None? ==> f.nsec == []
    ensures Charged(hasher, old(hasher.known.Keys), Hashes(f, name), r.Some?)
  {
    if f.nsec != [] {
      return Some(f.Exact(name));
    }
    var h := hasher.Hashed(name);
    if h.None? {
      return None;
    }
    var found := ExactNsec3(f.nsec3, h.value);
    r := Some(if found.Some? then Some(found.value.windows) else None);
  }

  method Covering(f: Facts, hasher: Hasher, name: Name) returns (r: Option<Option<bool>>)
    requires hasher.Valid() && hasher.hash == f.hash
    modifies hasher
    ensures hasher.Valid() && hasher.budget <= old(hasher.budget)
    ensures r.Some? ==> r.value == f.Covering(name)
    ensures r.None? ==> f.nsec == []
    ensures Charged(hasher, old(hasher.known.Keys), Hashes(f, name), r.Some?)
  {
    if f.nsec != [] {
      for i := 0 to |f.nsec|
        invariant CoveringNsec(f.zone, f.nsec, name) == CoveringNsec(f.zone, f.nsec[i..], name)
      {
        if Covers(f.zone, f.nsec[i], name) {
          return Some(Some(false));
        }
      }
      return Some(None);
    }
    var h := hasher.Hashed(name);
    if h.None? {
      return None;
    }
    for i := 0 to |f.nsec3|
      invariant CoveringNsec3(f.nsec3, h.value) == CoveringNsec3(f.nsec3[i..], h.value)
    {
      if Covers3(f.nsec3[i], h.value) {
        return Some(Some(f.nsec3[i].optOut));
      }
    }
    r := Some(None);
  }

  /** Whether the name is known to exist: below it or at it an endpoint, or its own hashed record. */
  method Known(f: Facts, hasher: Hasher, name: Name) returns (r: Option<bool>)
    requires hasher.Valid() && hasher.hash == f.hash
    modifies hasher
    ensures hasher.Valid() && hasher.budget <= old(hasher.budget)
    ensures r.Some? ==> r.value == KnownAt(f, name)
    ensures r.None? ==> f.nsec == []
    ensures Charged(hasher, old(hasher.known.Keys), Hashes(f, name), r.Some?)
  {
    if f.nsec != [] {
      return Some(f.Endpoint(name));
    }
    var record := Exact(f, hasher, name);
    r := if record.Some? then Some(record.value.Some?) else None;
  }

  lemma ClosestStep(f: Facts, name: Name)
    requires AtOrBelow(name, f.zone)
    ensures KnownAt(f, name) ==> f.Closest(name) == Some(name)
    ensures !KnownAt(f, name) ==>
      if name == f.zone then f.Closest(name) == None
      else |name| > |f.zone| && AtOrBelow(Parent(name), f.zone) && f.Closest(name) == f.Closest(Parent(name))
  {
  }

  /** One name on the way towards the apex. */
  method Try(f: Facts, hasher: Hasher, name: Name, ghost before: set<Name>, ghost qname: Name, ghost done: set<Name>)
    returns (known: Option<bool>)
    requires hasher.Valid() && hasher.hash == f.hash && AtOrBelow(qname, f.zone)
    requires OnTheWay(f, qname, name, done) && hasher.known.Keys == before + done
    modifies hasher
    ensures hasher.Valid() && hasher.budget <= old(hasher.budget)
    ensures known.None? ==> f.nsec == []
    ensures known.None? || known.value || name == f.zone ==> Charged(hasher, before, WalkHashes(f, qname), known.Some?)
    ensures known == Some(true) ==> f.Closest(name) == Some(name)
    ensures known == Some(false) && name == f.zone ==> f.Closest(name) == None
    ensures known == Some(false) && name != f.zone ==>
              && |name| > 0 && OnTheWay(f, qname, Parent(name), done + Hashes(f, name))
              && hasher.known.Keys == before + (done + Hashes(f, name)) && f.Closest(name) == f.Closest(Parent(name))
  {
    known := Known(f, hasher, name);
    Walked(f, hasher, before, qname, done, name, known);
    ClosestStep(f, name);
  }

  /** Walks from the question towards the apex. */
  method Closest(f: Facts, hasher: Hasher, qname: Name) returns (r: Option<Option<Name>>)
    requires hasher.Valid() && hasher.hash == f.hash && AtOrBelow(qname, f.zone)
    modifies hasher
    ensures hasher.Valid() && hasher.budget <= old(hasher.budget)
    ensures r.Some? ==> r.value == f.Closest(qname)
    ensures r.None? ==> f.nsec == []
    ensures Charged(hasher, old(hasher.known.Keys), WalkHashes(f, qname), r.Some?)
  {
    var name := qname;
    ghost var want := f.Closest(qname);
    ghost var done: set<Name> := {};
    while true
      invariant hasher.Valid() && hasher.budget <= old(hasher.budget) && f.Closest(name) == want
      invariant OnTheWay(f, qname, name, done) && hasher.known.Keys == old(hasher.known.Keys) + done
      decreases |name|
    {
      var known := Try(f, hasher, name, old(hasher.known.Keys), qname, done);
      if known.None? {
        return None;
      }
      if known.value {
        return Some(Some(name));
      }
      if name == f.zone {
        return Some(None);
      }
      done := done + Hashes(f, name);
      name := Parent(name);
    }
  }

  /** These were hashed on the way from the question to this name. */
  ghost predicate OnTheWay(f: Facts, qname: Name, name: Name, done: set<Name>)
    requires AtOrBelow(qname, f.zone)
  {
    AtOrBelow(name, f.zone) && WalkHashes(f, qname) == done + WalkHashes(f, name)
  }

  /** One more name on the way. */
  lemma Walked(f: Facts, hasher: Hasher, before: set<Name>, qname: Name, done: set<Name>, name: Name,
               known: Option<bool>)
    requires AtOrBelow(qname, f.zone) && OnTheWay(f, qname, name, done)
    requires Charged(hasher, before + done, Hashes(f, name), known.Some?)
    requires known.Some? ==> known.value == KnownAt(f, name)
    ensures known.None? || known.value || name == f.zone ==> Charged(hasher, before, WalkHashes(f, qname), known.Some?)
    ensures known == Some(false) && name != f.zone ==>
              && |name| > 0 && OnTheWay(f, qname, Parent(name), done + Hashes(f, name))
              && hasher.known.Keys == before + (done + Hashes(f, name))
  {
    ChargedOn(hasher, before, done, Hashes(f, name), known.Some?);
    OnTheWayMore(f, qname, name, done);
    if known.None? {
      ChargedShort(hasher, before, done + Hashes(f, name), WalkHashes(f, name));
    }
  }

  lemma OnTheWayMore(f: Facts, qname: Name, name: Name, done: set<Name>)
    requires AtOrBelow(qname, f.zone) && OnTheWay(f, qname, name, done)
    ensures done + Hashes(f, name) + WalkHashes(f, name) == WalkHashes(f, qname)
    ensures KnownAt(f, name) || name == f.zone ==> done + Hashes(f, name) == WalkHashes(f, qname)
    ensures !KnownAt(f, name) && name != f.zone ==>
              |name| > 0 && OnTheWay(f, qname, Parent(name), done + Hashes(f, name))
  {
    if !KnownAt(f, name) && name != f.zone {
      ClosestStep(f, name);
      assert done + WalkHashes(f, name) == done + Hashes(f, name) + WalkHashes(f, Parent(name));
    }
  }

  lemma {:induction false} MorePrice(cost: nat, few: nat, many: nat)
    requires few <= many
    ensures Price(cost, few) <= Price(cost, many)
  {
    if few > 0 { MorePrice(cost, few - 1, many - 1); }
  }

  // ---------- the validator ----------

  /** What hashing the names that the question asks for takes from the budget. */
  function HashingPrice(zone: Name, qname: Name, kind: Kind, g: Gathered, hash: (Name, Parameters) -> Octets,
                        wildcard: Option<Name>): nat
    requires AtOrBelow(qname, zone)
  {
    if g.malformed || (g.nsec != [] && g.nsec3 != []) || (g.nsec == [] && g.nsec3 == []) then 0
    else Price(HashCost(g), |QuestionHashes(FactsOf(zone, g, hash), qname, kind, wildcard)|)
  }

  /** The budget pays for the checks of all sets and then for the hashing. */
  ghost predicate Affords(zone: Name, qname: Name, kind: Kind, evidence: seq<Evidence>, p: Primitives, budget: nat,
                          wildcard: Option<Name>)
    requires AtOrBelow(qname, zone)
  {
    budget >= Spent(evidence, p.charge, |evidence|)
              + HashingPrice(zone, qname, kind, Gather(zone, evidence, p.decode), p.hash, wildcard)
  }

  /** It refuses exactly what is out of scope, what the first unacceptable set calls for, or what the
      budget cannot pay for; otherwise it concludes what `Conclude` says, and what it took from the
      budget is exactly the checks of all sets and the hashing of every name asked for, each once. */
  method ValidateDenial(zone: Name, qname: Name, qtype: RType, kind: Kind, evidence: seq<Evidence>,
                        primitives: Primitives, budget: nat, wildcard: Option<Name>)
    returns (r: Outcome, left: nat)
    ensures !InScope(zone, qname, qtype, kind, evidence) <==> r == Raised(ScopeOrLimit)
    ensures r.Concluded? <==>
              && InScope(zone, qname, qtype, kind, evidence)
              && Passes(evidence, primitives.charge, budget, |evidence|)
              && Affords(zone, qname, kind, evidence, primitives, budget, wildcard)
    ensures r.Concluded? ==>
              var g := Gather(zone, evidence, primitives.decode);
              && r.proof == Conclude(zone, qname, qtype, kind, g, primitives.hash, wildcard)
              && left == budget - Spent(evidence, primitives.charge, |evidence|)
                         - HashingPrice(zone, qname, kind, g, primitives.hash, wildcard)
    ensures r.Raised? && r.why != ScopeOrLimit ==>
              || Stops(evidence, primitives.charge, budget, r.why)
              || (r.why == BudgetExhausted && Passes(evidence, primitives.charge, budget, |evidence|))
    ensures left <= budget
  {
    left := budget;
    if !InScope(zone, qname, qtype, kind, evidence) {
      return Raised(ScopeOrLimit), left;
    }
    var g, denied;
    g, denied, left := GatherAll(zone, evidence, primitives, budget);
    if denied.Some? {
      StopsOnce(evidence, primitives.charge, budget, denied.value);
      return Raised(denied.value), left;
    }
    GatheredParameters(zone, evidence, primitives.decode);
    r, left := ConcludeFrom(zone, qname, qtype, kind, g, primitives.hash, left, wildcard);
  }

  method ConcludeFrom(zone: Name, qname: Name, qtype: RType, kind: Kind, g: Gathered,
                      hash: (Name, Parameters) -> Octets, budget: nat, wildcard: Option<Name>)
    returns (r: Outcome, left: nat)
    requires AtOrBelow(qname, zone) && (g.nsec3 != [] ==> g.parameters.Some?)
    ensures r.Concluded? <==> budget >= HashingPrice(zone, qname, kind, g, hash, wildcard)
    ensures r.Concluded? ==>
              && r.proof == Conclude(zone, qname, qtype, kind, g, hash, wildcard)
              && left == budget - HashingPrice(zone, qname, kind, g, hash, wildcard)
    ensures r.Raised? ==> r.why == BudgetExhausted
    ensures left <= budget
  {
    left := budget;
    if g.malformed || (g.nsec != [] && g.nsec3 != []) {
      return Concluded(Limited(Inconsistent)), left;
    }
    if g.nsec == [] && g.nsec3 == [] {
      return Concluded(Limited(NoEvidence)), left;
    }
    var proof;
    proof, left := Answer(FactsOf(zone, g, hash), HashCost(g), qname, qtype, kind, budget, wildcard);
    r := if proof.Some? then Concluded(proof.value) else Raised(BudgetExhausted);
  }

  /** A hasher of its own for the question. */
  method Answer(f: Facts, cost: nat, qname: Name, qtype: RType, kind: Kind, budget: nat, wildcard: Option<Name>)
    returns (r: Option<Proof>, left: nat)
    requires AtOrBelow(qname, f.zone)
    ensures r.Some? <==> budget >= Price(cost, |QuestionHashes(f, qname, kind, wildcard)|)
    ensures r.Some? ==>
              && r.value == Decide(f, qname, qtype, kind, wildcard)
              && left == budget - Price(cost, |QuestionHashes(f, qname, kind, wildcard)|)
    ensures left <= budget
  {
    ghost var all := QuestionHashes(f, qname, kind, wildcard);
    var hasher := new Hasher(f.hash, cost, budget);
    r := Run(f, hasher, qname, qtype, kind, wildcard);
    left := hasher.budget;
    assert {} + all == all;
    if r.Some? { KnownCount(hasher, all); }
  }

  lemma KnownCount(hasher: Hasher, all: set<Name>)
    requires hasher.Valid() && hasher.known.Keys == all
    ensures hasher.granted == hasher.budget + Price(hasher.cost, |all|)
  {
    assert |hasher.known| == |hasher.known.Keys|;
  }

  method Run(f: Facts, hasher: Hasher, qname: Name, qtype: RType, kind: Kind, wildcard: Option<Name>)
    returns (r: Option<Proof>)
    requires hasher.Valid() && hasher.hash == f.hash && AtOrBelow(qname, f.zone)
    modifies hasher
    ensures hasher.Valid() && hasher.budget <= old(hasher.budget)
    ensures r.Some? ==> r.value == Decide(f, qname, qtype, kind, wildcard)
    ensures r.None? ==> f.nsec == []
    ensures Charged(hasher, old(hasher.known.Keys), QuestionHashes(f, qname, kind, wildcard), r.Some?)
  {
    ghost var before, all := hasher.known.Keys, QuestionHashes(f, qname, kind, wildcard);
    var matching := Exact(f, hasher, qname);
    if matching.None? {
      ChargedShort(hasher, before, Hashes(f, qname), all);
      assert Hashes(f, qname) + all == all;
      return None;
    }
    if matching.value.Some? {
      assert Hashes(f, qname) == all;
      return Some(OnMatch(matching.value.value, qtype, kind));
    }
    r := RunOnAbsence(f, hasher, qname, qtype, kind, wildcard);
    ChargedOn(hasher, before, Hashes(f, qname), AbsenceHashes(f, qname, kind, wildcard), r.Some?);
  }

  method RunOnAbsence(f: Facts, hasher: Hasher, qname: Name, qtype: RType, kind: Kind, wildcard: Option<Name>)
    returns (r: Option<Proof>)
    requires hasher.Valid() && hasher.hash == f.hash && AtOrBelow(qname, f.zone)
    modifies hasher
    ensures hasher.Valid() && hasher.budget <= old(hasher.budget)
    ensures r.Some? ==> r.value == OnAbsence(f, qname, qtype, kind, wildcard)
    ensures r.None? ==> f.nsec == []
    ensures Charged(hasher, old(hasher.known.Keys), AbsenceHashes(f, qname, kind, wildcard), r.Some?)
  {
    if kind != WildcardKind {
      r := RunFromClosest(f, hasher, qname, qtype, kind);
    } else if WildcardInScope(f.zone, qname, wildcard) {
      r := RunWithEncloser(f, hasher, qname, qtype, kind, Some(Parent(wildcard.value)));
    } else {
      r := Some(Limited(WildcardScope));
    }
  }

  method RunFromClosest(f: Facts, hasher: Hasher, qname: Name, qtype: RType, kind: Kind) returns (r: Option<Proof>)
    requires hasher.Valid() && hasher.hash == f.hash && AtOrBelow(qname, f.zone) && kind != WildcardKind
    modifies hasher
    ensures hasher.Valid() && hasher.budget <= old(hasher.budget)
    ensures r.Some? ==> r.value == OnAbsence(f, qname, qtype, kind, None)
    ensures r.None? ==> f.nsec == []
    ensures Charged(hasher, old(hasher.known.Keys), AbsenceHashes(f, qname, kind, None), r.Some?)
  {
    ghost var before, rest := hasher.known.Keys, EncloserHashes(f, qname, kind, f.Closest(qname));
    var closest := Closest(f, hasher, qname);
    if closest.None? {
      ChargedShort(hasher, before, WalkHashes(f, qname), rest);
      return None;
    }
    r := RunBelowClosest(f, hasher, qname, qtype, kind, closest.value);
    ChargedOn(hasher, before, WalkHashes(f, qname), rest, r.Some?);
  }

  /** The name itself may be an empty non-terminal; otherwise its encloser decides. */
  method RunBelowClosest(f: Facts, hasher: Hasher, qname: Name, qtype: RType, kind: Kind, closest: Option<Name>)
    returns (r: Option<Proof>)
    requires hasher.Valid() && hasher.hash == f.hash && kind != WildcardKind && closest == f.Closest(qname)
    modifies hasher
    ensures hasher.Valid() && hasher.budget <= old(hasher.budget)
    ensures r.Some? ==> r.value == OnAbsence(f, qname, qtype, kind, None)
    ensures r.None? ==> f.nsec == []
    ensures Charged(hasher, old(hasher.known.Keys), EncloserHashes(f, qname, kind, closest), r.Some?)
  {
    if f.nsec != [] && closest == Some(qname) {
      var covered := Covering(f, hasher, qname);
      assert covered.Some?;
      return Some(Proof(kind == NoDataKind && covered.value.Some?, false, closest, NoLimitation));
    }
    r := RunWithEncloser(f, hasher, qname, qtype, kind, closest);
  }

  method RunWithEncloser(f: Facts, hasher: Hasher, qname: Name, qtype: RType, kind: Kind, closest: Option<Name>)
    returns (r: Option<Proof>)
    requires hasher.Valid() && hasher.hash == f.hash
    modifies hasher
    ensures hasher.Valid() && hasher.budget <= old(hasher.budget)
    ensures r.Some? ==> r.value == WithEncloser(f, qname, qtype, kind, closest)
    ensures r.None? ==> f.nsec == []
    ensures Charged(hasher, old(hasher.known.Keys), EncloserHashes(f, qname, kind, closest), r.Some?)
  {
    if closest.None? || closest.value == qname {
      return Some(Limited(EncloserMissing));
    }
    ghost var before := hasher.known.Keys;
    var record := Exact(f, hasher, closest.value);
    if record.None? {
      EncloserShort(f, hasher, before, qname, kind, closest.value);
      return None;
    }
    if record.value.Some? && !Authoritative(record.value.value) {
      assert Hashes(f, closest.value) + {} == EncloserHashes(f, qname, kind, closest);
      return Some(Valid(false));
    }
    r := RunNextCloser(f, hasher, qname, qtype, kind, closest.value);
    ChargedOn(hasher, before, Hashes(f, closest.value),
              Hashes(f, NextCloser(qname, closest.value)) + StarHashes(f, qname, kind, closest.value), r.Some?);
  }

  lemma EncloserShort(f: Facts, hasher: Hasher, before: set<Name>, qname: Name, kind: Kind, encloser: Name)
    requires encloser != qname && Charged(hasher, before, Hashes(f, encloser), false)
    ensures Charged(hasher, before, EncloserHashes(f, qname, kind, Some(encloser)), false)
  {
    var all := EncloserHashes(f, qname, kind, Some(encloser));
    ChargedShort(hasher, before, Hashes(f, encloser), all);
    assert Hashes(f, encloser) + all == all;
  }

  /** Once the encloser is settled: the next closer name must be covered. */
  method RunNextCloser(f: Facts, hasher: Hasher, qname: Name, qtype: RType, kind: Kind, encloser: Name)
    returns (r: Option<Proof>)
    requires hasher.Valid() && hasher.hash == f.hash && encloser != qname
    requires f.Exact(encloser).Some? ==> Authoritative(f.Exact(encloser).value)
    modifies hasher
    ensures hasher.Valid() && hasher.budget <= old(hasher.budget)
    ensures r.Some? ==> r.value == WithEncloser(f, qname, qtype, kind, Some(encloser))
    ensures r.None? ==> f.nsec == []
    ensures Charged(hasher, old(hasher.known.Keys),
                    Hashes(f, NextCloser(qname, encloser)) + StarHashes(f, qname, kind, encloser), r.Some?)
  {
    ghost var before, nc, star := hasher.known.Keys, NextCloser(qname, encloser), StarHashes(f, qname, kind, encloser);
    var covering := Covering(f, hasher, NextCloser(qname, encloser));
    if covering.None? {
      ChargedShort(hasher, before, Hashes(f, nc), star);
      return None;
    }
    if covering.value.None? {
      assert Hashes(f, nc) + star == Hashes(f, nc);
      return Some(Limited(NextCloserMissing));
    }
    KindDecides(f, qname, qtype, kind, encloser, covering.value.value);
    r := RunKind(f, hasher, qname, qtype, kind, encloser, covering.value.value);
    ChargedOn(hasher, before, Hashes(f, nc), star, r.Some?);
  }

  /** The result of each kind of question, once the next closer name is covered. */
  function OfKind(f: Facts, qtype: RType, kind: Kind, encloser: Name, optOut: bool): Proof {
    var closest := Some(encloser);
    match kind
    case WildcardKind => Proof(true, optOut, closest, NoLimitation)
    case UnsignedDelegation => Proof(f.nsec3 != [] && optOut, optOut, closest, NoLimitation)
    case NoDataKind =>
      if qtype == DS then Proof(f.nsec3 != [] && optOut, optOut, closest, NoLimitation) else Valid(false)
    case NxDomain => Proof(f.Covering(Wildcard(encloser)).Some?, optOut, closest, NoLimitation)
    case WildcardNoData =>
      var star := f.Exact(Wildcard(encloser));
      Proof(star.Some? && NoData(star.value, qtype), optOut, closest, NoLimitation)
  }

  lemma KindDecides(f: Facts, qname: Name, qtype: RType, kind: Kind, encloser: Name, optOut: bool)
    requires encloser != qname && f.Covering(NextCloser(qname, encloser)) == Some(optOut)
    requires f.Exact(encloser).Some? ==> Authoritative(f.Exact(encloser).value)
    ensures WithEncloser(f, qname, qtype, kind, Some(encloser)) == OfKind(f, qtype, kind, encloser, optOut)
  {
  }

  method RunKind(f: Facts, hasher: Hasher, qname: Name, qtype: RType, kind: Kind, encloser: Name, optOut: bool)
    returns (r: Option<Proof>)
    requires hasher.Valid() && hasher.hash == f.hash && f.Covering(NextCloser(qname, encloser)).Some?
    modifies hasher
    ensures hasher.Valid() && hasher.budget <= old(hasher.budget)
    ensures r.Some? ==> r.value == OfKind(f, qtype, kind, encloser, optOut)
    ensures r.None? ==> f.nsec == []
    ensures Charged(hasher, old(hasher.known.Keys), StarHashes(f, qname, kind, encloser), r.Some?)
  {
    var closest := Some(encloser);
    if kind == WildcardKind {
      return Some(Proof(true, optOut, closest, NoLimitation));
    }
    if kind == UnsignedDelegation || (kind == NoDataKind && qtype == DS) {
      return Some(Proof(f.nsec3 != [] && optOut, optOut, closest, NoLimitation));
    }
    var star := Wildcard(encloser);
    if kind == NxDomain {
      var covered := Covering(f, hasher, star);
      if covered.None? {
        return None;
      }
      return Some(Proof(covered.value.Some?, optOut, closest, NoLimitation));
    }
    if kind == WildcardNoData {
      var found := Exact(f, hasher, star);
      if found.None? {
        return None;
      }
      return Some(Proof(found.value.Some? && NoData(found.value.value, qtype), optOut, closest, NoLimitation));
    }
    r := Some(Valid(false));
  }

  lemma {:induction false} WalkHashesFew(f: Facts, name: Name)
    requires AtOrBelow(name, f.zone)
    ensures |WalkHashes(f, name)| <= |name| - |f.zone| + 1
    decreases |name|
  {
    if !KnownAt(f, name) && name != f.zone {
      WalkHashesFew(f, Parent(name));
      Union(Hashes(f, name), WalkHashes(f, Parent(name)));
    }
  }

  lemma Union(a: set<Name>, b: set<Name>)
    ensures |a + b| <= |a| + |b|
  {
    assert a + b == a + (b - a);
    Fewer(b - a, b);
  }

  lemma EncloserHashesFew(f: Facts, qname: Name, kind: Kind, closest: Option<Name>)
    ensures |EncloserHashes(f, qname, kind, closest)| <= 3
  {
    if closest.Some? && closest.value != qname {
      Union(Hashes(f, NextCloser(qname, closest.value)), StarHashes(f, qname, kind, closest.value));
      Union(Hashes(f, closest.value),
            Hashes(f, NextCloser(qname, closest.value)) + StarHashes(f, qname, kind, closest.value));
    }
  }

  /** Hashing never costs more than the question, every ancestor up to the apex and four further names. */
  lemma EnoughPays(f: Facts, qname: Name, kind: Kind, wildcard: Option<Name>, cost: nat)
    requires AtOrBelow(qname, f.zone)
    ensures Price(cost, |QuestionHashes(f, qname, kind, wildcard)|) <= Enough(cost, f.zone, qname)
  {
    AbsenceHashesFew(f, qname, kind, wildcard);
    Union(Hashes(f, qname), AbsenceHashes(f, qname, kind, wildcard));
    MorePrice(cost, |QuestionHashes(f, qname, kind, wildcard)|, |qname| - |f.zone| + 6);
  }

  lemma AbsenceHashesFew(f: Facts, qname: Name, kind: Kind, wildcard: Option<Name>)
    requires AtOrBelow(qname, f.zone)
    ensures |AbsenceHashes(f, qname, kind, wildcard)| <= |qname| - |f.zone| + 5
  {
    if kind == WildcardKind {
      if WildcardInScope(f.zone, qname, wildcard) {
        EncloserHashesFew(f, qname, kind, Some(Parent(wildcard.value)));
      }
    } else {
      WalkHashesFew(f, qname);
      EncloserHashesFew(f, qname, kind, f.Closest(qname));
      Union(WalkHashes(f, qname), EncloserHashes(f, qname, kind, f.Closest(qname)));
    }
  }

  // ---------- from authentic evidence to honest facts ----------

  lemma {:induction false} GatheredParameters(zone: Name, evidence: seq<Evidence>, decode: Octets -> Option<Octets>)
    ensures Gather(zone, evidence, decode).nsec3 != [] ==> Gather(zone, evidence, decode).parameters.Some?
  {
    if evidence != [] { GatheredParameters(zone, evidence[..|evidence| - 1], decode); }
  }

  /** What the signature oracle promises: a verified, unexpanded NSEC set is one the zone published. */
  ghost predicate Authentic(z: Zone, evidence: seq<Evidence>) {
    forall item | item in evidence && Usable(item) && |item.records| == 1 && item.records[0].RawNsec? ::
      exists i: nat :: ChainRecord(z, Nsec(item.name, item.records[0].next, item.records[0].windows), i)
  }

  lemma {:induction false} GatheredHonest(z: Zone, evidence: seq<Evidence>, decode: Octets -> Option<Octets>)
    requires Authentic(z, evidence)
    ensures Honest(z, Gather(z.apex, evidence, decode).nsec)
  {
    if evidence != [] {
      var front := evidence[..|evidence| - 1];
      var item := evidence[|evidence| - 1];
      assert item in evidence && forall e | e in front :: e in evidence;
      GatheredHonest(z, front, decode);
    }
  }

  /** One NSEC3 record of the chain the zone publishes for these parameters. */
  ghost predicate Published3(z: Zone, chain: seq<Name>, h: Name -> Octets, r: Nsec3) {
    exists i: nat :: ChainRecord3(z, chain, h, r, i)
  }

  ghost predicate Authentic3(z: Zone, chains: Parameters -> seq<Name>, evidence: seq<Evidence>, p: Primitives) {
    forall item | item in evidence && Usable(item) && |item.records| == 1 && item.records[0].RawNsec3? ::
      var r := item.records[0];
      var owner := Decoded(z.apex, item, r, p.decode);
      r.algorithm == 1 && r.flags <= 1 && owner.Some? ==>
        Published3(z, chains(r.parameters), HashWith(p.hash, r.parameters),
                   Nsec3(owner.value, r.nextHash, r.flags == 1, r.windows3))
  }

  ghost predicate Gathered3(z: Zone, chains: Parameters -> seq<Name>, g: Gathered, p: Primitives) {
    g.parameters.Some? ==>
      forall r | r in g.nsec3 :: Published3(z, chains(g.parameters.value), HashWith(p.hash, g.parameters.value), r)
  }

  lemma {:induction false} GatheredHonest3(z: Zone, chains: Parameters -> seq<Name>, evidence: seq<Evidence>,
                                           p: Primitives)
    requires Authentic3(z, chains, evidence, p)
    ensures Gathered3(z, chains, Gather(z.apex, evidence, p.decode), p)
    ensures Gather(z.apex, evidence, p.decode).parameters.None? ==> Gather(z.apex, evidence, p.decode).nsec3 == []
  {
    if evidence != [] {
      var front := evidence[..|evidence| - 1];
      var item := evidence[|evidence| - 1];
      assert item in evidence && forall e | e in front :: e in evidence;
      GatheredHonest3(z, chains, front, p);
      var before := Gather(z.apex, front, p.decode);
      var after := Gather(z.apex, evidence, p.decode);
      if after.nsec3 != before.nsec3 {
        var params := item.records[0].parameters;
        forall r | r in after.nsec3
          ensures Published3(z, chains(params), HashWith(p.hash, params), r)
        {
          if r in before.nsec3 { assert before.parameters == Some(params); }
        }
      }
    }
  }

  /** The parameters gathered, if any, belong to a hash chain of the zone, and no two names that
      the proof compares collide under them. */
  ghost predicate Hashed(z: Zone, chains: Parameters -> seq<Name>, qname: Name, used: Option<Parameters>,
                         p: Primitives) {
    used.Some? ==>
      var h := HashWith(p.hash, used.value);
      HashChain(z, chains(used.value), h) && CollisionFree(z, qname, h)
  }

  /** Gathered records of the second family are the zone's own chain. */
  lemma GatheredSetting(z: Zone, chains: Parameters -> seq<Name>, qname: Name, evidence: seq<Evidence>, p: Primitives)
    requires WellFormed(z) && AtOrBelow(qname, z.apex) && Authentic3(z, chains, evidence, p)
    requires Hashed(z, chains, qname, Gather(z.apex, evidence, p.decode).parameters, p)
    ensures var g := Gather(z.apex, evidence, p.decode);
            g.nsec == [] && g.nsec3 != [] ==>
              g.parameters.Some? && Setting(z, chains(g.parameters.value), FactsOf(z.apex, g, p.hash), qname)
  {
    var g := Gather(z.apex, evidence, p.decode);
    var f := FactsOf(z.apex, g, p.hash);
    GatheredHonest3(z, chains, evidence, p);
    if g.nsec3 != [] {
      var chain := chains(g.parameters.value);
      forall r | r in g.nsec3 ensures exists i: nat :: ChainRecord3(z, chain, f.hash, r, i) {
        assert Published3(z, chain, f.hash, r);
      }
    }
  }

  // ---------- the theorems on whole validations ----------

  /** Soundness of a name-error conclusion reached from authentic evidence of either family. */
  lemma ConcludedNameError(z: Zone, chains: Parameters -> seq<Name>, qname: Name, qtype: RType,
                           evidence: seq<Evidence>, p: Primitives, wildcard: Option<Name>)
    requires WellFormed(z) && AtOrBelow(qname, z.apex)
    requires Authentic(z, evidence) && Authentic3(z, chains, evidence, p)
    requires Hashed(z, chains, qname, Gather(z.apex, evidence, p.decode).parameters, p)
    requires Conclude(z.apex, qname, qtype, NxDomain, Gather(z.apex, evidence, p.decode), p.hash, wildcard).valid
    ensures var d := Conclude(z.apex, qname, qtype, NxDomain, Gather(z.apex, evidence, p.decode), p.hash, wildcard);
            && d.closest.Some? && StrictlyBelow(qname, d.closest.value) && Exists(z, d.closest.value)
            && InsecureOnly(z, NextCloser(qname, d.closest.value))
            && (!d.optOut ==> ClosestEncloser(z, qname, d.closest.value) && !Exists(z, qname) && !UnderCut(z, qname))
            && (Owner(z, Wildcard(d.closest.value)) ==> InsecureOnly(z, Wildcard(d.closest.value)))
  {
    var g := Gather(z.apex, evidence, p.decode);
    var f := FactsOf(z.apex, g, p.hash);
    GatheredHonest(z, evidence, p.decode);
    if g.nsec != [] {
      NameErrorSound(z, f, qname, qtype, wildcard);
    } else {
      GatheredSetting(z, chains, qname, evidence, p);
      var chain := chains(g.parameters.value);
      Encloser3OfProof(z, chain, f, qname, qtype, NxDomain, wildcard);
      NameError3Sound(z, chain, f, qname, qtype, wildcard);
    }
  }

  /** A verified, unexpanded set that is this one NSEC record. */
  ghost predicate Carries(item: Evidence, r: Nsec) {
    Usable(item) && item.name == r.owner && item.records == [RawNsec(r.next, r.windows)]
  }

  /** Every verified, unexpanded set is one NSEC record, and no two have the same owner; the
      rest of the evidence is ignored. */
  ghost predicate Orderly(evidence: seq<Evidence>) {
    && (forall item | item in evidence && Usable(item) :: |item.records| == 1 && item.records[0].RawNsec?)
    && (forall i, j | 0 <= i < j < |evidence| && Usable(evidence[i]) && Usable(evidence[j]) ::
          evidence[i].name != evidence[j].name)
  }

  /** Each record kept came from an item, and each item's record was kept. */
  ghost predicate KeepsAll(evidence: seq<Evidence>, g: Gathered) {
    && !g.malformed && g.nsec3 == []
    && (forall r | r in g.nsec :: exists item :: item in evidence && Carries(item, r))
    && (forall item, r | item in evidence && Carries(item, r) :: r in g.nsec)
  }

  lemma {:induction false} GatherKeeps(z: Zone, evidence: seq<Evidence>, decode: Octets -> Option<Octets>)
    requires WellFormed(z) && Authentic(z, evidence) && Orderly(evidence)
    ensures KeepsAll(evidence, Gather(z.apex, evidence, decode))
  {
    if evidence != [] {
      var last := |evidence| - 1;
      var front, item := evidence[..last], evidence[last];
      assert evidence == front + [item];
      GatherKeeps(z, front, decode);
      AbsorbKeeps(z, front, Gather(z.apex, front, decode), item, decode);
    }
  }

  lemma AbsorbKeeps(z: Zone, front: seq<Evidence>, g: Gathered, item: Evidence, decode: Octets -> Option<Octets>)
    requires WellFormed(z) && Authentic(z, front + [item]) && Orderly(front + [item]) && KeepsAll(front, g)
    ensures KeepsAll(front + [item], Absorb(z.apex, g, item, decode))
  {
    var all, after := front + [item], Absorb(z.apex, g, item, decode);
    assert item in all && all[|front|] == item;
    if Usable(item) {
      var r := Nsec(item.name, item.records[0].next, item.records[0].windows);
      var k: nat :| ChainRecord(z, r, k);
      InChain(z, r, k);
      forall e, kept | e in front && Carries(e, kept) ensures kept.owner != item.name {
        var j :| 0 <= j < |front| && front[j] == e;
        assert all[j] == e;
      }
      assert after.nsec == g.nsec + [r] && Carries(item, r);
    }
    forall r | r in after.nsec ensures exists e :: e in all && Carries(e, r) {
      if r in g.nsec {
        var e :| e in front && Carries(e, r);
        assert e in all;
      }
    }
  }

  lemma InChain(z: Zone, r: Nsec, i: nat)
    requires WellFormed(z) && ChainRecord(z, r, i)
    ensures AtOrBelow(r.next, z.apex) && r.owner == z.nodes[i].name
  {
  }

  /** The evidence holds this record. */
  ghost predicate Holds(evidence: seq<Evidence>, r: Nsec) { exists item :: item in evidence && Carries(item, r) }

  /** Completeness through the validator's own gathering: for an absent name, any authentic and
      orderly evidence that holds the two records the zone serves is accepted, whatever else it holds. */
  lemma ConcludedNameErrorComplete(z: Zone, qname: Name, qtype: RType, c: Name, rn: Nsec, i: nat, rs: Nsec, s: nat,
                                   evidence: seq<Evidence>, p: Primitives, wildcard: Option<Name>)
    requires WellFormed(z) && ClosestEncloser(z, qname, c) && !UnderCut(z, qname) && !Owner(z, Wildcard(c))
    requires LastBefore(z, i, qname) && ChainRecord(z, rn, i) && Holds(evidence, rn)
    requires LastBefore(z, s, Wildcard(c)) && ChainRecord(z, rs, s) && Holds(evidence, rs)
    requires Authentic(z, evidence) && Orderly(evidence)
    ensures Conclude(z.apex, qname, qtype, NxDomain, Gather(z.apex, evidence, p.decode), p.hash, wildcard)
              == Proof(true, false, Some(c), NoLimitation)
  {
    var g := Gather(z.apex, evidence, p.decode);
    GatherKeeps(z, evidence, p.decode);
    GatheredHonest(z, evidence, p.decode);
    assert rn in g.nsec && rs in g.nsec;
    NameErrorComplete(z, FactsOf(z.apex, g, p.hash), qname, qtype, wildcard, c, rn, i, rs, s);
  }

  // ---------- the same for the hashed family ----------

  /** A verified, unexpanded set that is this one NSEC3 record with these parameters. */
  ghost predicate Carries3(zone: Name, item: Evidence, r: Nsec3, used: Parameters, decode: Octets -> Option<Octets>) {
    && Usable(item) && |item.records| == 1 && item.records[0].RawNsec3?
    && var raw := item.records[0];
       && raw.algorithm == 1 && raw.flags <= 1 && raw.parameters == used
       && Decoded(zone, item, raw, decode) == Some(r.owner)
       && r == Nsec3(r.owner, raw.nextHash, raw.flags == 1, raw.windows3)
  }

  ghost predicate Carrier(zone: Name, item: Evidence, used: Parameters, decode: Octets -> Option<Octets>) {
    exists r :: Carries3(zone, item, r, used, decode)
  }

  /** Every verified, unexpanded set is one NSEC3 record with these parameters, and no two have
      the same owner; the rest of the evidence is ignored. */
  ghost predicate Orderly3(zone: Name, evidence: seq<Evidence>, used: Parameters, decode: Octets -> Option<Octets>) {
    && (forall item | item in evidence && Usable(item) :: Carrier(zone, item, used, decode))
    && (forall i, j, a, b | 0 <= i < j < |evidence| && Carries3(zone, evidence[i], a, used, decode)
                            && Carries3(zone, evidence[j], b, used, decode) :: a.owner != b.owner)
  }

  ghost predicate KeepsAll3(zone: Name, evidence: seq<Evidence>, g: Gathered, used: Parameters,
                            decode: Octets -> Option<Octets>) {
    && !g.malformed && g.nsec == [] && (g.parameters.Some? ==> g.parameters.value == used)
    && (forall r | r in g.nsec3 :: exists item :: item in evidence && Carries3(zone, item, r, used, decode))
    && (forall item, r | item in evidence && Carries3(zone, item, r, used, decode) :: r in g.nsec3)
  }

  lemma {:induction false} GatherKeeps3(zone: Name, evidence: seq<Evidence>, used: Parameters,
                                        decode: Octets -> Option<Octets>)
    requires Orderly3(zone, evidence, used, decode)
    ensures KeepsAll3(zone, evidence, Gather(zone, evidence, decode), used, decode)
  {
    if evidence != [] {
      var last := |evidence| - 1;
      var front, item := evidence[..last], evidence[last];
      assert evidence == front + [item];
      GatherKeeps3(zone, front, used, decode);
      AbsorbKeeps3(zone, front, Gather(zone, front, decode), item, used, decode);
    }
  }

  lemma AbsorbKeeps3(zone: Name, front: seq<Evidence>, g: Gathered, item: Evidence, used: Parameters,
                     decode: Octets -> Option<Octets>)
    requires Orderly3(zone, front + [item], used, decode) && KeepsAll3(zone, front, g, used, decode)
    ensures KeepsAll3(zone, front + [item], Absorb(zone, g, item, decode), used, decode)
  {
    var all, after := front + [item], Absorb(zone, g, item, decode);
    assert item in all && all[|front|] == item;
    if Usable(item) {
      var r :| Carries3(zone, item, r, used, decode);
      forall e, kept | e in front && Carries3(zone, e, kept, used, decode) ensures kept.owner != r.owner {
        var j :| 0 <= j < |front| && front[j] == e;
        assert all[j] == e;
      }
      assert after.nsec3 == g.nsec3 + [r];
    }
    forall r | r in after.nsec3 ensures exists e :: e in all && Carries3(zone, e, r, used, decode) {
      if r in g.nsec3 {
        var e :| e in front && Carries3(zone, e, r, used, decode);
        assert e in all;
      }
    }
  }

  ghost predicate Holds3(zone: Name, evidence: seq<Evidence>, r: Nsec3, used: Parameters,
                         decode: Octets -> Option<Octets>) {
    exists item :: item in evidence && Carries3(zone, item, r, used, decode)
  }

  /** Any authentic and orderly evidence that holds the records matching the closest provable
      encloser and spanning the next closer name and the wildcard is accepted. */
  lemma ConcludedNameError3Complete(z: Zone, chains: Parameters -> seq<Name>, used: Parameters, qname: Name,
                                    qtype: RType, c: Name, rc: Nsec3, rn: Nsec3, rs: Nsec3,
                                    evidence: seq<Evidence>, p: Primitives, wildcard: Option<Name>)
    requires WellFormed(z) && AtOrBelow(qname, z.apex) && !UnderCut(z, qname) && Wildcard(c) !in chains(used)
    requires ProvableEncloser(z, chains(used), qname, c) && Hashed(z, chains, qname, Some(used), p)
    requires Authentic3(z, chains, evidence, p) && Orderly3(z.apex, evidence, used, p.decode)
    requires Holds3(z.apex, evidence, rc, used, p.decode) && rc.owner == p.hash(c, used)
    requires Holds3(z.apex, evidence, rn, used, p.decode) && Span(rn, p.hash(NextCloser(qname, c), used))
    requires Holds3(z.apex, evidence, rs, used, p.decode) && Span(rs, p.hash(Wildcard(c), used))
    ensures var d := Conclude(z.apex, qname, qtype, NxDomain, Gather(z.apex, evidence, p.decode), p.hash, wildcard);
            d.valid && d.closest == Some(c)
  {
    var g := Gather(z.apex, evidence, p.decode);
    HeldGathered(z, chains, used, qname, rc, evidence, p);
    HeldGathered(z, chains, used, qname, rn, evidence, p);
    HeldGathered(z, chains, used, qname, rs, evidence, p);
    NameError3Complete(z, chains(used), FactsOf(z.apex, g, p.hash), qname, qtype, wildcard, c, rc, rn, rs);
    ConcludeGathered3(z.apex, qname, qtype, NxDomain, g, p.hash, wildcard);
  }

  lemma HeldGathered(z: Zone, chains: Parameters -> seq<Name>, used: Parameters, qname: Name, r: Nsec3,
                     evidence: seq<Evidence>, p: Primitives)
    requires WellFormed(z) && AtOrBelow(qname, z.apex) && Hashed(z, chains, qname, Some(used), p)
    requires Authentic3(z, chains, evidence, p) && Orderly3(z.apex, evidence, used, p.decode)
    requires Holds3(z.apex, evidence, r, used, p.decode)
    ensures var g := Gather(z.apex, evidence, p.decode);
            && r in g.nsec3 && g.nsec == [] && !g.malformed && g.parameters == Some(used)
            && Setting(z, chains(used), FactsOf(z.apex, g, p.hash), qname)
  {
    GatherKeeps3(z.apex, evidence, used, p.decode);
    GatheredParameters(z.apex, evidence, p.decode);
    GatheredSetting(z, chains, qname, evidence, p);
  }

  lemma ConcludeGathered3(zone: Name, qname: Name, qtype: RType, kind: Kind, g: Gathered,
                          hash: (Name, Parameters) -> Octets, wildcard: Option<Name>)
    requires !g.malformed && g.nsec3 != [] && g.nsec == []
    ensures Conclude(zone, qname, qtype, kind, g, hash, wildcard) ==
        Decide(FactsOf(zone, g, hash), qname, qtype, kind, wildcard)
  {
  }
}
