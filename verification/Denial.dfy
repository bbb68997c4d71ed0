/** The denial-of-existence validator: what it concludes from verified NSEC or NSEC3 records,
    and the method that reaches that conclusion while charging a work budget. */
module Denial {
  import opened Wrappers
  import opened Names

  // ---------- record types and their bitmaps ----------

  type RType = n: nat | n < 65536

  const NS: RType := 2
  const CNAME: RType := 5
  const SOA: RType := 6
  const DNAME: RType := 39
  const DS: RType := 43
  const NSEC: RType := 47
  const NSEC3: RType := 50
  const ANY: RType := 255

  datatype Window = Window(number: nat, bitmap: seq<bv8>)

  predicate HasType(windows: seq<Window>, kind: RType) {
    var octet, bit := kind % 256 / 8, kind % 8;
    exists w | w in windows ::
      w.number == kind / 256 && |w.bitmap| > octet && w.bitmap[octet] & ((0x80 as bv8) >> bit) != 0
  }

  /** Neither a DNAME owner nor a delegation point: such a record may speak for names below it. */
  predicate Authoritative(windows: seq<Window>) {
    !HasType(windows, DNAME) && !(HasType(windows, NS) && !HasType(windows, SOA))
  }

  predicate NoData(windows: seq<Window>, kind: RType) {
    if kind == ANY then
      windows == []
    else
      && !HasType(windows, kind)
      && !HasType(windows, CNAME)
      && (kind == DS || !(HasType(windows, NS) && !HasType(windows, SOA)))
      && !(kind == DS && HasType(windows, SOA))
  }

  predicate Delegation(windows: seq<Window>) {
    && HasType(windows, NS)
    && !HasType(windows, DS)
    && !HasType(windows, SOA)
    && !HasType(windows, CNAME)
    && !HasType(windows, DNAME)
  }

  // ---------- evidence ----------

  datatype Kind = NoDataKind | NxDomain | WildcardKind | WildcardNoData | UnsignedDelegation

  datatype Nsec = Nsec(owner: Name, next: Name, windows: seq<Window>)
  datatype Nsec3 = Nsec3(owner: Octets, next: Octets, optOut: bool, windows: seq<Window>)
  datatype Parameters = Parameters(iterations: nat, salt: Octets)

  datatype RawRecord =
    | RawNsec(next: Name, windows: seq<Window>)
    | RawNsec3(algorithm: nat, flags: nat, parameters: Parameters, nextHash: Octets, windows3: seq<Window>)

  /** What the signature check of one record set reported: for each verified signature whether
      it was a wildcard expansion, or the refusal it raised. */
  datatype Check = Checked(wildcards: seq<bool>) | Refused

  datatype Evidence = Evidence(name: Name, rdtype: RType, records: seq<RawRecord>, check: Check)

  /** `hash` is the iterated NSEC3 hash, `decode` the base32hex decoder of an owner label, `charge`
      what checking one set's signatures takes from the budget. */
  datatype Primitives = Primitives(
    hash: (Name, Parameters) -> Octets, decode: Octets -> Option<Octets>, charge: Evidence -> nat)

  datatype Limitation =
    | NoLimitation | Inconsistent | NoEvidence | WildcardScope | EncloserMissing | NextCloserMissing

  datatype Proof = Proof(valid: bool, optOut: bool, closest: Option<Name>, limitation: Limitation)

  datatype Denied = ScopeOrLimit | RecordType | SignatureRefused | BudgetExhausted
  datatype Outcome = Concluded(proof: Proof) | Raised(why: Denied)

  function Valid(valid: bool): Proof { Proof(valid, false, None, NoLimitation) }
  function Limited(limitation: Limitation): Proof { Proof(false, false, None, limitation) }

  /** The verified records gathered from the evidence, in the order they were supplied. */
  datatype Gathered = Gathered(nsec: seq<Nsec>, nsec3: seq<Nsec3>, parameters: Option<Parameters>, malformed: bool)

  const NOTHING := Gathered([], [], None, false)

  predicate Usable(item: Evidence) {
    item.check.Checked? && false in item.check.wildcards
  }

  function Decoded(zone: Name, item: Evidence, r: RawRecord, decode: Octets -> Option<Octets>): Option<Octets>
    requires r.RawNsec3?
  {
    if |item.name| > 0 && |item.name[|item.name| - 1]| == 32 && Parent(item.name) == zone && |r.nextHash| == 20
    then decode(item.name[|item.name| - 1])
    else None
  }

  /** One evidence item, after its signature check succeeded. */
  function Absorb(zone: Name, g: Gathered, item: Evidence, decode: Octets -> Option<Octets>): Gathered {
    if !Usable(item) then
      g
    else if |item.records| != 1 then
      g.(malformed := true)
    else
      match item.records[0]
      case RawNsec(next, windows) =>
        if !AtOrBelow(next, zone) || (exists r | r in g.nsec :: r.owner == item.name)
        then g.(malformed := true)
        else g.(nsec := g.nsec + [Nsec(item.name, next, windows)])
      case RawNsec3(algorithm, flags, parameters, next, windows) =>
        if algorithm != 1 || flags > 1 then
          g
        else
          var owner := Decoded(zone, item, item.records[0], decode);
          if owner.None?
             || (g.parameters.Some? && g.parameters.value != parameters)
             || (exists r | r in g.nsec3 :: r.owner == owner.value)
          then g.(malformed := true)
          else g.(nsec3 := g.nsec3 + [Nsec3(owner.value, next, flags == 1, windows)],
                  parameters := Some(parameters))
  }

  function Gather(zone: Name, evidence: seq<Evidence>, decode: Octets -> Option<Octets>): Gathered {
    if evidence == [] then NOTHING
    else
      var last := |evidence| - 1;
      Absorb(zone, Gather(zone, evidence[..last], decode), evidence[last], decode)
  }

  // ---------- matching and covering ----------

  function ExactNsec(records: seq<Nsec>, name: Name): Option<Nsec> {
    if records == [] then None
    else if records[0].owner == name then Some(records[0])
    else ExactNsec(records[1..], name)
  }

  function ExactNsec3(records: seq<Nsec3>, hash: Octets): Option<Nsec3> {
    if records == [] then None
    else if records[0].owner == hash then Some(records[0])
    else ExactNsec3(records[1..], hash)
  }

  predicate Covers(zone: Name, r: Nsec, name: Name) {
    && name != r.owner
    && name != r.next
    && !(StrictlyBelow(name, r.owner) && !Authoritative(r.windows))
    && ( || (Before(r.owner, name) && Before(name, r.next))
         || (Before(r.next, r.owner) && (Before(r.owner, name) || Before(name, r.next)))
         || r.owner == r.next == zone)
  }

  predicate Covers3(r: Nsec3, target: Octets) {
    && target != r.owner
    && target != r.next
    && ( || (OctetsBefore(r.owner, target) && OctetsBefore(target, r.next))
         || (OctetsBefore(r.next, r.owner) && (OctetsBefore(r.owner, target) || OctetsBefore(target, r.next)))
         || r.owner == r.next)
  }

  function CoveringNsec(zone: Name, records: seq<Nsec>, name: Name): Option<Nsec> {
    if records == [] then None
    else if Covers(zone, records[0], name) then Some(records[0])
    else CoveringNsec(zone, records[1..], name)
  }

  function CoveringNsec3(records: seq<Nsec3>, target: Octets): Option<Nsec3> {
    if records == [] then None
    else if Covers3(records[0], target) then Some(records[0])
    else CoveringNsec3(records[1..], target)
  }

  // ---------- the conclusion ----------

  /** What the two record families answer about one name. */
  datatype Facts = Facts(zone: Name, nsec: seq<Nsec>, nsec3: seq<Nsec3>, hash: Name -> Octets) {
    function Exact(name: Name): Option<seq<Window>> {
      if nsec != [] then
        var r := ExactNsec(nsec, name);
        if r.Some? then Some(r.value.windows) else None
      else
        var r := ExactNsec3(nsec3, hash(name));
        if r.Some? then Some(r.value.windows) else None
    }

    /** Whether some record covers the name, and if so whether it is an Opt-Out record. */
    function Covering(name: Name): Option<bool> {
      if nsec != [] then
        if CoveringNsec(zone, nsec, name).Some? then Some(false) else None
      else
        var r := CoveringNsec3(nsec3, hash(name));
        if r.Some? then Some(r.value.optOut) else None
    }

    predicate Endpoint(name: Name) {
      exists r | r in nsec :: AtOrBelow(r.owner, name) || AtOrBelow(r.next, name)
    }

    /** The first of name, its parent, ... down to the apex that is known to exist. */
    function Closest(name: Name): Option<Name>
      decreases |name|
    {
      if !AtOrBelow(name, zone) then None
      else if (if nsec != [] then Endpoint(name) else Exact(name).Some?) then Some(name)
      else if name == zone then None
      else Closest(Parent(name))
    }
  }

  function NextCloser(qname: Name, closest: Name): Name {
    if |closest| < |qname| then qname[..|closest| + 1] else qname
  }

  function WithEncloser(f: Facts, qname: Name, qtype: RType, kind: Kind, closest: Option<Name>): Proof {
    if closest.None? || closest.value == qname then
      Limited(EncloserMissing)
    else
      var encloser := closest.value;
      var record := f.Exact(encloser);
      if record.Some? && !Authoritative(record.value) then
        Valid(false)
      else
        var covering := f.Covering(NextCloser(qname, encloser));
        if covering.None? then
          Limited(NextCloserMissing)
        else
          var optOut := covering.value;
          match kind
          case WildcardKind =>
            Proof(true, optOut, closest, NoLimitation)
          case UnsignedDelegation =>
            Proof(f.nsec3 != [] && optOut, optOut, closest, NoLimitation)
          case NoDataKind =>
            if qtype == DS then Proof(f.nsec3 != [] && optOut, optOut, closest, NoLimitation) else Valid(false)
          case NxDomain =>
            Proof(f.Covering(Wildcard(encloser)).Some?, optOut, closest, NoLimitation)
          case WildcardNoData =>
            var star := f.Exact(Wildcard(encloser));
            Proof(star.Some? && NoData(star.value, qtype), optOut, closest, NoLimitation)
  }

  predicate WildcardInScope(zone: Name, qname: Name, wildcard: Option<Name>) {
    && wildcard.Some?
    && |wildcard.value| > 0
    && wildcard.value[|wildcard.value| - 1] == STAR
    && AtOrBelow(wildcard.value, zone)
    && qname != wildcard.value
    && AtOrBelow(qname, Parent(wildcard.value))
  }

  /** The question's own name has a record. */
  function OnMatch(windows: seq<Window>, qtype: RType, kind: Kind): Proof {
    if kind == NoDataKind then Valid(NoData(windows, qtype))
    else if kind == UnsignedDelegation then Valid(Delegation(windows))
    else Valid(false)
  }

  function OnAbsence(f: Facts, qname: Name, qtype: RType, kind: Kind, wildcard: Option<Name>): Proof {
    if kind == WildcardKind then
      if WildcardInScope(f.zone, qname, wildcard)
      then WithEncloser(f, qname, qtype, kind, Some(Parent(wildcard.value)))
      else Limited(WildcardScope)
    else
      var closest := f.Closest(qname);
      if f.nsec != [] && closest == Some(qname)
      then Proof(kind == NoDataKind && f.Covering(qname).Some?, false, closest, NoLimitation)
      else WithEncloser(f, qname, qtype, kind, closest)
  }

  function Decide(f: Facts, qname: Name, qtype: RType, kind: Kind, wildcard: Option<Name>): Proof {
    var matching := f.Exact(qname);
    if matching.Some? then OnMatch(matching.value, qtype, kind) else OnAbsence(f, qname, qtype, kind, wildcard)
  }

  function Conclude(zone: Name, qname: Name, qtype: RType, kind: Kind, g: Gathered,
                    hash: (Name, Parameters) -> Octets, wildcard: Option<Name>): Proof
  {
    if g.malformed || (g.nsec != [] && g.nsec3 != []) then Limited(Inconsistent)
    else if g.nsec == [] && g.nsec3 == [] then Limited(NoEvidence)
    else Decide(FactsOf(zone, g, hash), qname, qtype, kind, wildcard)
  }

  function FactsOf(zone: Name, g: Gathered, hash: (Name, Parameters) -> Octets): Facts {
    Facts(zone, g.nsec, g.nsec3, if g.parameters.Some? then HashWith(hash, g.parameters.value) else n => [])
  }

  function HashWith(hash: (Name, Parameters) -> Octets, p: Parameters): Name -> Octets {
    (n: Name) => hash(n, p)
  }
}
