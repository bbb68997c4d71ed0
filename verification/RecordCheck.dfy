/** Whether one record set of a reply is authentic: by its signers' chains when it is signed, and
    otherwise by proving every possible cut between the nearest zone and its name. */
module RecordCheck {
  import opened Wrappers
  import opened Names
  import opened Denial
  import opened NsecTheorems
  import opened Nsec3Theorems
  import opened DenialValidator
  import opened ChainDenial
  import C = Chain
  import Alias

  /** The verified signatures, each with its label count when it was expanded from a wildcard, and
      what else was seen. */
  datatype SetCheck = SetCheck(paths: seq<Option<nat>>, failures: bool, unsupported: bool, limitations: bool)

  /** Owners of the starts of authority that a reply about a name holds. */
  datatype SoaReply = SoaReply(usable: bool, owners: seq<Name>)

  /** Everything the check asks besides the walk: evidence, signatures, and where zones may start. */
  datatype Judge = Judge(
    d: Reader,
    verify: (C.RRset, Option<C.RRset>, C.RRset) -> SetCheck,
    soaReply: Name -> SoaReply)

  /** A state, or the whole request is refused. */
  datatype Verdict = Judged(state: C.State) | Denied

  function TypeOf(n: nat): RType { if n < 65536 then n else 0 }

  /** One denial proof over a section's evidence; None when the validator refuses it. */
  function Proved(j: Judge, name: Name, rdtype: nat, kind: Kind, section: seq<C.RRset>, keys: C.RRset,
                  wildcard: Option<Name>): Option<Proof>
  {
    var pairs := C.DenialEvidence(section, C.ProofSets(section), keys.name);
    var evidence := Read(j.d, pairs, keys);
    if Ambiguous(section, keys.name)
       || !InScope(keys.name, name, TypeOf(rdtype), kind, evidence)
       || (exists i | 0 <= i < |evidence| :: Refusal(evidence[i]).Some?)
    then None
    else
      var g := Gather(keys.name, evidence, j.d.p.decode);
      Some(Conclude(keys.name, name, TypeOf(rdtype), kind, g, j.d.p.hash, wildcard))
  }

  /** Some denial set under the zone has several signature sets. */
  predicate Ambiguous(section: seq<C.RRset>, zone: Name) {
    exists s | s in C.ProofSets(section) ::
      AtOrBelow(s.name, zone) && |C.Matching(section, s.name, C.RRSIG, s.rdtype)| > 1
  }

  // ---------- a signed set ----------

  /** Signers at or above a name, each once. */
  function SignersAbove(name: Name, items: seq<C.Item>): (names: seq<Name>)
    ensures forall n :: n in names <==> AtOrBelow(name, n) && exists i | i in items :: i.Signature? && i.signer == n
  {
    if items == [] then []
    else
      var before, last := SignersAbove(name, items[..|items| - 1]), items[|items| - 1];
      assert forall i | i in items :: i in items[..|items| - 1] || i == last;
      if last.Signature? && AtOrBelow(name, last.signer) && last.signer !in before
      then before + [last.signer] else before
  }

  function SignedBy(items: seq<C.Item>, signer: Name): seq<C.Item> {
    if items == [] then []
    else
      (if items[0].Signature? && items[0].signer == signer then [items[0]] else []) + SignedBy(items[1..], signer)
  }

  /** One signer: not usable, or with trusted keys and what its signatures showed. */
  datatype View = Untrusted(state: C.State) | Trusting(valid: bool, insecure: bool, uncertain: bool) | Refusing

  function WildcardOf(name: Name, labels: nat): Name {
    Wildcard(if labels <= |name| then name[..labels] else name)
  }

  /** The proof that a wildcard-expanded signature needs. */
  function Expansion(j: Judge, r: C.RRset, authority: seq<C.RRset>, keys: C.RRset, labels: nat): Option<Proof> {
    Proved(j, r.name, r.rdtype, WildcardKind, authority, keys, Some(WildcardOf(r.name, labels)))
  }

  /** What one verified signature shows. */
  datatype PathView = Plain | Expanded | OptedOut | Unproven | Unusable | Undecided

  /** A signature verifies as it stands, or as an expansion proven to be in order; a DNAME may not
      be expanded. */
  function PathOf(j: Judge, r: C.RRset, authority: seq<C.RRset>, keys: C.RRset, path: Option<nat>): PathView {
    if path.None? then Plain
    else if r.rdtype == DNAME then Unusable
    else
      match Expansion(j, r, authority, keys, path.value)
      case None => Undecided
      case Some(proof) => if !proof.valid then Unproven else if proof.optOut then OptedOut else Expanded
  }

  predicate Proper(p: PathView) { p.Plain? || p.Expanded? }

  function PathsOf(j: Judge, r: C.RRset, authority: seq<C.RRset>, keys: C.RRset,
                   paths: seq<Option<nat>>): seq<PathView> {
    seq(|paths|, i requires 0 <= i < |paths| => PathOf(j, r, authority, keys, paths[i]))
  }

  /** Any proper signature makes the set valid, whatever the others show. */
  predicate Shows(seen: seq<PathView>, unclear: bool, v: View) {
    if Undecided in seen then v == Refusing
    else v == Trusting(Plain in seen || Expanded in seen, OptedOut in seen, unclear || Unusable in seen)
  }

  predicate Inconclusive(check: SetCheck) { check.limitations || (check.unsupported && !check.failures) }

  method Show(j: Judge, r: C.RRset, authority: seq<C.RRset>, keys: C.RRset, check: SetCheck) returns (v: View)
    ensures Shows(PathsOf(j, r, authority, keys, check.paths), Inconclusive(check), v)
  {
    var seen := PathsOf(j, r, authority, keys, check.paths);
    var valid := exists p | p in check.paths :: p.None?;
    assert valid <==> Plain in seen by { PlainSeen(j, r, authority, keys, check.paths); }
    v := Tally(seen, valid, Inconclusive(check));
  }

  lemma PlainSeen(j: Judge, r: C.RRset, authority: seq<C.RRset>, keys: C.RRset, paths: seq<Option<nat>>)
    ensures (exists p | p in paths :: p.None?) <==> Plain in PathsOf(j, r, authority, keys, paths)
  {
    var seen := PathsOf(j, r, authority, keys, paths);
    if p :| p in paths && p.None? {
      var i :| 0 <= i < |paths| && paths[i] == p;
      assert seen[i] == Plain;
    }
    if Plain in seen {
      var i :| 0 <= i < |seen| && seen[i] == Plain;
      assert paths[i] in paths;
    }
  }

  /** The loop over the expanded signatures. */
  method Tally(seen: seq<PathView>, plain: bool, unclear: bool) returns (v: View)
    requires plain <==> Plain in seen
    ensures Shows(seen, unclear, v)
  {
    var valid, insecure, uncertain := plain, false, unclear;
    for i := 0 to |seen|
      invariant Undecided !in seen[..i] && (insecure <==> OptedOut in seen[..i])
      invariant (valid <==> plain || Expanded in seen[..i]) && (uncertain <==> unclear || Unusable in seen[..i])
    {
      assert seen[..i + 1] == seen[..i] + [seen[i]];
      match seen[i] {
        case Plain =>
        case Unusable => uncertain := true;
        case Undecided => return Refusing;
        case OptedOut => insecure := true;
        case Expanded => valid := true;
        case Unproven =>
      }
    }
    assert seen[..|seen|] == seen;
    v := Trusting(valid, insecure, uncertain);
  }

  function Showing(seen: seq<PathView>, unclear: bool): (v: View)
    ensures Shows(seen, unclear, v)
  {
    if Undecided in seen then Refusing
    else Trusting(Plain in seen || Expanded in seen, OptedOut in seen, unclear || Unusable in seen)
  }

  /** The name's anchor lies strictly below the signer, whose chain is then not configured. */
  predicate AboveAnchor(w: C.World, name: Name, signer: Name) {
    var anchor := C.ClosestAnchor(w.anchors, name);
    anchor.Some? && StrictlyBelow(anchor.value, signer)
  }

  function Applicable(sigs: C.RRset, signer: Name): C.RRset { sigs.(items := SignedBy(sigs.items, signer)) }

  function ViewOf(w: C.World, j: Judge, r: C.RRset, sigs: C.RRset, authority: seq<C.RRset>, signer: Name): View {
    if AboveAnchor(w, r.name, signer) then Untrusted(C.Indeterminate)
    else
      match C.Walk(w, signer, 0, true)
      case Refused(_) => Refusing
      case Answer(auth) =>
        if !C.Trusts(auth) then Untrusted(auth.state)
        else
          var keys := auth.keys.value;
          var check := j.verify(r, Some(Applicable(sigs, signer)), keys);
          Showing(PathsOf(j, r, authority, keys, check.paths), Inconclusive(check))
  }

  /** What a signer contributes when it does not vouch for the set. */
  function Left(v: View): Option<C.State> {
    match v
    case Untrusted(state) => Some(state)
    case Trusting(valid, insecure, uncertain) =>
      if valid then None
      else Some(if insecure then C.Insecure else if uncertain then C.Indeterminate else C.Bogus)
    case Refusing => None
  }

  /** One vouching signer is enough; otherwise a bogus signature weighs more than what is unknown,
      and that more than an unsigned boundary. */
  function Weighed(success: bool, checked: bool, states: set<C.State>): C.State {
    if success then C.Secure
    else if checked && C.Bogus in states then C.Bogus
    else if states == {} || C.Indeterminate in states then C.Indeterminate
    else if C.Bogus in states then C.Bogus
    else C.Insecure
  }

  /** The verdict on what all signers showed. */
  predicate Concludes(views: seq<View>, v: Verdict) {
    if Refusing in views then v == Denied
    else v == Judged(Weighed(
      exists i | 0 <= i < |views| :: views[i].Trusting? && views[i].valid,
      exists i | 0 <= i < |views| :: views[i].Trusting?,
      set i | 0 <= i < |views| && Left(views[i]).Some? :: Left(views[i]).value))
  }

  function ViewsOf(w: C.World, j: Judge, r: C.RRset, sigs: C.RRset, authority: seq<C.RRset>,
                   names: seq<Name>): seq<View> {
    seq(|names|, i requires 0 <= i < |names| => ViewOf(w, j, r, sigs, authority, names[i]))
  }

  /** What the loop holds after these views. */
  predicate Counted(views: seq<View>, success: bool, checked: bool, states: set<C.State>) {
    && Refusing !in views
    && (success <==> exists i | 0 <= i < |views| :: views[i].Trusting? && views[i].valid)
    && (checked <==> exists i | 0 <= i < |views| :: views[i].Trusting?)
    && states == set i | 0 <= i < |views| && Left(views[i]).Some? :: Left(views[i]).value
  }

  lemma CountedMore(views: seq<View>, success: bool, checked: bool, states: set<C.State>, v: View)
    requires Counted(views, success, checked, states) && !v.Refusing?
    ensures Counted(views + [v], success || (v.Trusting? && v.valid), checked || v.Trusting?,
                    if Left(v).Some? then states + {Left(v).value} else states)
  {
    var more := views + [v];
    assert more[|views|] == v && forall i | 0 <= i < |views| :: more[i] == views[i];
    var after := set i | 0 <= i < |more| && Left(more[i]).Some? :: Left(more[i]).value;
    forall s ensures s in after <==> s in states || (Left(v) == Some(s)) {
      if s in states {
        var i :| 0 <= i < |views| && Left(views[i]) == Some(s);
        assert Left(more[i]) == Some(s);
      }
      if Left(v) == Some(s) { assert Left(more[|views|]) == Some(s); }
    }
  }

  lemma CountedConcludes(views: seq<View>, success: bool, checked: bool, states: set<C.State>)
    requires Counted(views, success, checked, states)
    ensures Concludes(views, Judged(Weighed(success, checked, states)))
  {
  }

  lemma RefusingConcludes(views: seq<View>, i: nat)
    requires i < |views| && views[i].Refusing?
    ensures Concludes(views, Denied)
  {
    assert views[i] in views;
  }

  lemma NextView(w: C.World, j: Judge, r: C.RRset, sigs: C.RRset, authority: seq<C.RRset>, names: seq<Name>, i: nat)
    requires i < |names|
    ensures var views := ViewsOf(w, j, r, sigs, authority, names);
            views[i] == ViewOf(w, j, r, sigs, authority, names[i]) && views[..i + 1] == views[..i] + [views[i]]
  {
  }

  method CheckSigned(w: C.World, j: Judge, r: C.RRset, sigs: C.RRset, authority: seq<C.RRset>) returns (v: Verdict)
    ensures Concludes(ViewsOf(w, j, r, sigs, authority, SignersAbove(r.name, sigs.items)), v)
  {
    var names := SignersAbove(r.name, sigs.items);
    ghost var views := ViewsOf(w, j, r, sigs, authority, names);
    var success, checked := false, false;
    var states: set<C.State> := {};
    for i := 0 to |names|
      invariant Counted(views[..i], success, checked, states)
    {
      NextView(w, j, r, sigs, authority, names, i);
      var view := Look(w, j, r, sigs, authority, names[i]);
      if view.Refusing? {
        RefusingConcludes(views, i);
        return Denied;
      }
      CountedMore(views[..i], success, checked, states, view);
      if view.Trusting? {
        checked := true;
      }
      if Left(view).Some? {
        states := states + {Left(view).value};
      } else {
        success := true;
      }
    }
    assert views[..|names|] == views;
    CountedConcludes(views, success, checked, states);
    v := Judged(Weighed(success, checked, states));
  }

  method Look(w: C.World, j: Judge, r: C.RRset, sigs: C.RRset, authority: seq<C.RRset>, signer: Name) returns (v: View)
    ensures v == ViewOf(w, j, r, sigs, authority, signer)
  {
    if AboveAnchor(w, r.name, signer) {
      return Untrusted(C.Indeterminate);
    }
    var zone := C.Walk(w, signer, 0, true);
    if zone.Refused? {
      return Refusing;
    }
    if !C.Trusts(zone.auth) {
      return Untrusted(zone.auth.state);
    }
    var keys := zone.auth.keys.value;
    v := Show(j, r, authority, keys, j.verify(r, Some(Applicable(sigs, signer)), keys));
    assert v == ViewOf(w, j, r, sigs, authority, signer);
  }

  /** A zone whose chain is unbroken from the most specific anchor, and whose own keys verify the set,
      as it stands or as a wildcard expansion they prove to be in order. */
  ghost predicate Authenticates(w: C.World, j: Judge, r: C.RRset, sigs: C.RRset, authority: seq<C.RRset>, zone: Name) {
    && C.Trusted(w, zone) && C.Keys(w, zone).Some? && AtOrBelow(r.name, zone) && !AboveAnchor(w, r.name, zone)
    && var keys := C.Keys(w, zone).value;
       var check := j.verify(r, Some(Applicable(sigs, zone)), keys);
       exists k | 0 <= k < |check.paths| :: Proper(PathOf(j, r, authority, keys, check.paths[k]))
  }

  /** Secure means exactly that one of the signers authenticates the set. */
  lemma SignedSecureExactly(w: C.World, j: Judge, r: C.RRset, sigs: C.RRset, authority: seq<C.RRset>, v: Verdict)
    requires C.MatchesGiven(w) && v.Judged?
    requires Concludes(ViewsOf(w, j, r, sigs, authority, SignersAbove(r.name, sigs.items)), v)
    ensures v.state == C.Secure <==>
              exists zone | zone in SignersAbove(r.name, sigs.items) :: Authenticates(w, j, r, sigs, authority, zone)
  {
    var names := SignersAbove(r.name, sigs.items);
    var views := ViewsOf(w, j, r, sigs, authority, names);
    ConcludesSecure(views, v);
    forall i | 0 <= i < |names|
      ensures views[i].Trusting? && views[i].valid <==> Authenticates(w, j, r, sigs, authority, names[i])
    {
      SignerExactly(w, j, r, sigs, authority, names, i);
    }
    SomeSigner(w, j, r, sigs, authority, names, views);
  }

  lemma SignerExactly(w: C.World, j: Judge, r: C.RRset, sigs: C.RRset, authority: seq<C.RRset>, names: seq<Name>,
                      i: nat)
    requires C.MatchesGiven(w) && i < |names| && names == SignersAbove(r.name, sigs.items)
    requires Refusing !in ViewsOf(w, j, r, sigs, authority, names)
    ensures var v := ViewsOf(w, j, r, sigs, authority, names)[i];
            v.Trusting? && v.valid <==> Authenticates(w, j, r, sigs, authority, names[i])
  {
    var views := ViewsOf(w, j, r, sigs, authority, names);
    assert views[i] in views && names[i] in names;
    VouchesExactly(w, j, r, sigs, authority, names[i]);
  }

  lemma SomeSigner(w: C.World, j: Judge, r: C.RRset, sigs: C.RRset, authority: seq<C.RRset>, names: seq<Name>,
                   views: seq<View>)
    requires |views| == |names|
    requires forall i | 0 <= i < |names| ::
               (views[i].Trusting? && views[i].valid) == Authenticates(w, j, r, sigs, authority, names[i])
    ensures (exists i | 0 <= i < |views| :: views[i].Trusting? && views[i].valid) <==>
              exists zone | zone in names :: Authenticates(w, j, r, sigs, authority, zone)
  {
    if i :| 0 <= i < |views| && views[i].Trusting? && views[i].valid {
      assert names[i] in names;
    }
    if zone :| zone in names && Authenticates(w, j, r, sigs, authority, zone) {
      var i :| 0 <= i < |names| && names[i] == zone;
      assert views[i].Trusting? && views[i].valid;
    }
  }

  /** Only success weighs as secure. */
  lemma ConcludesSecure(views: seq<View>, v: Verdict)
    requires Concludes(views, v) && v.Judged?
    ensures v.state == C.Secure <==> exists i | 0 <= i < |views| :: views[i].Trusting? && views[i].valid
    ensures Refusing !in views
  {
  }

  lemma VouchesExactly(w: C.World, j: Judge, r: C.RRset, sigs: C.RRset, authority: seq<C.RRset>, signer: Name)
    requires C.MatchesGiven(w) && AtOrBelow(r.name, signer) && !ViewOf(w, j, r, sigs, authority, signer).Refusing?
    ensures var v := ViewOf(w, j, r, sigs, authority, signer);
            v.Trusting? && v.valid <==> Authenticates(w, j, r, sigs, authority, signer)
  {
    var zone := C.Walk(w, signer, 0, true);
    if !AboveAnchor(w, r.name, signer) && zone.Answer? {
      if zone.auth.state == C.Secure {
        C.SecureSound(w, signer, 0, true);
        var keys := C.Keys(w, signer);
        if keys.Some? {
          ProperSeen(j, r, authority, keys.value, j.verify(r, Some(Applicable(sigs, signer)), keys.value).paths);
        }
      } else if C.Trusted(w, signer) {
        C.SecureComplete(w, signer, 0, true);
      }
    }
  }

  lemma ProperSeen(j: Judge, r: C.RRset, authority: seq<C.RRset>, keys: C.RRset, paths: seq<Option<nat>>)
    ensures var seen := PathsOf(j, r, authority, keys, paths);
            (Plain in seen || Expanded in seen) <==>
              exists k | 0 <= k < |paths| :: Proper(PathOf(j, r, authority, keys, paths[k]))
  {
    var seen := PathsOf(j, r, authority, keys, paths);
    assert forall k | 0 <= k < |paths| :: seen[k] == PathOf(j, r, authority, keys, paths[k]);
    if p :| p in seen && Proper(p) {
      var k :| 0 <= k < |seen| && seen[k] == p;
    }
    if k :| 0 <= k < |paths| && Proper(PathOf(j, r, authority, keys, paths[k])) {
      assert seen[k] in seen;
    }
  }

  // ---------- an unsigned set ----------

  /** What proving the cuts found: the last zone reached and its chain, nothing certain, or a refusal. */
  datatype Discovery = Known(zone: Name, auth: C.Auth) | Unknown | Stopped

  const CUT_LIMIT := 32

  /** One possible cut below a zone with trusted keys. */
  datatype CutView = Delegated(auth: C.Auth) | Unsigned | NoCut | Unclear | Refuses

  function AtCut(w: C.World, j: Judge, cut: Name, keys: C.RRset): CutView {
    var found := w.dsReply(cut);
    var ds := C.Matching(found.answer, cut, C.DS, C.NO_TYPE);
    if !found.noError || |ds| > 1 then Unclear
    else if |ds| == 1 then SignedCut(w, cut, ds[0], C.Matching(found.answer, cut, C.RRSIG, C.DS), keys)
    else
      match Proved(j, cut, C.DS, UnsignedDelegation, found.authority, keys, None)
      case None => Refuses
      case Some(unsigned) =>
        if unsigned.valid then Unsigned
        else
          match Proved(j, cut, C.DS, NoDataKind, found.authority, keys, None)
          case None => Refuses
          case Some(absent) => if absent.valid && !absent.optOut then NoCut else Unclear
  }

  function SignedCut(w: C.World, cut: Name, ds: C.RRset, sigs: seq<C.RRset>, keys: C.RRset): CutView {
    if |sigs| > 1 then Refuses
    else if !w.checkSignatures(ds, if sigs == [] then None else Some(sigs[0]), keys).Verified() then Unclear
    else
      match C.Walk(w, cut, 0, true)
      case Refused(_) => Refuses
      case Answer(auth) => Delegated(auth)
  }

  function Cuts(w: C.World, j: Judge): (Name, C.RRset) -> CutView {
    (cut: Name, keys: C.RRset) => AtCut(w, j, cut, keys)
  }

  /** Every possible cut from the zone down to the name, one label at a time. */
  function CutsFrom(cuts: (Name, C.RRset) -> CutView, name: Name, zone: Name, auth: C.Auth, length: nat): Discovery
    requires length <= |name| + 1
    decreases |name| + 1 - length
  {
    if length > |name| || !C.Trusts(auth) then Known(zone, auth)
    else
      match cuts(name[..length], auth.keys.value)
      case Delegated(next) => CutsFrom(cuts, name, name[..length], next, length + 1)
      case Unsigned => Known(name[..length], C.Auth(C.Insecure, None, {}))
      case NoCut => CutsFrom(cuts, name, zone, auth, length + 1)
      case Unclear => Unknown
      case Refuses => Stopped
  }

  method Establish(cuts: (Name, C.RRset) -> CutView, name: Name, zone: Name, auth: C.Auth) returns (found: Discovery)
    requires AtOrBelow(name, zone)
    ensures found == if |name| - |zone| > CUT_LIMIT then Stopped else CutsFrom(cuts, name, zone, auth, |zone| + 1)
  {
    if |name| - |zone| > CUT_LIMIT {
      return Stopped;
    }
    var at, current := zone, auth;
    ghost var whole := CutsFrom(cuts, name, zone, auth, |zone| + 1);
    for length := |zone| + 1 to |name| + 1
      invariant whole == CutsFrom(cuts, name, at, current, length)
    {
      if !C.Trusts(current) {
        return Known(at, current);
      }
      match cuts(name[..length], current.keys.value) {
        case Delegated(next) => at, current := name[..length], next;
        case Unsigned => return Known(name[..length], C.Auth(C.Insecure, None, {}));
        case NoCut =>
        case Unclear => return Unknown;
        case Refuses => return Stopped;
      }
    }
    found := Known(at, current);
  }

  /** The one owner at or above the name, if there is exactly one. */
  function OnlyAbove(owners: seq<Name>, name: Name): (r: Option<Name>)
    ensures r.Some? ==> AtOrBelow(name, r.value) && r.value in owners
  {
    var above := Above(owners, name);
    if above != [] && forall o | o in above :: o == above[0] then Some(above[0]) else None
  }

  function Above(owners: seq<Name>, name: Name): (r: seq<Name>)
    ensures forall o :: o in r <==> o in owners && AtOrBelow(name, o)
  {
    if owners == [] then [] else (if AtOrBelow(name, owners[0]) then [owners[0]] else []) + Above(owners[1..], name)
  }

  /** The start of authority only says where to begin; it proves nothing itself. */
  function Discovered(w: C.World, j: Judge, name: Name): Discovery {
    var soa := j.soaReply(name);
    var candidate := OnlyAbove(soa.owners, name);
    if !soa.usable || candidate.None? || AboveAnchor(w, name, candidate.value) then Unknown
    else
      match C.Walk(w, candidate.value, 0, true)
      case Refused(_) => Stopped
      case Answer(auth) =>
        if |name| - |candidate.value| > CUT_LIMIT then Stopped
        else CutsFrom(Cuts(w, j), name, candidate.value, auth, |candidate.value| + 1)
  }

  /** Without a signature a set is never secure: bogus in a zone whose cuts are all proven, insecure
      below an insecure one. */
  function UnsignedVerdict(found: Discovery, rdtype: nat): Verdict {
    match found
    case Stopped => Denied
    case Unknown => Judged(C.Indeterminate)
    case Known(_, auth) =>
      if auth.state == C.Insecure then Judged(C.Insecure)
      else if C.Trusts(auth) && rdtype != C.DS then Judged(C.Bogus)
      else Judged(C.Indeterminate)
  }

  method CheckUnsigned(w: C.World, j: Judge, r: C.RRset) returns (v: Verdict)
    ensures v == UnsignedVerdict(Discovered(w, j, r.name), r.rdtype)
    ensures v != Judged(C.Secure)
  {
    var soa := j.soaReply(r.name);
    var candidate := OnlyAbove(soa.owners, r.name);
    if !soa.usable || candidate.None? || AboveAnchor(w, r.name, candidate.value) {
      return Judged(C.Indeterminate);
    }
    var walked := C.Walk(w, candidate.value, 0, true);
    if walked.Refused? {
      return Denied;
    }
    var found := Establish(Cuts(w, j), r.name, candidate.value, walked.auth);
    v := UnsignedVerdict(found, r.rdtype);
  }

  // ---------- what an unsigned set's verdict means ----------

  /** What the keys of trusted zones verify about any possible cut above a name is those zones' own. */
  ghost predicate Truth(w: C.World, j: Judge, t: Published, name: Name) {
    && C.MatchesGiven(w) && Judges(w, j.d)
    && forall parent, cut | C.Trusted(w, parent) && C.Keys(w, parent).Some?
                            && StrictlyBelow(cut, parent) && AtOrBelow(name, cut) ::
         SpeaksTruly(w, j.d, t, parent, cut, C.Keys(w, parent).value)
  }

  lemma TruthOfWalk(w: C.World, j: Judge, t: Published, name: Name, zone: Name)
    requires Truth(w, j, t, name) && AtOrBelow(name, zone)
    ensures Truthful(w, j.d, t, zone)
  {
  }

  /** Somewhere at or above the name a trusted zone delegates without a usable DS. */
  ghost predicate BelowInsecure(w: C.World, t: Published, name: Name) {
    exists parent, cut :: InsecurelyDelegated(w, t, parent, cut) && AtOrBelow(name, cut)
  }

  /** The cuts end insecure at a zone that its own chain calls so, or at one proven unsigned below
      a trusted zone. */
  ghost predicate InsecureEnd(cuts: (Name, C.RRset) -> CutView, walked: Name -> C.Outcome, name: Name, zone: Name,
                              auth: C.Auth, cut: Name)
  {
    && AtOrBelow(name, zone) && walked(zone) == C.Answer(auth)
    && ( || auth.state == C.Insecure
         || (C.Trusts(auth) && StrictlyBelow(cut, zone) && AtOrBelow(name, cut)
              && cuts(cut, auth.keys.value).Unsigned?))
  }

  /** A signed cut goes on with its own chain. */
  ghost predicate Continues(cuts: (Name, C.RRset) -> CutView, walked: Name -> C.Outcome) {
    forall cut, keys | cuts(cut, keys).Delegated? :: walked(cut) == C.Answer(cuts(cut, keys).auth)
  }

  lemma {:induction false} CutsEnd(cuts: (Name, C.RRset) -> CutView, walked: Name -> C.Outcome, name: Name, zone: Name,
                                   auth: C.Auth, length: nat)
    returns (last: Name, end: C.Auth, cut: Name)
    requires Continues(cuts, walked) && AtOrBelow(name, zone) && |zone| < length <= |name| + 1
    requires walked(zone) == C.Answer(auth)
    requires var found := CutsFrom(cuts, name, zone, auth, length); found.Known? && found.auth.state == C.Insecure
    ensures InsecureEnd(cuts, walked, name, last, end, cut)
    decreases |name| + 1 - length
  {
    last, end, cut := zone, auth, name[..if length <= |name| then length else 0];
    if length <= |name| && C.Trusts(auth) {
      match cuts(cut, auth.keys.value)
      case Delegated(next) => last, end, cut := CutsEnd(cuts, walked, name, cut, next, length + 1);
      case Unsigned =>
      case NoCut => last, end, cut := CutsEnd(cuts, walked, name, zone, auth, length + 1);
      case _ =>
    }
  }

  function Walked(w: C.World): Name -> C.Outcome { (zone: Name) => C.Walk(w, zone, 0, true) }

  lemma WalkContinues(w: C.World, j: Judge)
    ensures Continues(Cuts(w, j), Walked(w))
  {
    forall cut, keys | Cuts(w, j)(cut, keys).Delegated?
      ensures Walked(w)(cut) == C.Answer(Cuts(w, j)(cut, keys).auth)
    {
      DelegatedWalked(w, j, cut, keys, Cuts(w, j)(cut, keys).auth);
    }
  }

  /** What a discovery that ends insecure went through. */
  lemma DiscoveredEnd(w: C.World, j: Judge, r: C.RRset) returns (last: Name, end: C.Auth, cut: Name)
    requires UnsignedVerdict(Discovered(w, j, r.name), r.rdtype) == Judged(C.Insecure)
    ensures InsecureEnd(Cuts(w, j), Walked(w), r.name, last, end, cut)
  {
    var zone := OnlyAbove(j.soaReply(r.name).owners, r.name).value;
    WalkContinues(w, j);
    last, end, cut := CutsEnd(Cuts(w, j), Walked(w), r.name, zone, C.Walk(w, zone, 0, true).auth, |zone| + 1);
  }

  lemma EndInsecure(w: C.World, j: Judge, t: Published, name: Name, zone: Name, auth: C.Auth)
    requires Truth(w, j, t, name) && AtOrBelow(name, zone) && auth.state == C.Insecure
    requires C.Walk(w, zone, 0, true) == C.Answer(auth)
    ensures BelowInsecure(w, t, name)
  {
    TruthOfWalk(w, j, t, name, zone);
    InsecureMeans(w, j.d, t, zone, 0, true);
    var parent, cut :| InsecurelyDelegated(w, t, parent, cut) && AtOrBelow(zone, cut);
    assert AtOrBelow(name, cut);
  }

  lemma DelegatedWalked(w: C.World, j: Judge, cut: Name, keys: C.RRset, next: C.Auth)
    requires Cuts(w, j)(cut, keys) == Delegated(next)
    ensures C.Walk(w, cut, 0, true) == C.Answer(next)
  {
  }

  lemma UnsignedCut(w: C.World, j: Judge, t: Published, name: Name, zone: Name, auth: C.Auth, cut: Name)
    requires Truth(w, j, t, name) && AtOrBelow(name, cut) && StrictlyBelow(cut, zone)
    requires C.Walk(w, zone, 0, true) == C.Answer(auth) && C.Trusts(auth)
    requires Cuts(w, j)(cut, auth.keys.value).Unsigned?
    ensures BelowInsecure(w, t, name)
  {
    C.SecureSound(w, zone, 0, true);
    UnsignedProof(w, j, t, zone, cut, auth.keys.value);
    assert InsecurelyDelegated(w, t, zone, cut);
  }

  lemma UnsignedProof(w: C.World, j: Judge, t: Published, zone: Name, cut: Name, keys: C.RRset)
    requires C.Keys(w, zone) == Some(keys) && StrictlyBelow(cut, zone) && Cuts(w, j)(cut, keys).Unsigned?
    requires SpeaksTruly(w, j.d, t, zone, cut, keys)
    ensures var z := t.zones(zone);
            WellFormed(z) && !SecurelyDelegated(z, cut) && (UnsignedChild(z, cut) || InsecureOnly(z, cut))
  {
    KeysNamed(w.keyReply(zone).answer, zone);
    ProofExcludes(t.zones(zone), t.chains(zone), cut, EvidenceFor(w, j.d, zone, cut, keys), j.d.p);
  }

  /** An unsigned set is taken for insecure only at or below a true insecure delegation. */
  lemma UnsignedInsecureMeans(w: C.World, j: Judge, t: Published, r: C.RRset)
    requires Truth(w, j, t, r.name)
    requires UnsignedVerdict(Discovered(w, j, r.name), r.rdtype) == Judged(C.Insecure)
    ensures BelowInsecure(w, t, r.name)
  {
    var last, end, cut := DiscoveredEnd(w, j, r);
    if end.state == C.Insecure {
      EndInsecure(w, j, t, r.name, last, end);
    } else {
      UnsignedCut(w, j, t, r.name, last, end, cut);
    }
  }

  /** The zone signs the name's own data, or a delegation on the way to it. */
  ghost predicate Signs(z: Zone, name: Name) {
    || SecurelyDelegated(z, name)
    || exists i | 0 <= i < |z.nodes| :: z.nodes[i].name == name && !(NS in z.nodes[i].types && SOA !in z.nodes[i].types)
  }

  /** Stripping signatures never passes for an unsigned zone: where every trusted zone above a name
      signs it or the way to it, an unsigned set there is bogus or indeterminate, never insecure,
      whatever any reply says. */
  lemma NoStripping(w: C.World, j: Judge, t: Published, r: C.RRset)
    requires Truth(w, j, t, r.name)
    requires forall parent | C.Trusted(w, parent) && StrictlyBelow(r.name, parent) :: Signs(t.zones(parent), r.name)
    requires forall parent, cut | C.Trusted(w, parent) && AtOrBelow(r.name, cut) :: !C.UnsupportedDs(w, parent, cut)
    ensures UnsignedVerdict(Discovered(w, j, r.name), r.rdtype) != Judged(C.Insecure)
  {
    if UnsignedVerdict(Discovered(w, j, r.name), r.rdtype) == Judged(C.Insecure) {
      UnsignedInsecureMeans(w, j, t, r);
      NotBelowInsecure(w, t, r.name);
    }
  }

  lemma NotBelowInsecure(w: C.World, t: Published, name: Name)
    requires forall parent | C.Trusted(w, parent) && StrictlyBelow(name, parent) :: Signs(t.zones(parent), name)
    requires forall parent, cut | C.Trusted(w, parent) && AtOrBelow(name, cut) :: !C.UnsupportedDs(w, parent, cut)
    ensures !BelowInsecure(w, t, name)
  {
    if BelowInsecure(w, t, name) {
      var parent, cut :| InsecurelyDelegated(w, t, parent, cut) && AtOrBelow(name, cut);
      NothingSigned(t.zones(parent), name, cut);
    }
  }

  lemma NothingSigned(z: Zone, name: Name, cut: Name)
    requires WellFormed(z) && AtOrBelow(name, cut) && !SecurelyDelegated(z, cut)
    requires UnsignedChild(z, cut) || InsecureOnly(z, cut)
    ensures !Signs(z, name)
  {
    NotSecurelyDelegated(z, name, cut);
    forall i | 0 <= i < |z.nodes| && z.nodes[i].name == name
      ensures NS in z.nodes[i].types && SOA !in z.nodes[i].types
    {
      if UnsignedChild(z, cut) { ChildOwns(z, name, cut, i); }
    }
  }

  /** Below an unsigned child's name its parent owns nothing, and at it only the delegation. */
  lemma ChildOwns(z: Zone, name: Name, cut: Name, i: nat)
    requires WellFormed(z) && UnsignedChild(z, cut) && AtOrBelow(name, cut) && i < |z.nodes| && z.nodes[i].name == name
    ensures NS in z.nodes[i].types && SOA !in z.nodes[i].types
  {
    var types :| TypesAt(z, cut, types) && NS in types && SOA !in types;
    var k :| 0 <= k < |z.nodes| && z.nodes[k].name == cut && z.nodes[k].types == types;
    if name == cut { OwnerTypes(z, i, types); }
  }

  // ---------- the whole check ----------

  /** A set's one signature set in its section; several are refused. */
  method Check(w: C.World, j: Judge, r: C.RRset, section: seq<C.RRset>, authority: seq<C.RRset>) returns (v: Verdict)
    ensures Checks(w, j, r, section, authority, v)
  {
    var sigs := C.Matching(section, r.name, C.RRSIG, r.rdtype);
    if |sigs| > 1 {
      return Denied;
    }
    if sigs == [] {
      v := CheckUnsigned(w, j, r);
    } else {
      v := CheckSigned(w, j, r, sigs[0], authority);
    }
  }

  ghost predicate Checks(w: C.World, j: Judge, r: C.RRset, section: seq<C.RRset>, authority: seq<C.RRset>, v: Verdict) {
    var sigs := C.Matching(section, r.name, C.RRSIG, r.rdtype);
    if |sigs| > 1 then v == Denied
    else if sigs == [] then v == UnsignedVerdict(Discovered(w, j, r.name), r.rdtype)
    else Concludes(ViewsOf(w, j, r, sigs[0], authority, SignersAbove(r.name, sigs[0].items)), v)
  }

  /** The set came with one signature set, and one of its signers authenticates it. */
  ghost predicate Authenticated(w: C.World, j: Judge, r: C.RRset, section: seq<C.RRset>, authority: seq<C.RRset>) {
    var sigs := C.Matching(section, r.name, C.RRSIG, r.rdtype);
    && |sigs| == 1
    && exists zone | zone in SignersAbove(r.name, sigs[0].items) :: Authenticates(w, j, r, sigs[0], authority, zone)
  }

  /** A set is secure exactly when it is authentic. */
  lemma SecureSetExactly(w: C.World, j: Judge, r: C.RRset, section: seq<C.RRset>, authority: seq<C.RRset>, v: Verdict)
    requires C.MatchesGiven(w) && v.Judged? && Checks(w, j, r, section, authority, v)
    ensures v.state == C.Secure <==> Authenticated(w, j, r, section, authority)
  {
    var sigs := C.Matching(section, r.name, C.RRSIG, r.rdtype);
    if |sigs| == 1 { SignedSecureExactly(w, j, r, sigs[0], authority, v); }
  }

  // ---------- a whole secure answer ----------

  /** The verdicts an answer is classified by are this check's. */
  ghost predicate JudgedBy(sets: seq<Alias.Rrset>, o: Alias.Oracles, w: C.World, j: Judge, read: Alias.Rrset -> C.RRset,
                           section: seq<C.RRset>, authority: seq<C.RRset>)
  {
    forall r | r in sets :: Checks(w, j, read(r), section, authority, Judged(o.check(r)))
  }

  /** The set that decides for an alias: under a DNAME an unsigned alias rests on the DNAME. */
  function Deciding(sets: seq<Alias.Rrset>, o: Alias.Oracles, r: Alias.Rrset): Alias.Rrset {
    if r.kind == CNAME && Alias.Governing(sets, r.owner).Some? && !o.signed(r)
    then Alias.Governing(sets, r.owner).value
    else r
  }

  /** Every deciding set of an answer is sound exactly when each alias under a DNAME is its
      substitution and each set that decides is authenticated by a trusted zone. */
  lemma SoundExactly(sets: seq<Alias.Rrset>, o: Alias.Oracles, asked: RType, path: seq<Name>, positive: bool,
                     w: C.World, j: Judge, read: Alias.Rrset -> C.RRset, section: seq<C.RRset>, authority: seq<C.RRset>)
    requires C.MatchesGiven(w) && JudgedBy(sets, o, w, j, read, section, authority)
    ensures Alias.AllSound(sets, o, asked, path, positive) <==>
              forall r | Alias.Needed(sets, asked, path, positive, r) :: Rests(sets, o, r, w, j, read, section, authority)
  {
    forall r | Alias.Needed(sets, asked, path, positive, r)
      ensures Alias.Sound(sets, o, r) <==> Rests(sets, o, r, w, j, read, section, authority)
    {
      SoundRests(sets, o, r, w, j, read, section, authority);
    }
  }

  /** An alias under a DNAME is its substitution, and the set that decides is authenticated. */
  ghost predicate Rests(sets: seq<Alias.Rrset>, o: Alias.Oracles, r: Alias.Rrset, w: C.World, j: Judge,
                        read: Alias.Rrset -> C.RRset, section: seq<C.RRset>, authority: seq<C.RRset>)
  {
    && Authenticated(w, j, read(Deciding(sets, o, r)), section, authority)
    && (r.kind == CNAME && Alias.Governing(sets, r.owner).Some? ==>
          Alias.Synthesized(r, Alias.Governing(sets, r.owner).value))
  }

  lemma SoundRests(sets: seq<Alias.Rrset>, o: Alias.Oracles, r: Alias.Rrset, w: C.World, j: Judge,
                   read: Alias.Rrset -> C.RRset, section: seq<C.RRset>, authority: seq<C.RRset>)
    requires C.MatchesGiven(w) && JudgedBy(sets, o, w, j, read, section, authority) && r in sets
    ensures Alias.Sound(sets, o, r) <==> Rests(sets, o, r, w, j, read, section, authority)
  {
    var d := Deciding(sets, o, r);
    assert Checks(w, j, read(d), section, authority, Judged(o.check(d)));
    SecureSetExactly(w, j, read(d), section, authority, Judged(o.check(d)));
  }
}
