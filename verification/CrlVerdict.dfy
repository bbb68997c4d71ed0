/** The revocation verdict over a set of authenticated lists. */
module CrlVerdict {
  import opened Wrappers
  import opened Crl

  const LIST_LIMIT := 16

  predicate IsBase(crl: List) { crl.deltaBase.None? }

  /** The delta continues this base: same scope and key, and the base lies in its covered range. */
  predicate Matches(base: List, delta: List) {
    && delta.deltaBase.Some? && base.number.Some? && delta.number.Some?
    && delta.deltaBase.value <= base.number.value < delta.number.value
    && delta.point == base.point
    && delta.authorityKey == base.authorityKey
    && delta.issuer == base.issuer
    && base.updated <= delta.updated
  }

  predicate Clash(base: List, a: List, b: List) {
    Matches(base, a) && Matches(base, b) && a.number == b.number
  }

  /** Two supplied deltas of one generation cannot both be the authority's. */
  ghost predicate Conflict(crls: seq<List>, base: List) {
    exists i, j | 0 <= i < j < |crls| :: Clash(base, crls[i], crls[j])
  }

  /** The matching delta with the greatest number. */
  function Latest(crls: seq<List>, base: List): Option<List> {
    if crls == [] then None
    else
      var before, last := Latest(crls[..|crls| - 1], base), crls[|crls| - 1];
      if Matches(base, last)
          && (before.None? || (before.value.number.Some? && last.number.value > before.value.number.value))
      then Some(last)
      else before
  }

  lemma {:induction false} LatestIs(crls: seq<List>, base: List)
    ensures Latest(crls, base).None? ==> forall d | d in crls :: !Matches(base, d)
    ensures Latest(crls, base).Some? ==>
              var d := Latest(crls, base).value;
              d in crls && Matches(base, d)
              && forall e | e in crls && Matches(base, e) :: e.number.value <= d.number.value
  {
    if crls != [] {
      LatestIs(crls[..|crls| - 1], base);
      assert forall d | d in crls :: d in crls[..|crls| - 1] || d == crls[|crls| - 1];
    }
  }

  /** What a base says once its latest delta is merged in. */
  ghost function Effective(crls: seq<List>, base: List): Outcome<Entries> {
    var entries := EntriesOf(base);
    var latest := Latest(crls, base);
    if entries.Unavailable? || Conflict(crls, base) then Unavailable
    else if latest.None? then entries
    else
      var delta := EntriesOf(latest.value);
      if delta.Unavailable? || !Removable(entries.value, delta.value) then Unavailable
      else Good(Merged(entries.value, delta.value))
  }

  /** A removal is an instruction to the merge and never a reason in its result. */
  lemma EffectiveNeverRemoves(crls: seq<List>, base: List)
    requires IsBase(base) && Effective(crls, base).Good?
    ensures forall id | id in Effective(crls, base).value :: Effective(crls, base).value[id] != RemoveFromCrl
  {
    BaseNeverRemoves(base);
  }

  function IdOf(cert: Certificate): Id { (cert.issuer, cert.serial) }

  /** Whether a base in scope revokes the certificate, if it can be evaluated at all. */
  ghost function Finding(crls: seq<List>, base: List, cert: Certificate): Outcome<bool> {
    var entries := Effective(crls, base);
    if entries.Unavailable? then Unavailable
    else if IdOf(cert) !in entries.value then Good(false)
    else if entries.value[IdOf(cert)] != Unspecified && entries.value[IdOf(cert)] !in Scope(base, cert) then Unavailable
    else Good(true)
  }

  predicate Bounded(crls: seq<List>) { 1 <= |crls| <= LIST_LIMIT }

  ghost predicate Relevant(crls: seq<List>, cert: Certificate, b: List) {
    b in crls && IsBase(b) && Scope(b, cert) != {}
  }

  ghost predicate Evaluable(crls: seq<List>, cert: Certificate) {
    forall b | Relevant(crls, cert, b) :: Finding(crls, b, cert).Good?
  }

  ghost predicate Revoked(crls: seq<List>, cert: Certificate) {
    exists b | Relevant(crls, cert, b) :: Finding(crls, b, cert) == Good(true)
  }

  ghost function Covered(crls: seq<List>, cert: Certificate): set<Reason> {
    set b, r | b in crls && IsBase(b) && r in Scope(b, cert) :: r
  }

  ghost predicate DeltasUsed(crls: seq<List>, cert: Certificate) {
    forall d | d in crls && !IsBase(d) :: exists b :: Relevant(crls, cert, b) && Matches(b, d)
  }

  ghost predicate HasBase(crls: seq<List>) { exists b | b in crls :: IsBase(b) }

  /** The verdict in terms of which lists were supplied, not of how they are walked. */
  ghost function Verdict(crls: seq<List>, cert: Certificate): Outcome<bool> {
    if Bounded(crls) && Evaluable(crls, cert) && DeltasUsed(crls, cert) && HasBase(crls)
       && (Revoked(crls, cert) || Covered(crls, cert) == REASONS)
    then Good(Revoked(crls, cert))
    else Unavailable
  }

  // ---------- the evaluation as it runs ----------

  ghost predicate MatchedIn(crls: seq<List>, base: List, indices: set<nat>, n: nat)
  {
    forall k: nat :: k in indices <==> k < n && k < |crls| && Matches(base, crls[k])
  }

  /** The latest matching delta of one base, and the indices of all of them. */
  method MatchingDeltas(crls: seq<List>, base: List) returns (latest: Option<List>, conflict: bool, used: set<nat>)
    ensures latest == Latest(crls, base)
    ensures conflict <==> Conflict(crls, base)
    ensures MatchedIn(crls, base, used, |crls|)
  {
    latest, conflict, used := None, false, {};
    for i := 0 to |crls|
      invariant latest == Latest(crls[..i], base)
      invariant conflict <==> Conflict(crls[..i], base)
      invariant MatchedIn(crls, base, used, i)
    {
      ConflictStep(crls, base, i);
      LatestStep(crls, base, i);
      if Matches(base, crls[i]) {
        var clash := exists j | j in used && j < i :: crls[j].number == crls[i].number;
        ClashStep(crls, base, used, i);
        conflict := conflict || clash;
        used := used + {i};
        if latest.None? || crls[i].number.value > latest.value.number.value {
          latest := Some(crls[i]);
        }
      }
    }
    assert crls[..|crls|] == crls;
  }

  lemma ClashStep(crls: seq<List>, base: List, used: set<nat>, i: nat)
    requires i < |crls| && MatchedIn(crls, base, used, i) && Matches(base, crls[i])
    ensures (exists j | j in used && j < i :: crls[j].number == crls[i].number) <==>
        exists j | 0 <= j < i :: Clash(base, crls[j], crls[i])
    ensures MatchedIn(crls, base, used + {i}, i + 1)
  {
    if j :| 0 <= j < i && Clash(base, crls[j], crls[i]) { assert j in used; }
  }

  lemma LatestStep(crls: seq<List>, base: List, i: nat)
    requires i < |crls|
    ensures var before := Latest(crls[..i], base);
            && (before.Some? ==> before.value.number.Some?)
            && Latest(crls[..i + 1], base) ==
                 if Matches(base, crls[i]) && (before.None? || crls[i].number.value > before.value.number.value)
                 then Some(crls[i]) else before
  {
    LatestIs(crls[..i], base);
    assert crls[..i + 1][..i] == crls[..i];
  }

  lemma ConflictStep(crls: seq<List>, base: List, i: nat)
    requires i < |crls|
    ensures Conflict(crls[..i + 1], base) <==>
        Conflict(crls[..i], base) || exists j | 0 <= j < i :: Clash(base, crls[j], crls[i])
  {
    var few, more := crls[..i], crls[..i + 1];
    if Conflict(more, base) {
      var j, k :| 0 <= j < k < |more| && Clash(base, more[j], more[k]);
      if k < i { assert Clash(base, few[j], few[k]); }
    }
    if Conflict(few, base) {
      var j, k :| 0 <= j < k < |few| && Clash(base, few[j], few[k]);
      assert Clash(base, more[j], more[k]);
    }
    if exists j | 0 <= j < i :: Clash(base, crls[j], crls[i]) {
      var j :| 0 <= j < i && Clash(base, crls[j], crls[i]);
      assert Clash(base, more[j], more[i]);
    }
  }

  method Evaluate(crls: seq<List>, base: List, cert: Certificate, reasons: set<Reason>)
    returns (finding: Outcome<bool>, used: set<nat>)
    requires reasons == Scope(base, cert)
    ensures finding == Finding(crls, base, cert)
    ensures MatchedIn(crls, base, used, |crls|)
  {
    var entries := ReadEntries(base);
    var latest, conflict, matched := MatchingDeltas(crls, base);
    used := matched;
    if entries.Unavailable? || conflict {
      return Unavailable, used;
    }
    if latest.Some? {
      var delta := ReadEntries(latest.value);
      if delta.Unavailable? {
        return Unavailable, used;
      }
      entries := Merge(entries.value, delta.value);
      if entries.Unavailable? {
        return Unavailable, used;
      }
    }
    if IdOf(cert) !in entries.value {
      return Good(false), used;
    }
    var selected := entries.value[IdOf(cert)];
    finding := if selected != Unspecified && selected !in reasons then Unavailable else Good(true);
  }

  // What the bases among the first `n` lists contribute.

  ghost predicate RelevantAt(crls: seq<List>, cert: Certificate, j: nat) {
    j < |crls| && IsBase(crls[j]) && Scope(crls[j], cert) != {}
  }

  ghost predicate EvaluableUpTo(crls: seq<List>, cert: Certificate, n: nat) {
    forall j: nat | j < n && RelevantAt(crls, cert, j) :: Finding(crls, crls[j], cert).Good?
  }

  ghost predicate RevokedUpTo(crls: seq<List>, cert: Certificate, n: nat) {
    exists j: nat | j < n && RelevantAt(crls, cert, j) :: Finding(crls, crls[j], cert) == Good(true)
  }

  ghost predicate CoveredUpTo(crls: seq<List>, cert: Certificate, n: nat, x: Reason) {
    exists j: nat | j < n && RelevantAt(crls, cert, j) :: x in Scope(crls[j], cert)
  }

  ghost predicate UsedUpTo(crls: seq<List>, cert: Certificate, n: nat, k: nat) {
    k < |crls| && exists j: nat | j < n && RelevantAt(crls, cert, j) :: Matches(crls[j], crls[k])
  }

  method CrlSetRevoked(crls: seq<List>, cert: Certificate) returns (r: Outcome<bool>)
    ensures r == Verdict(crls, cert)
  {
    if !Bounded(crls) {
      return Unavailable;
    }
    var used: set<nat> := {};
    var covered: set<Reason> := {};
    var revoked := false;
    for i := 0 to |crls|
      invariant Walked(crls, cert, i, used, covered, revoked)
    {
      var reasons: set<Reason> := {};
      if IsBase(crls[i]) {
        reasons := ScopeOf(crls[i], cert);
      }
      if reasons == {} {
        SkipStep(crls, cert, i, used, covered, revoked);
        continue;
      }
      var finding, matched := Evaluate(crls, crls[i], cert, reasons);
      if finding.Unavailable? {
        assert Relevant(crls, cert, crls[i]);
        return Unavailable;
      }
      WalkStep(crls, cert, i, used, covered, revoked, matched, finding);
      used := used + matched;
      revoked := revoked || finding.value;
      covered := covered + reasons;
    }
    WalkedAll(crls, cert, used, covered, revoked);
    var deltas := set k: nat | k < |crls| && !IsBase(crls[k]);
    var bases := exists k | 0 <= k < |crls| :: IsBase(crls[k]);
    if used != deltas || !bases || (!revoked && covered != REASONS) {
      return Unavailable;
    }
    r := Good(revoked);
  }

  ghost predicate Walked(crls: seq<List>, cert: Certificate, n: nat, used: set<nat>, covered: set<Reason>,
                         revoked: bool) {
    && EvaluableUpTo(crls, cert, n)
    && (forall x :: x in covered <==> CoveredUpTo(crls, cert, n, x))
    && (revoked <==> RevokedUpTo(crls, cert, n))
    && (forall k: nat :: k in used <==> UsedUpTo(crls, cert, n, k))
  }

  lemma SkipStep(crls: seq<List>, cert: Certificate, i: nat, used: set<nat>, covered: set<Reason>, revoked: bool)
    requires Walked(crls, cert, i, used, covered, revoked) && !RelevantAt(crls, cert, i)
    ensures Walked(crls, cert, i + 1, used, covered, revoked)
  {
    assert forall j: nat | j < i + 1 && RelevantAt(crls, cert, j) :: j < i;
  }

  lemma WalkStep(crls: seq<List>, cert: Certificate, i: nat, used: set<nat>, covered: set<Reason>, revoked: bool,
                 matched: set<nat>, finding: Outcome<bool>)
    requires Walked(crls, cert, i, used, covered, revoked) && i < |crls| && IsBase(crls[i])
        && Scope(crls[i], cert) != {}
    requires finding == Finding(crls, crls[i], cert) && finding.Good? && MatchedIn(crls, crls[i], matched, |crls|)
    ensures Walked(crls, cert, i + 1, used + matched, covered + Scope(crls[i], cert), revoked || finding.value)
  {
    assert RelevantAt(crls, cert, i);
    forall k: nat ensures k in used + matched <==> UsedUpTo(crls, cert, i + 1, k) { UsedStep(crls, cert, i, k); }
    forall x ensures x in covered + Scope(crls[i], cert) <==> CoveredUpTo(crls, cert, i + 1, x) {
      CoveredStep(crls, cert, i, x);
    }
    VerdictStep(crls, cert, i);
  }

  lemma UsedStep(crls: seq<List>, cert: Certificate, i: nat, k: nat)
    requires RelevantAt(crls, cert, i)
    ensures UsedUpTo(crls, cert, i + 1, k) <==> UsedUpTo(crls, cert, i, k) || (k < |crls| && Matches(crls[i], crls[k]))
  {
  }

  lemma CoveredStep(crls: seq<List>, cert: Certificate, i: nat, x: Reason)
    requires RelevantAt(crls, cert, i)
    ensures CoveredUpTo(crls, cert, i + 1, x) <==> CoveredUpTo(crls, cert, i, x) || x in Scope(crls[i], cert)
  {
  }

  lemma VerdictStep(crls: seq<List>, cert: Certificate, i: nat)
    requires RelevantAt(crls, cert, i)
    ensures EvaluableUpTo(crls, cert, i + 1) <==> EvaluableUpTo(crls, cert, i) && Finding(crls, crls[i], cert).Good?
    ensures RevokedUpTo(crls, cert, i + 1) <==> RevokedUpTo(crls, cert, i) || Finding(crls, crls[i], cert) == Good(true)
  {
  }

  lemma WalkedAll(crls: seq<List>, cert: Certificate, used: set<nat>, covered: set<Reason>, revoked: bool)
    requires Walked(crls, cert, |crls|, used, covered, revoked)
    ensures Evaluable(crls, cert) && (revoked <==> Revoked(crls, cert)) && covered == Covered(crls, cert)
    ensures used == (set k: nat | k < |crls| && !IsBase(crls[k])) <==> DeltasUsed(crls, cert)
    ensures (exists k | 0 <= k < |crls| :: IsBase(crls[k])) <==> HasBase(crls)
  {
    assert forall j: nat | RelevantAt(crls, cert, j) :: Relevant(crls, cert, crls[j]);
    forall b | Relevant(crls, cert, b) ensures exists j: nat :: RelevantAt(crls, cert, j) && crls[j] == b {
      var j: nat :| j < |crls| && crls[j] == b;
      assert RelevantAt(crls, cert, j);
    }
    UsedAll(crls, cert, used);
  }

  lemma UsedAll(crls: seq<List>, cert: Certificate, used: set<nat>)
    requires forall k: nat :: k in used <==> UsedUpTo(crls, cert, |crls|, k)
    ensures used == (set k: nat | k < |crls| && !IsBase(crls[k])) <==> DeltasUsed(crls, cert)
  {
    var deltas := set k: nat | k < |crls| && !IsBase(crls[k]);
    assert used <= deltas;
    forall k: nat | k in deltas
      ensures k in used <==> exists b :: Relevant(crls, cert, b) && Matches(b, crls[k])
    {
      if b :| Relevant(crls, cert, b) && Matches(b, crls[k]) {
        var j: nat :| j < |crls| && crls[j] == b;
        assert RelevantAt(crls, cert, j);
      }
    }
    if DeltasUsed(crls, cert) {
      assert deltas <= used;
    } else {
      var d :| d in crls && !IsBase(d) && !exists b :: Relevant(crls, cert, b) && Matches(b, d);
      var k: nat :| k < |crls| && crls[k] == d;
      assert k in deltas && k !in used;
    }
  }

  // ---------- what a verdict means ----------

  /** Not revoked: the bases in scope together cover every reason, every delta continued one of
      them, and the certificate is in none of their merged lists. Revoked: it is in one, for a
      reason that list may give. */
  lemma VerdictSound(crls: seq<List>, cert: Certificate)
    ensures Verdict(crls, cert) == Good(false) ==>
              && Covered(crls, cert) == REASONS
              && (forall d | d in crls && !IsBase(d) :: exists b :: Relevant(crls, cert, b) && Matches(b, d))
              && (forall b | Relevant(crls, cert, b) :: Effective(crls, b).Good?
                   && IdOf(cert) !in Effective(crls, b).value)
    ensures Verdict(crls, cert) == Good(true) ==>
              exists b | Relevant(crls, cert, b) ::
                && Effective(crls, b).Good? && IdOf(cert) in Effective(crls, b).value
                && (Effective(crls, b).value[IdOf(cert)] == Unspecified
                     || Effective(crls, b).value[IdOf(cert)] in Scope(b, cert))
  {
    if Verdict(crls, cert) == Good(true) {
      var b :| Relevant(crls, cert, b) && Finding(crls, b, cert) == Good(true);
    }
  }

  /** One authority stands behind a base and every delta that continues it. */
  ghost predicate Honest(crls: seq<List>, base: List, full: nat -> Entries) {
    && base.number.Some? && EntriesOf(base) == Good(full(base.number.value))
    && (forall d | d in crls && Matches(base, d) :: HonestlyContinues(d, full))
  }

  ghost predicate HonestlyContinues(d: List, full: nat -> Entries)
    requires d.deltaBase.Some? && d.number.Some?
  {
    EntriesOf(d).Good? && HonestDelta(full, d.deltaBase.value, d.number.value, EntriesOf(d).value)
  }

  /** The greatest number among a numbered base and the deltas that continue it. */
  function Newest(crls: seq<List>, base: List): (n: nat)
    requires base.number.Some?
    ensures base.number.value <= n && forall d | d in crls && Matches(base, d) :: d.number.value <= n
    ensures n == base.number.value || exists d :: d in crls && Matches(base, d) && d.number == Some(n)
  {
    LatestIs(crls, base);
    var latest := Latest(crls, base);
    if latest.Some? && latest.value.number.Some? then latest.value.number.value else base.number.value
  }

  /** With an honest authority behind it a base and its deltas evaluate to the authority's full
      list at the greatest number among them, unless two deltas clash or that list has dropped
      something not on hold: exactly then they cannot be evaluated. */
  lemma EffectiveIsFull(crls: seq<List>, base: List, full: nat -> Entries)
    requires Honest(crls, base, full)
    ensures var now := full(Newest(crls, base));
            Effective(crls, base) ==
              if Conflict(crls, base) || (Latest(crls, base).Some? && Retires(full(base.number.value), now))
              then Unavailable else Good(now)
  {
    LatestIs(crls, base);
    var latest := Latest(crls, base);
    if latest.Some? {
      var d := latest.value;
      assert HonestlyContinues(d, full);
      MergeRefinesFull(full, d.deltaBase.value, base.number.value, d.number.value, EntriesOf(d).value);
    }
  }

  /** The authority's list at the greatest number supplied holds the certificate. */
  ghost predicate ListedNow(crls: seq<List>, cert: Certificate, base: List, full: nat -> Entries) {
    base.number.Some? && IdOf(cert) in full(Newest(crls, base))
  }

  /** With an honest authority behind each base in scope, not revoked means absent from every
      authority's list at the greatest number supplied, and revoked means present in one. */
  lemma HonestVerdict(crls: seq<List>, cert: Certificate, full: List -> nat -> Entries)
    requires forall b | Relevant(crls, cert, b) :: Honest(crls, b, full(b))
    ensures Verdict(crls, cert) == Good(false) ==>
              Covered(crls, cert) == REASONS && forall b | Relevant(crls, cert, b) :: !ListedNow(crls, cert, b, full(b))
    ensures Verdict(crls, cert) == Good(true) ==>
              exists b | Relevant(crls, cert, b) :: ListedNow(crls, cert, b, full(b))
  {
    VerdictSound(crls, cert);
    forall b | Relevant(crls, cert, b) && Effective(crls, b).Good?
      ensures ListedNow(crls, cert, b, full(b)) <==> IdOf(cert) in Effective(crls, b).value
    {
      EffectiveIsFull(crls, b, full(b));
    }
  }

  // An authority whose key-compromised certificate 7 expired between its lists 0 and 1.
  const OLD_LIST := List("ca", Some(0), None, None, None, 0, [Entry(7, None, false, false, Some(KeyCompromise))])
  const RETIRING_DELTA :=
      List("ca", Some(1), Some(0), None, None, 1, [Entry(7, None, false, false, Some(RemoveFromCrl))])

  function RetiringHistory(n: nat): Entries { if n == 0 then map[("ca", 7) := KeyCompromise] else map[] }

  lemma OneEntry(crl: List, e: Entry)
    requires crl.entries == [e] && e.issuer.None? && Acceptable(crl, e)
    ensures EntriesOf(crl) == Good(map[(crl.issuer, e.serial) := EntryReason(e)])
  {
    assert IssuerAfter(crl, 1) == IssuerAfter(crl, 0) == crl.issuer;
    assert IdAt(crl, 0) == (crl.issuer, e.serial);
    assert EntryMap(crl, 1) == EntryMap(crl, 0)[(crl.issuer, e.serial) := EntryReason(e)];
  }

  /** Honest lists that cannot be evaluated: the delta retires a permanent revocation, so no
      certificate of this authority gets a verdict from them. */
  lemma RetiringUnavailable(serial: nat)
    ensures Honest([OLD_LIST, RETIRING_DELTA], OLD_LIST, RetiringHistory)
    ensures Verdict([OLD_LIST, RETIRING_DELTA], Certificate("ca", serial, false, None)) == Unavailable
  {
    var crls := [OLD_LIST, RETIRING_DELTA];
    var cert := Certificate("ca", serial, false, None);
    OneEntry(OLD_LIST, OLD_LIST.entries[0]);
    OneEntry(RETIRING_DELTA, RETIRING_DELTA.entries[0]);
    assert HonestlyContinues(RETIRING_DELTA, RetiringHistory);
    EffectiveIsFull(crls, OLD_LIST, RetiringHistory);
    LatestIs(crls, OLD_LIST);
    assert crls[1] == RETIRING_DELTA && Matches(OLD_LIST, RETIRING_DELTA);
    assert ("ca", 7) in RetiringHistory(0);
    assert KeyCompromise in Scope(OLD_LIST, cert);
    assert Relevant(crls, cert, OLD_LIST);
  }

  // ---------- the order of the lists does not matter ----------

  /** b is a rearranged by p, and q undoes p. */
  ghost predicate Rearranged(a: seq<List>, b: seq<List>, p: seq<nat>, q: seq<nat>) {
    && |a| == |b| == |p| == |q|
    && (forall i | 0 <= i < |b| :: p[i] < |a| && b[i] == a[p[i]] && q[p[i]] == i)
    && (forall i | 0 <= i < |a| :: q[i] < |b| && p[q[i]] == i)
  }

  lemma Inverse(a: seq<List>, b: seq<List>, p: seq<nat>, q: seq<nat>)
    requires Rearranged(a, b, p, q)
    ensures Rearranged(b, a, q, p) && forall x :: x in a <==> x in b
  {
    forall i | 0 <= i < |a| ensures a[i] == b[q[i]] && a[i] in b && b[i] in a {
      assert p[q[i]] == i;
    }
  }

  lemma SameConflict(a: seq<List>, b: seq<List>, p: seq<nat>, q: seq<nat>, base: List)
    requires Rearranged(a, b, p, q) && Conflict(b, base)
    ensures Conflict(a, base)
  {
    var i, j :| 0 <= i < j < |b| && Clash(base, b[i], b[j]);
    assert Clash(base, a[p[i]], a[p[j]]) && Clash(base, a[p[j]], a[p[i]]);
    assert p[i] != p[j] by { assert q[p[i]] == i && q[p[j]] == j; }
  }

  lemma OneOfEachNumber(crls: seq<List>, base: List, x: List, y: List)
    requires !Conflict(crls, base) && x in crls && y in crls && Clash(base, x, y)
    ensures x == y
  {
    var i, j :| 0 <= i < |crls| && crls[i] == x && 0 <= j < |crls| && crls[j] == y;
    assert Clash(base, crls[i], crls[j]) && Clash(base, crls[j], crls[i]);
  }

  lemma SameLatest(a: seq<List>, b: seq<List>, base: List)
    requires (forall x :: x in a <==> x in b) && !Conflict(a, base)
    ensures Latest(a, base) == Latest(b, base)
  {
    LatestIs(a, base);
    LatestIs(b, base);
    if Latest(a, base).Some? && Latest(b, base).Some? {
      OneOfEachNumber(a, base, Latest(a, base).value, Latest(b, base).value);
    }
  }

  lemma SameFinding(a: seq<List>, b: seq<List>, p: seq<nat>, q: seq<nat>, base: List, cert: Certificate)
    requires Rearranged(a, b, p, q)
    ensures Finding(a, base, cert) == Finding(b, base, cert)
  {
    Inverse(a, b, p, q);
    if Conflict(a, base) {
      SameConflict(b, a, q, p, base);
    } else {
      if Conflict(b, base) { SameConflict(a, b, p, q, base); }
      SameLatest(a, b, base);
    }
  }

  lemma OrderIrrelevant(a: seq<List>, b: seq<List>, p: seq<nat>, q: seq<nat>, cert: Certificate)
    requires Rearranged(a, b, p, q)
    ensures Verdict(a, cert) == Verdict(b, cert)
  {
    Inverse(a, b, p, q);
    forall base ensures Finding(a, base, cert) == Finding(b, base, cert) { SameFinding(a, b, p, q, base, cert); }
    assert forall base :: Relevant(a, cert, base) <==> Relevant(b, cert, base);
    assert Covered(a, cert) == Covered(b, cert);
    assert DeltasUsed(a, cert) <==> DeltasUsed(b, cert);
    assert Evaluable(a, cert) <==> Evaluable(b, cert);
    assert Revoked(a, cert) <==> Revoked(b, cert);
  }
}
