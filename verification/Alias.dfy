/** Following an answer's aliases and judging the record sets that make it up. */
module Alias {
  import opened Wrappers
  import opened Names
  import opened Denial
  import Chain

  type State = Chain.State

  /** An answer record set; `targets` are the targets of a CNAME or DNAME set's records. */
  datatype Rrset = Rrset(owner: Name, kind: RType, targets: seq<Name>, data: nat)

  ghost predicate Distinct(sets: seq<Rrset>) {
    forall r, s | r in sets && s in sets && r.owner == s.owner && r.kind == s.kind :: r == s
  }

  // ---- what a name leads to ----

  /** Sets at a name that answer the question, its CNAME, or the DNAMEs above it. */
  datatype Role = Direct(asked: RType) | Cname | Dname

  predicate Plays(r: Rrset, name: Name, role: Role) {
    match role
    case Direct(asked) => r.owner == name && (r.kind == asked || asked == ANY)
    case Cname => r.owner == name && r.kind == CNAME
    case Dname => r.kind == DNAME && StrictlyBelow(name, r.owner)
  }

  function Select(sets: seq<Rrset>, name: Name, role: Role): (found: seq<Rrset>)
    ensures forall r :: r in found <==> r in sets && Plays(r, name, role)
  {
    if sets == [] then []
    else if Plays(sets[0], name, role) then [sets[0]] + Select(sets[1..], name, role)
    else Select(sets[1..], name, role)
  }

  /** The set whose owner has the most labels. */
  function Deepest(sets: seq<Rrset>): (r: Rrset)
    requires sets != []
    ensures r in sets && forall s | s in sets :: |s.owner| <= |r.owner|
  {
    if |sets| == 1 then sets[0]
    else
      var rest := Deepest(sets[1..]);
      if |sets[0].owner| >= |rest.owner| then sets[0] else rest
  }

  /** The DNAME that governs a name: the deepest one above it. */
  function Governing(sets: seq<Rrset>, name: Name): (found: Option<Rrset>)
    ensures found.Some? ==> found.value in sets && Plays(found.value, name, Dname)
    ensures found.Some? ==> forall s | s in sets && Plays(s, name, Dname) :: |s.owner| <= |found.value.owner|
    ensures found.None? ==> forall s | s in sets :: !Plays(s, name, Dname)
  {
    var above := Select(sets, name, Dname);
    if above == [] then None else Some(Deepest(above))
  }

  /** Governing depends only on which DNAMEs there are. */
  lemma GoverningSame(a: seq<Rrset>, b: seq<Rrset>, name: Name)
    requires Distinct(b) && (forall r | r in a :: r in b)
    requires Governing(b, name).Some? ==> Governing(b, name).value in a
    ensures Governing(a, name) == Governing(b, name)
  {
    var above, all := Select(a, name, Dname), Select(b, name, Dname);
    assert forall r | r in above :: r in all;
    if all != [] {
      var d, e := Deepest(all), Deepest(above);
      assert d in above && e in all;
      assert d.owner == name[..|d.owner|] && e.owner == name[..|e.owner|];
    }
  }

  /** From one owner to the next: nothing answers there and its CNAME has that one target. */
  ghost predicate Link(sets: seq<Rrset>, asked: RType, from: Name, to: Name) {
    && Select(sets, from, Direct(asked)) == []
    && exists c :: c in sets && Plays(c, from, Cname) && c.targets == [to]
  }

  /** An unbroken chain of aliases through distinct names, from the question to the next name. */
  ghost predicate Trail(sets: seq<Rrset>, asked: RType, question: Name, visited: seq<Name>, next: Name) {
    && (visited + [next])[0] == question
    && (forall i | 0 <= i < |visited| :: Link(sets, asked, visited[i], (visited + [next])[i + 1]))
    && (forall i, j | 0 <= i < j < |visited| :: visited[i] != visited[j])
  }

  lemma TrailMore(sets: seq<Rrset>, asked: RType, question: Name, visited: seq<Name>, next: Name, after: Name)
    requires Trail(sets, asked, question, visited, next) && next !in visited && Link(sets, asked, next, after)
    ensures Trail(sets, asked, question, visited + [next], after)
  {
    var path, longer := visited + [next], visited + [next] + [after];
    assert longer[0] == path[0];
    forall i | 0 <= i < |path| ensures Link(sets, asked, path[i], longer[i + 1]) {
      if i < |visited| { assert path[i] == visited[i] && longer[i + 1] == path[i + 1]; }
    }
  }

  /** A set that decides the answer: an alias followed, the DNAME governing a followed or final
      name, or a final answer. */
  ghost predicate Needed(sets: seq<Rrset>, asked: RType, path: seq<Name>, positive: bool, r: Rrset) {
    && r in sets
    && ((exists i :: 0 <= i < |path| && (i < |path| - 1 || positive) && Governs(sets, path[i], r))
        || (exists i :: 0 <= i < |path| - 1 && Plays(r, path[i], Cname))
        || (positive && path != [] && Plays(r, path[|path| - 1], Direct(asked))))
  }

  predicate Governs(sets: seq<Rrset>, name: Name, r: Rrset) { Governing(sets, name) == Some(r) }

  // ---- substitution ----

  function WireLength(name: Name): nat { if name == [] then 1 else |name[0]| + 1 + WireLength(name[1..]) }

  const NAME_LIMIT := 255

  /** The name under the DNAME's owner moved under its target, when that is not too long. */
  function Substituted(name: Name, dname: Rrset): Option<Name>
    requires StrictlyBelow(name, dname.owner) && |dname.targets| == 1
  {
    var moved := dname.targets[0] + name[|dname.owner|..];
    if WireLength(moved) <= NAME_LIMIT then Some(moved) else None
  }

  predicate Synthesized(cname: Rrset, dname: Rrset)
    requires StrictlyBelow(cname.owner, dname.owner)
  {
    && |cname.targets| == 1 && |dname.targets| == 1
    && Substituted(cname.owner, dname) == Some(cname.targets[0])
  }

  // ---- the loop ----

  datatype Refusal = AliasLimit | AliasLoop | Conflict | Ambiguous | PositiveNameError

  datatype Followed = Positive | Negative | Unsynthesized | Refused(why: Refusal)

  ghost function CnameOwners(sets: seq<Rrset>): set<Name> { set r | r in sets && r.kind == CNAME :: r.owner }

  /** An answer that has a CNAME and something else beside it, or a DNAME but no CNAME under it. */
  predicate Conflicting(asked: RType, direct: seq<Rrset>, cnames: seq<Rrset>, dnames: seq<Rrset>) {
    || (cnames != [] && asked != CNAME && asked != ANY)
    || (cnames != [] && exists r | r in direct :: r.kind != CNAME && r.kind != NSEC && r.kind != NSEC3)
    || (dnames != [] && cnames == [])
  }

  /** The sets at this name contradict each other, or its CNAME set is not one record. */
  predicate Unusable(sets: seq<Rrset>, asked: RType, name: Name) {
    var direct, cnames := Select(sets, name, Direct(asked)), Select(sets, name, Cname);
    if direct != [] then Conflicting(asked, direct, cnames, Select(sets, name, Dname))
    else cnames != [] && |cnames[0].targets| != 1
  }

  function AddNew(answer: seq<Rrset>, more: seq<Rrset>): (all: seq<Rrset>)
    ensures forall r :: r in all <==> r in answer || r in more
    decreases more
  {
    if more == [] then answer
    else if more[0] in answer then AddNew(answer, more[1..])
    else AddNew(answer + [more[0]], more[1..])
  }

  /** What the loop has gathered for the names already left behind. */
  ghost predicate Gathered(sets: seq<Rrset>, asked: RType, path: seq<Name>, answer: seq<Rrset>) {
    forall r :: r in answer <==> Needed(sets, asked, path, false, r)
  }

  lemma GatherStep(sets: seq<Rrset>, asked: RType, path: seq<Name>, answer: seq<Rrset>, c: Rrset, after: seq<Rrset>)
    requires Distinct(sets) && Gathered(sets, asked, path, answer)
    requires path != [] && c in sets && Plays(c, path[|path| - 1], Cname) && |c.targets| == 1
    requires forall r :: r in after <==> r in answer || r == c || Governs(sets, path[|path| - 1], r)
    ensures Gathered(sets, asked, path + [c.targets[0]], after)
  {
    forall r ensures r in after <==> Needed(sets, asked, path + [c.targets[0]], false, r) {
      NeededMore(sets, asked, path, c.targets[0], r);
      assert Plays(r, path[|path| - 1], Cname) && r in sets <==> r == c;
    }
  }

  /** One more name on the path adds the former last name's CNAME and governing DNAME. */
  lemma NeededMore(sets: seq<Rrset>, asked: RType, path: seq<Name>, next: Name, r: Rrset)
    requires path != []
    ensures Needed(sets, asked, path + [next], false, r) <==>
            Needed(sets, asked, path, false, r)
                || (r in sets && (Governs(sets, path[|path| - 1], r) || Plays(r, path[|path| - 1], Cname)))
  {
    var longer := path + [next];
    forall i | 0 <= i < |path| ensures longer[i] == path[i] {}
    if Needed(sets, asked, path, false, r) {
      if i :| 0 <= i < |path| - 1 && Governs(sets, path[i], r) { assert Governs(sets, longer[i], r); }
      if i :| 0 <= i < |path| - 1 && Plays(r, path[i], Cname) { assert Plays(r, longer[i], Cname); }
    }
    var last := |path| - 1;
    assert longer[last] == path[last];
  }

  /** A followed CNAME, preceded by the DNAME governing its owner unless that is there already. */
  function WithAlias(answer: seq<Rrset>, sets: seq<Rrset>, c: Rrset): (after: seq<Rrset>)
    ensures forall r :: r in after <==> r in answer || r == c || Governs(sets, c.owner, r)
  {
    match Governing(sets, c.owner)
    case Some(d) => (if d in answer then answer else answer + [d]) + [c]
    case None => answer + [c]
  }

  /** The names left behind, the name it stopped at, and the sets that decide the answer. */
  method Follow(sets: seq<Rrset>, question: Name, asked: RType, aliases: nat)
    returns (f: Followed, visited: seq<Name>, current: Name, answer: seq<Rrset>)
    requires Distinct(sets)
    ensures Trail(sets, asked, question, visited, current) && |visited| <= aliases + 1
    ensures f == Followed.Refused(AliasLoop) <==> current in visited
    ensures f == Followed.Refused(AliasLimit) <==> current !in visited && |visited| > aliases
    ensures f.Refused? ==> f.why in {AliasLoop, AliasLimit, Conflict}
    ensures f == Followed.Refused(Conflict) ==>
        current !in visited && |visited| <= aliases && Unusable(sets, asked, current)
    ensures f.Positive? ==> !Unusable(sets, asked, current)
    ensures f.Positive? || f.Negative? ==>
        forall r :: r in answer <==> Needed(sets, asked, visited + [current], f.Positive?, r)
    ensures f.Positive? ==> Select(sets, current, Direct(asked)) != []
    ensures f.Negative? ==> End(sets, asked, current) && Governing(sets, current).None?
    ensures f.Unsynthesized? ==> End(sets, asked, current) && Governing(sets, current).Some?
  {
    current, visited, answer := question, [], [];
    ghost var left := CnameOwners(sets);
    while current !in visited
      invariant Trail(sets, asked, question, visited, current) && Gathered(sets, asked, visited + [current], answer)
      invariant forall r | r in sets && r.kind == CNAME :: r.owner in left || r.owner in visited
      invariant |visited| <= aliases + 1
      decreases left
    {
      if |visited| > aliases { return Followed.Refused(AliasLimit), visited, current, answer; }
      var direct := Select(sets, current, Direct(asked));
      var cnames := Select(sets, current, Cname);
      var dnames := Select(sets, current, Dname);
      if direct != [] {
        if Conflicting(asked, direct, cnames, dnames) { return Followed.Refused(Conflict), visited, current, answer; }
        if dnames != [] { answer := answer + [Deepest(dnames)]; }
        answer := AddNew(answer, direct);
        FinalNeeded(sets, asked, visited, current, answer);
        return Positive, visited, current, answer;
      }
      if cnames == [] {
        return if dnames != [] then Unsynthesized else Negative, visited, current, answer;
      }
      var c := cnames[0];
      assert c in cnames;
      if |c.targets| != 1 { return Followed.Refused(Conflict), visited, current, answer; }
      ghost var before := answer;
      answer := WithAlias(answer, sets, c);
      GatherStep(sets, asked, visited + [current], before, c, answer);
      TrailMore(sets, asked, question, visited, current, c.targets[0]);
      left := left - {current};
      visited, current := visited + [current], c.targets[0];
    }
    return Followed.Refused(AliasLoop), visited, current, answer;
  }

  /** Neither an answer nor an alias. */
  predicate End(sets: seq<Rrset>, asked: RType, name: Name) {
    Select(sets, name, Direct(asked)) == [] && Select(sets, name, Cname) == []
  }

  lemma FinalNeeded(sets: seq<Rrset>, asked: RType, visited: seq<Name>, current: Name, answer: seq<Rrset>)
    requires forall r :: r in answer <==>
      Needed(sets, asked, visited + [current], false, r) || Governs(sets, current, r)
          || (r in sets && Plays(r, current, Direct(asked)))
    ensures forall r :: r in answer <==> Needed(sets, asked, visited + [current], true, r)
  {
    var path := visited + [current];
    assert path[|visited|] == current;
    forall r ensures Needed(sets, asked, path, true, r) <==>
        Needed(sets, asked, path, false, r) || Governs(sets, current, r)
            || (r in sets && Plays(r, current, Direct(asked))) {
      if Governs(sets, current, r) { assert r in sets; assert Governs(sets, path[|visited|], r); }
    }
  }

  // ---- judging the sets ----

  /** The checks on one record set, and what the authority section proves, as given. */
  datatype Oracles = Oracles(
    check: Rrset -> State,
    signed: Rrset -> bool,
    keyed: Rrset -> bool,
    denies: (Rrset, Name, Kind) -> Option<bool>)

  /** The worst of the required sets decides: bogus, then nothing or indeterminate, then insecure. */
  function Combined(states: seq<State>): State {
    if Chain.Bogus in states then Chain.Bogus
    else if states == [] || Chain.Indeterminate in states then Chain.Indeterminate
    else if Chain.Insecure in states then Chain.Insecure
    else Chain.Secure
  }

  function Rank(s: State): nat {
    match s case Secure => 0 case Insecure => 1 case Indeterminate => 2 case Bogus => 3
  }

  /** One set's verdict stands for itself, and adding a set can only keep or worsen the verdict, to
      exactly the worse of the two. */
  lemma CombinedWorst(states: seq<State>, s: State)
    ensures Combined([s]) == s
    ensures states != [] ==>
      Combined(states + [s]) == if Rank(s) > Rank(Combined(states)) then s else Combined(states)
  {
    if states != [] {
      assert states[0] in states;
      assert forall x :: x in states + [s] <==> x in states || x == s;
      assert s.Secure? || s.Insecure? || s.Bogus? || s.Indeterminate?;
      assert states[0].Secure? || states[0].Insecure? || states[0].Bogus? || states[0].Indeterminate?;
    }
  }

  lemma CombinedSecure(states: seq<State>)
    ensures Combined(states) == Chain.Secure <==> states != [] && forall s | s in states :: s == Chain.Secure
  {
    if states != [] { assert states[0] in states; }
    forall s: State | s in states && Combined(states) == Chain.Secure ensures s == Chain.Secure {
      assert s.Secure? || s.Insecure? || s.Bogus? || s.Indeterminate?;
    }
  }

  /** One set's own verdict; an alias under a DNAME must be its substitution, and an unsigned one
      has the DNAME's verdict. */
  function StateOf(answer: seq<Rrset>, o: Oracles, r: Rrset): State {
    if r.kind != CNAME then o.check(r)
    else
      match Governing(answer, r.owner)
      case None => o.check(r)
      case Some(d) => if !Synthesized(r, d) then Chain.Bogus else if o.signed(r) then o.check(r) else o.check(d)
  }

  /** What a secure answer needs of each set, told from the whole reply. */
  ghost predicate Sound(sets: seq<Rrset>, o: Oracles, r: Rrset) {
    if r.kind == CNAME && Governing(sets, r.owner).Some? then
      var d := Governing(sets, r.owner).value;
      Synthesized(r, d) && o.check(if o.signed(r) then r else d) == Chain.Secure
    else
      o.check(r) == Chain.Secure
  }

  /** A needed alias under a DNAME that is not its substitution. */
  ghost predicate Forged(sets: seq<Rrset>, asked: RType, path: seq<Name>, positive: bool, r: Rrset) {
    && Needed(sets, asked, path, positive, r) && r.kind == CNAME
    && Governing(sets, r.owner).Some? && !Synthesized(r, Governing(sets, r.owner).value)
  }

  ghost predicate AllSound(sets: seq<Rrset>, o: Oracles, asked: RType, path: seq<Name>, positive: bool) {
    forall r | Needed(sets, asked, path, positive, r) :: Sound(sets, o, r)
  }

  ghost predicate Shown(answer: seq<Rrset>, o: Oracles, s: State) {
    exists r :: r in answer && StateOf(answer, o, r) == s
  }

  /** The verdicts are those of the sets, all of them and no others. */
  ghost predicate Verdicts(answer: seq<Rrset>, o: Oracles, states: seq<State>) {
    && (forall r | r in answer :: StateOf(answer, o, r) in states)
    && (forall s | s in states :: Shown(answer, o, s))
  }

  /** One pass over the answer: its aliases, or everything else. */
  method ExaminePass(answer: seq<Rrset>, o: Oracles, aliases: bool) returns (states: seq<State>)
    ensures forall r | r in answer && (r.kind == CNAME) == aliases :: StateOf(answer, o, r) in states
    ensures forall s | s in states :: Shown(answer, o, s)
  {
    states := [];
    for i := 0 to |answer|
      invariant forall j | 0 <= j < i && (answer[j].kind == CNAME) == aliases :: StateOf(answer, o, answer[j]) in states
      invariant forall s | s in states :: Shown(answer, o, s)
    {
      if (answer[i].kind == CNAME) == aliases {
        assert Shown(answer, o, StateOf(answer, o, answer[i]));
        states := states + [StateOf(answer, o, answer[i])];
      }
    }
  }

  /** The DNAMEs and final answers first, then the aliases, whose verdict may rest on them. */
  method Examine(answer: seq<Rrset>, o: Oracles) returns (states: seq<State>)
    ensures Verdicts(answer, o, states)
  {
    var others := ExaminePass(answer, o, false);
    var aliases := ExaminePass(answer, o, true);
    states := others + aliases;
  }

  /** The DNAME governing a needed alias is itself needed. */
  lemma GoverningNeeded(sets: seq<Rrset>, asked: RType, path: seq<Name>, positive: bool, r: Rrset)
    requires Needed(sets, asked, path, positive, r) && r.kind == CNAME && Governing(sets, r.owner).Some?
    ensures Needed(sets, asked, path, positive, Governing(sets, r.owner).value)
  {
    var d := Governing(sets, r.owner).value;
    if i :| 0 <= i < |path| - 1 && Plays(r, path[i], Cname) {
      assert Governs(sets, path[i], d);
    } else {
      assert Governs(sets, path[|path| - 1], d);
    }
  }

  /** The gathered sets judge each of themselves as the whole reply would. */
  lemma JudgedAlike(sets: seq<Rrset>, answer: seq<Rrset>, o: Oracles, asked: RType, path: seq<Name>, positive: bool,
                    r: Rrset)
    requires Distinct(sets) && (forall s :: s in answer <==> Needed(sets, asked, path, positive, s)) && r in answer
    ensures StateOf(answer, o, r) == StateOf(sets, o, r)
  {
    if r.kind == CNAME { GovernedAlike(sets, answer, asked, path, positive, r); }
  }

  lemma GovernedAlike(sets: seq<Rrset>, answer: seq<Rrset>, asked: RType, path: seq<Name>, positive: bool, r: Rrset)
    requires Distinct(sets) && (forall s :: s in answer <==> Needed(sets, asked, path, positive, s))
    requires r in answer && r.kind == CNAME
    ensures Governing(answer, r.owner) == Governing(sets, r.owner)
  {
    if Governing(sets, r.owner).Some? { GoverningNeeded(sets, asked, path, positive, r); }
    GoverningSame(answer, sets, r.owner);
  }

  lemma SecureIsSound(sets: seq<Rrset>, o: Oracles, r: Rrset)
    ensures StateOf(sets, o, r) == Chain.Secure <==> Sound(sets, o, r)
  {
  }

  lemma JudgedSecure(sets: seq<Rrset>, answer: seq<Rrset>, states: seq<State>, o: Oracles, asked: RType,
                     path: seq<Name>, positive: bool)
    requires Distinct(sets) && (forall s :: s in answer <==> Needed(sets, asked, path, positive, s))
    requires Verdicts(answer, o, states)
    ensures (forall s | s in states :: s == Chain.Secure) <==> AllSound(sets, o, asked, path, positive)
  {
    forall r | r in answer ensures StateOf(answer, o, r) == Chain.Secure <==> Sound(sets, o, r) {
      JudgedAlike(sets, answer, o, asked, path, positive, r);
      SecureIsSound(sets, o, r);
    }
    if AllSound(sets, o, asked, path, positive) {
      forall s | s in states ensures s == Chain.Secure {
        assert Shown(answer, o, s);
        var r :| r in answer && StateOf(answer, o, r) == s;
      }
    }
  }

  /** The verdict is the worst of the needed sets' own, told from the whole reply, and of `extra`. */
  ghost predicate Worst(sets: seq<Rrset>, o: Oracles, asked: RType, path: seq<Name>, positive: bool,
                        extra: Option<State>, s: State) {
    && (extra == Some(s) || exists r :: Needed(sets, asked, path, positive, r) && StateOf(sets, o, r) == s)
    && (extra.Some? ==> Rank(extra.value) <= Rank(s))
    && (forall r | Needed(sets, asked, path, positive, r) :: Rank(StateOf(sets, o, r)) <= Rank(s))
  }

  lemma CombinedMax(states: seq<State>)
    requires states != []
    ensures Combined(states) in states && forall s | s in states :: Rank(s) <= Rank(Combined(states))
  {
    assert states[0] in states;
    assert states[0].Secure? || states[0].Insecure? || states[0].Bogus? || states[0].Indeterminate?;
    forall s: State | s in states ensures Rank(s) <= Rank(Combined(states)) {
      assert s.Secure? || s.Insecure? || s.Bogus? || s.Indeterminate?;
    }
  }

  lemma JudgedWorst(sets: seq<Rrset>, answer: seq<Rrset>, states: seq<State>, o: Oracles, asked: RType, path: seq<Name>,
                    positive: bool, extra: Option<State>)
    requires Distinct(sets) && (forall s :: s in answer <==> Needed(sets, asked, path, positive, s))
    requires Verdicts(answer, o, states) && (states != [] || extra.Some?)
    ensures Worst(sets, o, asked, path, positive, extra, Combined(states + if extra.Some? then [extra.value] else []))
  {
    var all := states + if extra.Some? then [extra.value] else [];
    var worst := Combined(all);
    CombinedMax(all);
    forall r | r in answer ensures StateOf(answer, o, r) == StateOf(sets, o, r) && StateOf(sets, o, r) in all {
      JudgedAlike(sets, answer, o, asked, path, positive, r);
      assert StateOf(answer, o, r) in states;
    }
    if extra != Some(worst) {
      assert Shown(answer, o, worst);
      var r :| r in answer && StateOf(answer, o, r) == worst;
      assert Needed(sets, asked, path, positive, r) && StateOf(sets, o, r) == worst;
    }
    if extra.Some? { assert all[|states|] == extra.value; }
  }

  /** So one forged alias is enough. */
  lemma ForgedIsBogus(sets: seq<Rrset>, o: Oracles, asked: RType, path: seq<Name>, positive: bool, extra: Option<State>,
                      s: State)
    requires Worst(sets, o, asked, path, positive, extra, s)
    ensures (exists r :: Forged(sets, asked, path, positive, r)) ==> s == Chain.Bogus
  {
    if r :| Forged(sets, asked, path, positive, r) {
      assert Rank(StateOf(sets, o, r)) <= Rank(s);
    }
  }

  /** What a sound trail means at each step: under a DNAME the step is exactly its substitution and
      the DNAME is secure, elsewhere the CNAME itself is secure. */
  ghost predicate StepSound(sets: seq<Rrset>, o: Oracles, from: Name, to: Name) {
    match Governing(sets, from)
    case Some(d) => o.check(d) == Chain.Secure && |d.targets| == 1 && Substituted(from, d) == Some(to)
    case None => exists c :: c in sets && Plays(c, from, Cname) && c.targets == [to] && o.check(c) == Chain.Secure
  }

  lemma SecureTrail(sets: seq<Rrset>, o: Oracles, asked: RType, question: Name, visited: seq<Name>, current: Name,
                    positive: bool)
    requires Distinct(sets) && Trail(sets, asked, question, visited, current)
    requires AllSound(sets, o, asked, visited + [current], positive)
    ensures forall i | 0 <= i < |visited| :: StepSound(sets, o, visited[i], (visited + [current])[i + 1])
  {
    var path := visited + [current];
    forall i | 0 <= i < |visited| ensures StepSound(sets, o, visited[i], path[i + 1]) {
      assert path[i] == visited[i] && Link(sets, asked, visited[i], path[i + 1]);
      var c :| c in sets && Plays(c, visited[i], Cname) && c.targets == [path[i + 1]];
      assert Needed(sets, asked, path, positive, c) by { assert Plays(c, path[i], Cname); }
      assert Sound(sets, o, c);
      if Governing(sets, visited[i]).Some? {
        var d := Governing(sets, visited[i]).value;
        GoverningNeeded(sets, asked, path, positive, c);
        assert Sound(sets, o, d);
      }
    }
  }

  // ---- the whole classification ----

  datatype Limit =
    | DnameSynthesisMissing | ZoneEvidenceRequired | SoaNotAuthenticated | SoaZoneMismatch | NegativeProofInvalid

  datatype Reply = Reply(nameError: bool, answer: seq<Rrset>, soas: seq<Rrset>)

  datatype Classified = Raised(why: Refusal) | Judged(state: State, limit: Option<Limit>)

  predicate Identified(sets: seq<Rrset>) {
    forall i, j | 0 <= i < |sets| && 0 <= j < |sets| ::
      sets[i].owner == sets[j].owner && sets[i].kind == sets[j].kind ==> i == j
  }

  /** The only start of authority given, when the name is in its zone. */
  predicate InZone(soas: seq<Rrset>, name: Name) { |soas| == 1 && AtOrBelow(name, soas[0].owner) }

  /** The reply's kind of denial, and whether it opts out: a missing type may be shown at a wildcard. */
  function Denied(reply: Reply, o: Oracles, asked: Name): Option<bool>
    requires reply.soas != []
  {
    var soa := reply.soas[0];
    if reply.nameError then o.denies(soa, asked, NxDomain)
    else if o.denies(soa, asked, NoDataKind).Some? then o.denies(soa, asked, NoDataKind)
    else o.denies(soa, asked, WildcardNoData)
  }

  predicate DeniedSecurely(reply: Reply, o: Oracles, asked: Name)
    requires reply.soas != []
  {
    Denied(reply, o, asked) == Some(false)
  }

  /** The one start of authority is in the right place, secure, and has its zone's keys. */
  predicate Proven(reply: Reply, o: Oracles, current: Name) {
    InZone(reply.soas, current) && o.check(reply.soas[0]) == Chain.Secure && o.keyed(reply.soas[0])
  }

  /** The verdict on a dead end that weighs with those of the sets; without one nothing is known. */
  function Weight(reply: Reply, o: Oracles, current: Name): Option<State> {
    if !InZone(reply.soas, current) then None
    else if o.check(reply.soas[0]) != Chain.Secure then Some(o.check(reply.soas[0]))
    else if !o.keyed(reply.soas[0]) then None
    else
      match Denied(reply, o, current)
      case None => Some(Chain.Bogus)
      case Some(optOut) => Some(if optOut then Chain.Insecure else Chain.Secure)
  }

  /** A dead end is judged by an authenticated zone's proof that the name or type is not there. */
  method JudgeNegative(reply: Reply, current: Name, o: Oracles, states: seq<State>) returns (c: Classified)
    ensures c.Judged?
    ensures c.state == match Weight(reply, o, current)
                       case None => Chain.Indeterminate
                       case Some(weight) => Combined(states + [weight])
    ensures c.state == Chain.Secure <==>
      Proven(reply, o, current) && DeniedSecurely(reply, o, current) && forall s | s in states :: s == Chain.Secure
  {
    if Weight(reply, o, current).Some? { WeighedSecure(states, Weight(reply, o, current).value); }
    if !InZone(reply.soas, current) { return Judged(Chain.Indeterminate, Some(ZoneEvidenceRequired)); }
    var soa := reply.soas[0];
    var records := states + [o.check(soa)];
    if o.check(soa) != Chain.Secure { return Judged(Combined(records), Some(SoaNotAuthenticated)); }
    if !o.keyed(soa) { return Judged(Chain.Indeterminate, Some(SoaZoneMismatch)); }
    var kinds := if reply.nameError then [NxDomain] else [NoDataKind, WildcardNoData];
    for i := 0 to |kinds|
      invariant forall j | 0 <= j < i :: o.denies(soa, current, kinds[j]).None?
    {
      var proof := o.denies(soa, current, kinds[i]);
      if proof.Some? {
        assert reply.nameError ==> kinds[i] == NxDomain;
        assert !reply.nameError ==> kinds[0] == NoDataKind && kinds[1] == WildcardNoData;
        assert proof == Denied(reply, o, current);
        var state := if proof.value then Chain.Insecure else Chain.Secure;
        CombinedSkips(states, state);
        return Judged(Combined(records + [state]), None);
      }
    }
    assert reply.nameError ==> kinds[0] == NxDomain;
    assert !reply.nameError ==> kinds[0] == NoDataKind && kinds[1] == WildcardNoData;
    assert (states + [Chain.Bogus])[|states|] == Chain.Bogus;
    return Judged(Chain.Bogus, Some(NegativeProofInvalid));
  }

  /** A secure set in between weighs nothing. */
  lemma CombinedSkips(states: seq<State>, s: State)
    ensures Combined(states + [Chain.Secure] + [s]) == Combined(states + [s])
  {
    var long, short := states + [Chain.Secure] + [s], states + [s];
    assert forall x :: x in long <==> x in states || x == Chain.Secure || x == s;
    assert forall x :: x in short <==> x in states || x == s;
  }

  lemma IdentifiedDistinct(sets: seq<Rrset>)
    requires Identified(sets)
    ensures Distinct(sets)
  {
    forall r, s | r in sets && s in sets && r.owner == s.owner && r.kind == s.kind ensures r == s {
      var i :| 0 <= i < |sets| && sets[i] == r;
      var j :| 0 <= j < |sets| && sets[j] == s;
    }
  }

  /** A reply is secure exactly when the aliases lead without a gap from the question to an answer
      or to a proven absence and every set that decides it is sound. */
  method Classify(reply: Reply, question: Name, asked: RType, aliases: nat, o: Oracles)
    returns (c: Classified, f: Followed, visited: seq<Name>, current: Name)
    ensures c.Judged? ==>
        Trail(reply.answer, asked, question, visited, current) && current !in visited && |visited| <= aliases
    ensures c.Judged? ==> Identified(reply.answer) && (f.Positive? ==> !reply.nameError)
    ensures c.Judged? && f.Positive? ==> Select(reply.answer, current, Direct(asked)) != []
    ensures c.Judged? && f.Positive? ==>
      (c.state == Chain.Secure <==> AllSound(reply.answer, o, asked, visited + [current], true))
    ensures c.Judged? && f.Positive? ==>
      ((exists r :: Forged(reply.answer, asked, visited + [current], true, r)) ==> c.state == Chain.Bogus)
    ensures c.Judged? && f.Positive? ==> Worst(reply.answer, o, asked, visited + [current], true, None, c.state)
    ensures c.Raised? && c.why == Ambiguous <==> !Identified(reply.answer)
    ensures c.Raised? && c.why == PositiveNameError <==> Identified(reply.answer) && f.Positive? && reply.nameError
    ensures c.Raised? && c.why != Ambiguous && c.why != PositiveNameError ==> f == Followed.Refused(c.why)
    ensures f == Followed.Refused(AliasLoop) <==> Identified(reply.answer) && current in visited
    ensures f == Followed.Refused(AliasLimit) <==>
        Identified(reply.answer) && current !in visited && |visited| > aliases
    ensures f == Followed.Refused(Conflict) ==> Unusable(reply.answer, asked, current)
    ensures c.Judged? && !f.Positive? ==> End(reply.answer, asked, current)
    ensures c.Judged? && !f.Positive? ==>
      (c.state == Chain.Secure <==>
         && Governing(reply.answer, current).None? && AllSound(reply.answer, o, asked, visited + [current], false)
         && Proven(reply, o, current) && DeniedSecurely(reply, o, current))
    ensures c.Judged? && !f.Positive? ==>
      if Governing(reply.answer, current).Some? || Weight(reply, o, current).None? then c.state == Chain.Indeterminate
      else Worst(reply.answer, o, asked, visited + [current], false, Weight(reply, o, current), c.state)
  {
    f, visited, current := Followed.Refused(Ambiguous), [], question;
    if !Identified(reply.answer) { return Classified.Raised(Ambiguous), f, visited, current; }
    IdentifiedDistinct(reply.answer);
    var answer;
    f, visited, current, answer := Follow(reply.answer, question, asked, aliases);
    match f {
      case Refused(why) => return Classified.Raised(why), f, visited, current;
      case Unsynthesized => return Judged(Chain.Indeterminate, Some(DnameSynthesisMissing)), f, visited, current;
      case _ =>
    }
    var states := Examine(answer, o);
    JudgedSecure(reply.answer, answer, states, o, asked, visited + [current], f.Positive?);
    if f.Positive? {
      if reply.nameError { return Classified.Raised(PositiveNameError), f, visited, current; }
      CombinedSecure(states);
      ghost var final := FinalInAnswer(reply.answer, asked, visited, current, answer);
      assert StateOf(answer, o, final) in states;
      assert states + [] == states;
      JudgedWorst(reply.answer, answer, states, o, asked, visited + [current], true, None);
      ForgedIsBogus(reply.answer, o, asked, visited + [current], true, None, Combined(states));
      return Judged(Combined(states), None), f, visited, current;
    }
    c := JudgeNegative(reply, current, o, states);
    ghost var weight := Weight(reply, o, current);
    if weight.Some? {
      JudgedWorst(reply.answer, answer, states, o, asked, visited + [current], false, weight);
    }
  }

  lemma WeighedSecure(states: seq<State>, s: State)
    ensures Combined(states + [s]) == Chain.Secure <==> s == Chain.Secure && forall t | t in states :: t == Chain.Secure
  {
    CombinedSecure(states + [s]);
    assert (states + [s])[|states|] == s;
    assert forall x :: x in states + [s] <==> x in states || x == s;
  }

  lemma FinalInAnswer(sets: seq<Rrset>, asked: RType, visited: seq<Name>, current: Name, answer: seq<Rrset>)
    returns (r: Rrset)
    requires forall r :: r in answer <==> Needed(sets, asked, visited + [current], true, r)
    requires Select(sets, current, Direct(asked)) != []
    ensures r in answer
  {
    r := Select(sets, current, Direct(asked))[0];
    assert r in Select(sets, current, Direct(asked));
    assert (visited + [current])[|visited|] == current;
    assert Needed(sets, asked, visited + [current], true, r);
  }
}
