/** Transfer capability credentials and their delegation chains. */
module Credentials {
  import opened Wrappers

  datatype Subject = Subject(
    id: string,
    tenant: string,
    paths: seq<string>,
    operations: seq<string>,
    maxBandwidth: nat,
    delegationDepth: nat)

  datatype Credential = Credential(
    id: string,
    issuer: string,
    issued: nat,
    expires: nat,
    subject: Subject,
    parent: Option<Credential>,
    proof: Option<string>)

  datatype Error =
    | NotYetValid | Expired | BadProof | PathDenied | OperationDenied
    | ChainMismatch | NotDelegable | TooDeep | OutlivesParent | OperationEscalation | PathEscalation

  datatype Report = Report(issuer: string, subject: string, delegationDepth: nat, chainDepth: nat)

  /** Whether a credential carries a proof that its issuer's key made over its claims. */
  type Signed = Credential -> bool

  /** Makes the proof for a credential that has none yet. */
  type Signer = Credential -> string

  // --- Matching ---

  predicate EndsWithStar(s: string)
  {
    |s| > 0 && s[|s| - 1] == '*'
  }

  predicate MatchesPath(pattern: string, path: string)
  {
    pattern == "*" || pattern == "/*" ||
    if EndsWithStar(pattern) then pattern[..|pattern| - 1] <= path else path == pattern
  }

  predicate AdmitsPath(patterns: seq<string>, path: string)
  {
    exists i :: 0 <= i < |patterns| && MatchesPath(patterns[i], path)
  }

  function Lower(c: char): char
  {
    if 'A' <= c <= 'Z' then c + 32 as char else c
  }

  predicate EqIgnoreCase(a: string, b: string)
  {
    |a| == |b| && forall i :: 0 <= i < |a| ==> Lower(a[i]) == Lower(b[i])
  }

  predicate MatchesOperation(allowed: string, op: string)
  {
    allowed == "*" || EqIgnoreCase(allowed, op)
  }

  predicate AdmitsOperation(allowed: seq<string>, op: string)
  {
    exists i :: 0 <= i < |allowed| && MatchesOperation(allowed[i], op)
  }

  /** Each of the child's patterns and operations, read as a path or an operation, is one the parent admits. */
  predicate PathsContained(child: seq<string>, parent: seq<string>)
  {
    forall i :: 0 <= i < |child| ==> AdmitsPath(parent, child[i])
  }

  predicate OperationsContained(child: seq<string>, parent: seq<string>)
  {
    forall i :: 0 <= i < |child| ==> AdmitsOperation(parent, child[i])
  }

  // --- Issuing ---

  function Sealed(sign: Signer, vc: Credential): Credential
  {
    vc.(proof := Some(sign(vc)))
  }

  /** The signed credential, or the first delegation rule it breaks. */
  function Issue(id: string, issuer: string, subject: Subject, now: nat, duration: nat, parent: Option<Credential>,
                 sign: Signer): Result<Credential, Error>
  {
    var expires := now + duration;
    var vc := Credential(id, issuer, now, expires, subject, parent, None);
    if parent.Some? && parent.value.subject.delegationDepth == 0 then Err(NotDelegable)
    else if parent.Some? && subject.delegationDepth >= parent.value.subject.delegationDepth then Err(TooDeep)
    else if parent.Some? && expires > parent.value.expires then Err(OutlivesParent)
    else if parent.Some? && !OperationsContained(subject.operations, parent.value.subject.operations) then
      Err(OperationEscalation)
    else if parent.Some? && !PathsContained(subject.paths, parent.value.subject.paths) then Err(PathEscalation)
    else Ok(Sealed(sign, vc))
  }

  // --- Verifying ---

  function Verify(signed: Signed, now: nat, vc: Credential, path: Option<string>, op: Option<string>, depth: nat)
    : Result<Report, Error>
    decreases vc
  {
    if now < vc.issued then Err(NotYetValid)
    else if now > vc.expires then Err(Expired)
    else if vc.proof.None? || !signed(vc) then Err(BadProof)
    else if path.Some? && !AdmitsPath(vc.subject.paths, path.value) then Err(PathDenied)
    else if op.Some? && !AdmitsOperation(vc.subject.operations, op.value) then Err(OperationDenied)
    else
      match vc.parent
      case None => Ok(Report(vc.issuer, vc.subject.id, vc.subject.delegationDepth, depth))
      case Some(parent) =>
        if parent.subject.id != vc.issuer then Err(ChainMismatch)
        else if parent.subject.delegationDepth == 0 then Err(NotDelegable)
        else if !OperationsContained(vc.subject.operations, parent.subject.operations) then Err(OperationEscalation)
        else if !PathsContained(vc.subject.paths, parent.subject.paths) then Err(PathEscalation)
        else
          match Verify(signed, now, parent, None, None, depth + 1)
          case Err(e) => Err(e)
          case Ok(r) => Ok(Report(vc.issuer, vc.subject.id, vc.subject.delegationDepth, r.chainDepth))
  }

  // --- What patterns and operations admit ---

  /** A pattern without a final star admits itself and nothing else. */
  lemma PlainAdmits(pattern: string, path: string)
    requires !EndsWithStar(pattern)
    ensures MatchesPath(pattern, path) <==> path == pattern
  {
  }

  /** A pattern q* admits exactly the extensions of q, but with q empty or one slash it admits everything. */
  lemma StarAdmits(stem: string, path: string)
    ensures stem != "" && stem != "/" ==> (MatchesPath(stem + "*", path) <==> exists t: string :: path == stem + t)
    ensures MatchesPath("*", path) && MatchesPath("/*", path)
  {
    var pattern := stem + "*";
    assert pattern[..|pattern| - 1] == stem;
    if stem <= path { assert path == stem + path[|stem|..]; }
    if stem != "/" && stem != "" {
      assert |pattern| != 2 || pattern[0] != '/';
    }
  }

  /** Two characters that differ at most in the case of an ASCII letter. */
  predicate SameLetter(a: char, b: char)
  {
    || a == b
    || ('A' <= a <= 'Z' && b as int == a as int + 32)
    || ('A' <= b <= 'Z' && a as int == b as int + 32)
  }

  /** An allowed operation is "*" or the requested one up to the case of its letters. */
  lemma OperationAdmits(allowed: string, op: string)
    ensures MatchesOperation(allowed, op) <==>
      allowed == "*" || (|allowed| == |op| && forall i :: 0 <= i < |op| ==> SameLetter(allowed[i], op[i]))
  {
    hide SameLetter, Lower;
    forall a: char, b: char ensures Lower(a) == Lower(b) <==> SameLetter(a, b) { LowerIs(a, b); }
  }

  lemma LowerIs(a: char, b: char)
    ensures Lower(a) == Lower(b) <==> SameLetter(a, b)
  {
  }

  /** A credential that verifies and has only plain patterns grants the paths in its list and denies every other. */
  lemma PlainVerifies(signed: Signed, now: nat, vc: Credential, path: string, op: Option<string>, depth: nat)
    requires Verify(signed, now, vc, None, op, depth).Ok?
    requires forall i :: 0 <= i < |vc.subject.paths| ==> !EndsWithStar(vc.subject.paths[i])
    ensures path in vc.subject.paths ==>
      Verify(signed, now, vc, Some(path), op, depth) == Verify(signed, now, vc, None, op, depth)
    ensures path !in vc.subject.paths ==> Verify(signed, now, vc, Some(path), op, depth) == Err(PathDenied)
  {
    hide EndsWithStar, PathsContained, OperationsContained, AdmitsOperation;
    var paths := vc.subject.paths;
    forall i | 0 <= i < |paths| ensures MatchesPath(paths[i], path) <==> path == paths[i] {
      PlainAdmits(paths[i], path);
    }
    hide MatchesPath;
    assert AdmitsPath(paths, path) <==> path in paths;
  }

  /** A credential can be issued exactly when it has no parent or obeys each of the delegation rules. */
  lemma IssueIff(id: string, issuer: string, subject: Subject, now: nat, duration: nat, parent: Option<Credential>,
                 sign: Signer)
    ensures var r := Issue(id, issuer, subject, now, duration, parent, sign);
      && (r.Ok? <==>
           parent.None? || (var p := parent.value;
             && subject.delegationDepth < p.subject.delegationDepth && now + duration <= p.expires
             && (forall c :: c in subject.operations ==> AdmitsOperation(p.subject.operations, c))
             && (forall c :: c in subject.paths ==> AdmitsPath(p.subject.paths, c))))
      && (r.Ok? ==> r.value.issuer == issuer && r.value.subject == subject && r.value.parent == parent &&
                    r.value.issued == now && r.value.expires == now + duration)
  {
    hide AdmitsOperation, AdmitsPath;
    if parent.Some? {
      var p := parent.value.subject;
      assert OperationsContained(subject.operations, p.operations) <==>
        forall c :: c in subject.operations ==> AdmitsOperation(p.operations, c);
      assert PathsContained(subject.paths, p.paths) <==> forall c :: c in subject.paths ==> AdmitsPath(p.paths, c);
    }
  }

  /** The checks come in this order: dates, proof, path, operation, the link to the parent, the parent itself. */
  lemma FirstFailure(signed: Signed, now: nat, vc: Credential, path: Option<string>, op: Option<string>, depth: nat)
    ensures var r := Verify(signed, now, vc, path, op, depth);
      var proved := vc.proof.Some? && signed(vc);
      var granted := path.Some? ==> AdmitsPath(vc.subject.paths, path.value);
      var allowed := op.Some? ==> AdmitsOperation(vc.subject.operations, op.value);
      && (now < vc.issued ==> r == Err(NotYetValid))
      && (vc.issued <= now && vc.expires < now ==> r == Err(Expired))
      && (vc.issued <= now <= vc.expires ==>
        && (!proved ==> r == Err(BadProof)) && (proved && !granted ==> r == Err(PathDenied))
        && (proved && granted && !allowed ==> r == Err(OperationDenied))
        && (proved && granted && allowed ==> (r.Err? <==> vc.parent.Some? && LinkFails(signed, now, vc, depth))))
  {
    hide AdmitsPath, AdmitsOperation;
    if vc.parent.Some? {
      var p, v := vc.parent.value.subject, vc.subject;
      assert OperationsContained(v.operations, p.operations) <==>
        forall c :: c in v.operations ==> AdmitsOperation(p.operations, c);
      assert PathsContained(v.paths, p.paths) <==> forall c :: c in v.paths ==> AdmitsPath(p.paths, c);
    }
  }

  predicate LinkFails(signed: Signed, now: nat, vc: Credential, depth: nat)
    requires vc.parent.Some?
  {
    var parent := vc.parent.value;
    || parent.subject.id != vc.issuer || parent.subject.delegationDepth == 0
    || (exists c :: c in vc.subject.operations && !AdmitsOperation(parent.subject.operations, c))
    || (exists c :: c in vc.subject.paths && !AdmitsPath(parent.subject.paths, c))
    || Verify(signed, now, parent, None, None, depth + 1).Err?
  }

  // --- Attenuation ---

  predicate DoubleStar(s: string)
  {
    |s| >= 2 && s[|s| - 1] == '*' && s[|s| - 2] == '*'
  }

  /** A pattern that contains another as text contains everything the other admits. */
  lemma PatternContains(parent: string, child: string, path: string)
    requires MatchesPath(parent, child) && !DoubleStar(parent) && MatchesPath(child, path)
    ensures MatchesPath(parent, path)
  {
    if parent != "*" && parent != "/*" && EndsWithStar(parent) {
      var p := parent[..|parent| - 1];
      assert |p| > 0 ==> p[|p| - 1] == parent[|parent| - 2];
      if EndsWithStar(child) {
        var c := child[..|child| - 1];
        assert child == c + ['*'];
        assert |p| <= |c| ==> p <= c;
      }
    }
  }

  /** Textual containment means containment exactly for patterns that do not end in two stars. */
  lemma PatternContainsIff(parent: string)
    ensures (forall child: string, path: string ::
      MatchesPath(parent, child) && MatchesPath(child, path) ==> MatchesPath(parent, path)) <==> !DoubleStar(parent)
  {
    if DoubleStar(parent) {
      var child := parent[..|parent| - 1];
      var path := child[..|child| - 1] + ['x'];
      assert MatchesPath(parent, child) && MatchesPath(child, path) && !MatchesPath(parent, path) by {
        assert path[|path| - 1] == 'x' && child[|child| - 1] == '*' && |path| == |child|;
      }
    } else {
      forall child: string, path: string | MatchesPath(parent, child) && MatchesPath(child, path)
        ensures MatchesPath(parent, path)
      {
        PatternContains(parent, child, path);
      }
    }
  }

  lemma EqIgnoreCaseChains(a: string, b: string, c: string)
    requires EqIgnoreCase(a, b) && EqIgnoreCase(b, c)
    ensures EqIgnoreCase(a, c)
  {
  }

  lemma StarIsItself(a: string)
    requires EqIgnoreCase(a, "*")
    ensures a == "*"
  {
    assert Lower(a[0]) == '*';
  }

  lemma OperationContains(parent: string, child: string, op: string)
    requires MatchesOperation(parent, child) && MatchesOperation(child, op)
    ensures MatchesOperation(parent, op)
  {
    if parent != "*" {
      if child == "*" { StarIsItself(parent); } else { EqIgnoreCaseChains(parent, child, op); }
    }
  }

  function Ancestors(vc: Credential): seq<Credential>
    decreases vc
  {
    match vc.parent
    case None => []
    case Some(parent) => [parent] + Ancestors(parent)
  }

  /** The pattern without its last star. */
  function Shorter(pattern: string): string
    requires DoubleStar(pattern)
  {
    pattern[..|pattern| - 1]
  }

  /** Whatever a contained pattern admits, the list admits. */
  ghost predicate Narrows(parent: seq<string>)
  {
    forall child: string, path: string ::
      AdmitsPath(parent, child) && MatchesPath(child, path) ==> AdmitsPath(parent, path)
  }

  /** For each pattern ending in two stars, the list admits what the pattern with one star fewer admits. */
  ghost predicate Covered(parent: seq<string>)
  {
    forall i, path: string :: 0 <= i < |parent| && DoubleStar(parent[i]) && MatchesPath(Shorter(parent[i]), path) ==>
      AdmitsPath(parent, path)
  }

  /** The only pattern that a pattern ending in two stars contains as text alone is the one with a star fewer. */
  lemma OnlyShorterEscapes(parent: string, child: string, path: string)
    requires DoubleStar(parent) && MatchesPath(parent, child) && MatchesPath(child, path)
    ensures MatchesPath(parent, path) || child == Shorter(parent)
  {
    var p := Shorter(parent);
    assert parent[..|parent| - 1] == p && p[|p| - 1] == '*';
    if child != p && EndsWithStar(child) {
      assert |p| < |child| && p <= child[..|child| - 1];
      assert child[|child| - 1] == '*' && |child| >= 2;
      assert child != "/*" by { assert child == "/*" ==> p == "/"; }
    }
  }

  lemma ContainedNarrows(parent: seq<string>, child: string, path: string)
    requires Covered(parent) && AdmitsPath(parent, child) && MatchesPath(child, path)
    ensures AdmitsPath(parent, path)
  {
    hide MatchesPath, DoubleStar;
    var j :| 0 <= j < |parent| && MatchesPath(parent[j], child);
    if DoubleStar(parent[j]) {
      OnlyShorterEscapes(parent[j], child, path);
    } else {
      PatternContains(parent[j], child, path);
    }
  }

  lemma ContainsShorter(parent: seq<string>, i: nat)
    requires i < |parent| && DoubleStar(parent[i])
    ensures AdmitsPath(parent, Shorter(parent[i]))
  {
    assert MatchesPath(parent[i], Shorter(parent[i]));
  }

  /** Textual containment in a list means containment exactly when the list is covered. */
  lemma NarrowsIff(parent: seq<string>)
    ensures Narrows(parent) <==> Covered(parent)
  {
    hide MatchesPath, DoubleStar, AdmitsPath;
    if Covered(parent) {
      forall child: string, path: string | AdmitsPath(parent, child) && MatchesPath(child, path)
        ensures AdmitsPath(parent, path)
      {
        ContainedNarrows(parent, child, path);
      }
    }
    if Narrows(parent) {
      forall i, path: string | 0 <= i < |parent| && DoubleStar(parent[i]) && MatchesPath(Shorter(parent[i]), path)
        ensures AdmitsPath(parent, path)
      {
        ContainsShorter(parent, i);
      }
    }
  }

  /** A list is covered when another of its patterns contains each shortened one, so in particular when it is plain. */
  lemma PlainCovers(parent: seq<string>)
    requires forall i :: 0 <= i < |parent| && DoubleStar(parent[i]) ==>
      exists j :: 0 <= j < |parent| && !DoubleStar(parent[j]) && MatchesPath(parent[j], Shorter(parent[i]))
    ensures Covered(parent)
  {
    hide MatchesPath, DoubleStar;
    forall i, path: string | 0 <= i < |parent| && DoubleStar(parent[i]) && MatchesPath(Shorter(parent[i]), path)
      ensures AdmitsPath(parent, path)
    {
      var j :| 0 <= j < |parent| && !DoubleStar(parent[j]) && MatchesPath(parent[j], Shorter(parent[i]));
      PatternContains(parent[j], Shorter(parent[i]), path);
    }
  }

  lemma ParentAdmitsOperation(child: seq<string>, parent: seq<string>, op: string)
    requires OperationsContained(child, parent) && AdmitsOperation(child, op)
    ensures AdmitsOperation(parent, op)
  {
    hide MatchesOperation;
    var i :| 0 <= i < |child| && MatchesOperation(child[i], op);
    var j :| 0 <= j < |parent| && MatchesOperation(parent[j], child[i]);
    OperationContains(parent[j], child[i], op);
  }

  /** Whatever path an accepted credential admits, any credential above it whose own patterns are covered admits. */
  lemma {:induction false} PathsAttenuate(signed: Signed, now: nat, vc: Credential, request: Option<string>,
                                          op: Option<string>, depth: nat, path: string, k: nat)
    requires Verify(signed, now, vc, request, op, depth).Ok? && k < |Ancestors(vc)|
    requires Covered(Ancestors(vc)[k].subject.paths) && AdmitsPath(vc.subject.paths, path)
    ensures AdmitsPath(Ancestors(vc)[k].subject.paths, path)
    decreases vc
  {
    hide Covered, MatchesPath;
    var parent := vc.parent.value;
    var i :| 0 <= i < |vc.subject.paths| && MatchesPath(vc.subject.paths[i], path);
    var pattern := vc.subject.paths[i];
    assert AdmitsPath(parent.subject.paths, pattern);
    if k != 0 {
      assert Ancestors(parent)[k - 1] == Ancestors(vc)[k];
      PathsAttenuate(signed, now, parent, None, None, depth + 1, pattern, k - 1);
    }
    ContainedNarrows(Ancestors(vc)[k].subject.paths, pattern, path);
  }

  /** Whatever operation an accepted credential admits, every credential above it admits. */
  lemma {:induction false} OperationsAttenuate(signed: Signed, now: nat, vc: Credential, request: Option<string>,
                                               op: Option<string>, depth: nat, wanted: string, k: nat)
    requires Verify(signed, now, vc, request, op, depth).Ok? && k < |Ancestors(vc)|
    requires AdmitsOperation(vc.subject.operations, wanted)
    ensures AdmitsOperation(Ancestors(vc)[k].subject.operations, wanted)
    decreases vc
  {
    hide AdmitsOperation, OperationsContained;
    var parent := vc.parent.value;
    ParentAdmitsOperation(vc.subject.operations, parent.subject.operations, wanted);
    if k != 0 { OperationsAttenuate(signed, now, parent, None, None, depth + 1, wanted, k - 1); }
  }

  /** The depth reported for an accepted credential is the number of credentials above it. */
  lemma {:induction false} DepthCounts(signed: Signed, now: nat, vc: Credential, path: Option<string>,
                                       op: Option<string>, depth: nat)
    requires Verify(signed, now, vc, path, op, depth).Ok?
    ensures Verify(signed, now, vc, path, op, depth).value.chainDepth == depth + |Ancestors(vc)|
    decreases vc
  {
    hide AdmitsPath, AdmitsOperation, PathsContained, OperationsContained;
    if vc.parent.Some? { DepthCounts(signed, now, vc.parent.value, None, None, depth + 1); }
  }

  /** The credential and all above it, the leaf first. */
  function Chain(vc: Credential): (chain: seq<Credential>)
    ensures |chain| == 1 + |Ancestors(vc)|
  {
    [vc] + Ancestors(vc)
  }

  predicate Current(signed: Signed, now: nat, vc: Credential)
  {
    vc.issued <= now <= vc.expires && vc.proof.Some? && signed(vc)
  }

  /** `parent` may have delegated `child`. */
  predicate Delegates(parent: Credential, child: Credential)
  {
    && parent.subject.id == child.issuer && 0 < parent.subject.delegationDepth
    && OperationsContained(child.subject.operations, parent.subject.operations)
    && PathsContained(child.subject.paths, parent.subject.paths)
  }

  predicate Admits(vc: Credential, path: Option<string>, op: Option<string>)
  {
    && (path.Some? ==> AdmitsPath(vc.subject.paths, path.value))
    && (op.Some? ==> AdmitsOperation(vc.subject.operations, op.value))
  }

  /** Accepted means: the leaf admits the request, every credential is current, and every one delegated the next. */
  lemma {:induction false} AcceptedIff(signed: Signed, now: nat, vc: Credential, path: Option<string>,
                                       op: Option<string>, depth: nat)
    ensures Verify(signed, now, vc, path, op, depth).Ok? <==>
      Admits(vc, path, op) && Linked(signed, now, Chain(vc))
    decreases vc
  {
    hide AdmitsPath, AdmitsOperation, PathsContained, OperationsContained;
    var chain := Chain(vc);
    assert chain[0] == vc;
    if vc.parent.Some? {
      var parent := vc.parent.value;
      var above := Chain(parent);
      AcceptedIff(signed, now, parent, None, None, depth + 1);
      assert chain == [vc] + above && above[0] == parent;
      LinksSplit(signed, now, vc, above);
    }
  }

  predicate Linked(signed: Signed, now: nat, chain: seq<Credential>)
  {
    && (forall k :: 0 <= k < |chain| ==> Current(signed, now, chain[k]))
    && (forall k :: 0 <= k < |chain| - 1 ==> Delegates(chain[k + 1], chain[k]))
  }

  lemma LinksSplit(signed: Signed, now: nat, vc: Credential, above: seq<Credential>)
    requires above != []
    ensures Linked(signed, now, [vc] + above) <==>
      Current(signed, now, vc) && Delegates(above[0], vc) && Linked(signed, now, above)
  {
    hide Current, Delegates;
    var chain := [vc] + above;
    if Linked(signed, now, chain) {
      assert Delegates(chain[1], chain[0]);
      forall k | 0 <= k < |above| ensures Current(signed, now, above[k]) { assert Current(signed, now, chain[k + 1]); }
      forall k | 0 <= k < |above| - 1 ensures Delegates(above[k + 1], above[k]) {
        assert Delegates(chain[k + 2], chain[k + 1]);
      }
    }
    if Current(signed, now, vc) && Delegates(above[0], vc) && Linked(signed, now, above) {
      forall k | 0 <= k < |chain| - 1 ensures Delegates(chain[k + 1], chain[k]) {
        if k != 0 { assert Delegates(above[k - 1 + 1], above[k - 1]); }
      }
    }
  }

  // --- What can be handed on ---

  /** Whatever `id` issues, its holder can prove. */
  ghost predicate CanSign(signed: Signed, sign: Signer, id: string)
  {
    forall vc: Credential :: vc.issuer == id && vc.proof.None? ==> signed(Sealed(sign, vc))
  }

  /** The credential verifies and may be delegated. */
  predicate Delegable(signed: Signed, now: nat, vc: Credential)
  {
    Verify(signed, now, vc, None, None, 0).Ok? && 0 < vc.subject.delegationDepth
  }

  /** What an accepted credential directly below `top` admits, `top` admits. */
  ghost predicate ChildrenNarrow(signed: Signed, now: nat, top: Credential)
  {
    forall vc: Credential, path: string ::
      vc.parent == Some(top) && Verify(signed, now, vc, None, None, 0).Ok? && AdmitsPath(vc.subject.paths, path) ==>
        AdmitsPath(top.subject.paths, path)
  }

  predicate Above(vc: Credential, k: nat, top: Credential)
  {
    k < |Ancestors(vc)| && Ancestors(vc)[k] == top
  }

  /** What an accepted credential at any depth below `top` admits, `top` admits. */
  ghost predicate DescendantsNarrow(signed: Signed, now: nat, top: Credential)
  {
    forall vc: Credential, k: nat, path: string ::
      Above(vc, k, top) && Verify(signed, now, vc, None, None, 0).Ok? && AdmitsPath(vc.subject.paths, path) ==>
        AdmitsPath(top.subject.paths, path)
  }

  lemma AnyDepth(signed: Signed, now: nat, vc: Credential, d: nat, e: nat)
    requires Verify(signed, now, vc, None, None, d).Ok?
    ensures Verify(signed, now, vc, None, None, e).Ok?
  {
    AcceptedIff(signed, now, vc, None, None, d);
    AcceptedIff(signed, now, vc, None, None, e);
  }

  /** Every credential above an accepted one verifies and may be delegated. */
  lemma {:induction false} AncestorDelegable(signed: Signed, now: nat, vc: Credential, depth: nat, k: nat)
    requires Verify(signed, now, vc, None, None, depth).Ok? && k < |Ancestors(vc)|
    ensures Delegable(signed, now, Ancestors(vc)[k])
    decreases vc
  {
    hide AdmitsPath, AdmitsOperation, PathsContained, OperationsContained;
    var parent := vc.parent.value;
    if k == 0 {
      AnyDepth(signed, now, parent, depth + 1, 0);
    } else {
      assert Ancestors(parent)[k - 1] == Ancestors(vc)[k];
      AncestorDelegable(signed, now, parent, depth + 1, k - 1);
    }
  }

  function OnePath(pattern: string): Subject
  {
    Subject("", "", [pattern], [], 0, 0)
  }

  /** The credential that hands on exactly one pattern. */
  function Passing(sign: Signer, now: nat, parent: Credential, pattern: string): Credential
  {
    Sealed(sign, Credential("", parent.subject.id, now, now, OnePath(pattern), Some(parent), None))
  }

  /** It is what issuing gives, and it verifies. */
  lemma PassingVerifies(signed: Signed, sign: Signer, now: nat, parent: Credential, pattern: string)
    requires Delegable(signed, now, parent) && CanSign(signed, sign, parent.subject.id)
    requires AdmitsPath(parent.subject.paths, pattern)
    ensures Issue("", parent.subject.id, OnePath(pattern), now, 0, Some(parent), sign) ==
      Ok(Passing(sign, now, parent, pattern))
    ensures Verify(signed, now, Passing(sign, now, parent, pattern), None, None, 0).Ok?
  {
    hide AdmitsPath, AdmitsOperation;
    assert PathsContained([pattern], parent.subject.paths) && OperationsContained([], parent.subject.operations);
    AnyDepth(signed, now, parent, 0, 1);
    var blank := Credential("", parent.subject.id, now, now, OnePath(pattern), Some(parent), None);
    assert signed(Sealed(sign, blank));
  }

  /**
   * All that the holder of a credential can hand on directly stays within it exactly when the credential
   * cannot be delegated or its own patterns are covered.
   */
  lemma DelegationNarrowsIff(signed: Signed, sign: Signer, now: nat, top: Credential)
    requires CanSign(signed, sign, top.subject.id)
    ensures ChildrenNarrow(signed, now, top) <==> (Delegable(signed, now, top) ==> Covered(top.subject.paths))
  {
    hide MatchesPath, DoubleStar, Covered, CanSign, Delegable;
    NarrowsIff(top.subject.paths);
    if Delegable(signed, now, top) ==> Covered(top.subject.paths) {
      forall vc: Credential, path: string
        | vc.parent == Some(top) && Verify(signed, now, vc, None, None, 0).Ok? && AdmitsPath(vc.subject.paths, path)
        ensures AdmitsPath(top.subject.paths, path)
      {
        assert Ancestors(vc)[0] == top;
        AncestorDelegable(signed, now, vc, 0, 0);
        PathsAttenuate(signed, now, vc, None, None, 0, path, 0);
      }
    }
    if ChildrenNarrow(signed, now, top) && Delegable(signed, now, top) {
      forall child: string, path: string | AdmitsPath(top.subject.paths, child) && MatchesPath(child, path)
        ensures AdmitsPath(top.subject.paths, path)
      {
        PassingVerifies(signed, sign, now, top, child);
        assert MatchesPath(Passing(sign, now, top, child).subject.paths[0], path);
      }
    }
  }

  /** And so does all that anyone below can hand on, at any depth. */
  lemma DescendantsNarrowIff(signed: Signed, sign: Signer, now: nat, top: Credential)
    requires CanSign(signed, sign, top.subject.id)
    ensures DescendantsNarrow(signed, now, top) <==> (Delegable(signed, now, top) ==> Covered(top.subject.paths))
  {
    hide AdmitsPath, Covered, CanSign, Delegable, Verify;
    DelegationNarrowsIff(signed, sign, now, top);
    if Delegable(signed, now, top) ==> Covered(top.subject.paths) {
      forall vc: Credential, k: nat, path: string
        | Above(vc, k, top) && Verify(signed, now, vc, None, None, 0).Ok? && AdmitsPath(vc.subject.paths, path)
        ensures AdmitsPath(top.subject.paths, path)
      {
        AncestorDelegable(signed, now, vc, 0, k);
        PathsAttenuate(signed, now, vc, None, None, 0, path, k);
      }
    }
    if DescendantsNarrow(signed, now, top) {
      forall vc: Credential, path: string
        | vc.parent == Some(top) && Verify(signed, now, vc, None, None, 0).Ok? && AdmitsPath(vc.subject.paths, path)
        ensures AdmitsPath(top.subject.paths, path)
      {
        assert Above(vc, 0, top);
      }
    }
  }

  /** The root credential that grants /a** once more. */
  function StarRoot(sign: Signer, now: nat, issuer: string, holder: string): Credential
  {
    Sealed(sign, Credential("", issuer, now, now, Subject(holder, "", ["/a**"], [], 0, 1), None, None))
  }

  /** For any two holders that can sign, an issued and accepted chain whose leaf is granted what its root denies. */
  lemma AcceptedEscalation(signed: Signed, sign: Signer, now: nat, issuer: string, holder: string)
    requires CanSign(signed, sign, issuer) && CanSign(signed, sign, holder)
    ensures var root := StarRoot(sign, now, issuer, holder);
      var leaf := Passing(sign, now, root, "/a*");
      && Issue("", issuer, root.subject, now, 0, None, sign) == Ok(root)
      && Issue("", holder, leaf.subject, now, 0, Some(root), sign) == Ok(leaf)
      && Verify(signed, now, leaf, Some("/ax"), None, 0).Ok?
      && !AdmitsPath(root.subject.paths, "/ax")
  {
    var blank := Credential("", issuer, now, now, Subject(holder, "", ["/a**"], [], 0, 1), None, None);
    assert signed(Sealed(sign, blank));
    var root := StarRoot(sign, now, issuer, holder);
    assert Delegable(signed, now, root);
    StarsMatch();
    assert MatchesPath(root.subject.paths[0], "/a*");
    PassingVerifies(signed, sign, now, root, "/a*");
    var leaf := Passing(sign, now, root, "/a*");
    assert MatchesPath(leaf.subject.paths[0], "/ax");
    AcceptedIff(signed, now, leaf, None, None, 0);
    AcceptedIff(signed, now, leaf, Some("/ax"), None, 0);
  }

  lemma StarsMatch()
    ensures MatchesPath("/a**", "/a*") && MatchesPath("/a*", "/ax") && !MatchesPath("/a**", "/ax")
  {
    assert "/a**"[..3] == "/a*" && "/a*"[..2] == "/a";
  }

  // --- Chains that were issued ---

  /** Every delegation in the chain obeyed the issuing rules. */
  predicate Issued(vc: Credential)
    decreases vc
  {
    match vc.parent
    case None => true
    case Some(p) =>
      && Issued(p) && vc.subject.delegationDepth < p.subject.delegationDepth && vc.expires <= p.expires
      && OperationsContained(vc.subject.operations, p.subject.operations)
      && PathsContained(vc.subject.paths, p.subject.paths)
  }

  lemma IssueKeepsIssued(id: string, issuer: string, subject: Subject, now: nat, duration: nat,
                         parent: Option<Credential>, sign: Signer)
    requires parent.Some? ==> Issued(parent.value)
    requires Issue(id, issuer, subject, now, duration, parent, sign).Ok?
    ensures Issued(Issue(id, issuer, subject, now, duration, parent, sign).value)
  {
    hide PathsContained, OperationsContained;
  }

  function RootOf(vc: Credential): Credential
    decreases vc
  {
    match vc.parent
    case None => vc
    case Some(p) => RootOf(p)
  }

  /** An issued chain is no longer than the root's delegation depth, and expires with its tightest link. */
  lemma {:induction false} IssuedIsShort(vc: Credential)
    requires Issued(vc)
    ensures |Ancestors(vc)| + vc.subject.delegationDepth <= RootOf(vc).subject.delegationDepth
    ensures vc.expires <= RootOf(vc).expires
    decreases vc
  {
    hide PathsContained, OperationsContained;
    if vc.parent.Some? { IssuedIsShort(vc.parent.value); }
  }

  /** A chain of `n` delegations by one holder that each pass on the power to delegate once more. */
  function Relay(sign: Signer, now: nat, id: string, n: nat): Credential
  {
    Sealed(sign, Credential("", id, now, now, Subject(id, "", [], [], 0, 1),
                            if n == 0 then None else Some(Relay(sign, now, id, n - 1)), None))
  }

  lemma NothingContained(paths: seq<string>, operations: seq<string>)
    ensures PathsContained([], paths) && OperationsContained([], operations)
  {
  }

  lemma RelaySigned(signed: Signed, sign: Signer, now: nat, id: string, n: nat)
    requires CanSign(signed, sign, id)
    ensures signed(Relay(sign, now, id, n))
  {
    var above := if n == 0 then None else Some(Relay(sign, now, id, n - 1));
    assert signed(Sealed(sign, Credential("", id, now, now, Subject(id, "", [], [], 0, 1), above, None)));
  }

  /** Verifying alone bounds no chain: below a root of delegation depth one, chains of every length are accepted. */
  lemma {:induction false} VerifyingBoundsNoChain(signed: Signed, sign: Signer, now: nat, id: string, n: nat,
                                                  depth: nat)
    requires CanSign(signed, sign, id)
    ensures var vc := Relay(sign, now, id, n);
      && Verify(signed, now, vc, None, None, depth).Ok?
      && |Ancestors(vc)| == n && RootOf(vc).subject.delegationDepth == 1
    decreases n
  {
    hide AdmitsPath, AdmitsOperation, PathsContained, OperationsContained, CanSign;
    NothingContained([], []);
    RelaySigned(signed, sign, now, id, n);
    if n != 0 {
      VerifyingBoundsNoChain(signed, sign, now, id, n - 1, depth + 1);
    }
  }

  /** A freshly issued credential verifies exactly when its parent, if any, is its issuer's and itself verifies. */
  lemma IssuedVerifiesIff(id: string, issuer: string, subject: Subject, now: nat, duration: nat,
                          parent: Option<Credential>, sign: Signer, signed: Signed, later: nat)
    requires Issue(id, issuer, subject, now, duration, parent, sign).Ok? && now <= later <= now + duration
    requires signed(Issue(id, issuer, subject, now, duration, parent, sign).value)
    ensures var vc := Issue(id, issuer, subject, now, duration, parent, sign).value;
      Verify(signed, later, vc, None, None, 0).Ok? <==>
      (parent.Some? ==> parent.value.subject.id == issuer && Verify(signed, later, parent.value, None, None, 1).Ok?)
  {
    hide PathsContained, OperationsContained, AdmitsPath, AdmitsOperation;
  }
}
