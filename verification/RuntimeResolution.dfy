/** Resolving source runtimes: eligibility, ordering, and checksum-bound profiles. */
module RuntimeResolution {
  import opened Wrappers
  import opened Orders
  import opened Versions

  const POLICY_VERSION := "angular-source-runtime-v1"

  datatype Candidate = Candidate(
    profileId: string, operatingSystem: string, architecture: string, nodeExecutable: string, nodeExact: string,
    npmExecutable: string, npmExact: string, npxExecutable: string, npxExact: string, angularCliExact: Option<string>,
    registryConfigured: bool, proxyConfigured: bool, certificateValid: bool, environmentAllowlistValid: bool,
    cachePolicyValid: bool, networkPolicy: string, available: bool)

  datatype Request = Request(
    sourceAngular: string, sourceTypescript: Option<string>, sourceRxjs: Option<string>, candidates: seq<Candidate>,
    expectedPolicy: string, validatedAt: int)

  /** Everything a profile's checksum covers. */
  datatype Payload = Payload(
    profileId: string, operatingSystem: string, architecture: string, nodeExecutable: string, nodeExact: string,
    packageManager: string, npmExecutable: string, npmExact: string, npxExecutable: string, npxExact: string,
    cliExecution: string, angularCliExact: Option<string>, proxyProfile: string, certificateProfile: string,
    networkPolicy: string, environmentAllowlist: seq<string>, cachePolicy: string, catalogVersion: string,
    sourceAngular: string, validatedAt: int)

  datatype Profile = Profile(payload: Payload, checksum: string)

  type Digest = Payload -> string

  ghost predicate Injective(digest: Digest) { forall a, b :: digest(a) == digest(b) ==> a == b }

  /** Why a source or a candidate is turned down. */
  datatype Blocker =
    | AngularCliVersionIncompatible
    | CachePolicyInvalid
    | CertificateInvalid
    | EnvironmentAllowlistInvalid
    | NetworkPolicyUnapproved
    | NodeVersionIncompatible
    | NoCompatibleRuntimeProfile
    | PackageManagerVersionUnresolved
    | RegistryUnavailable
    | RuntimePlatformIncompatible
    | RuntimeProfileUnavailable
    | SourceAngularVersionUnsupported
    | SourceRxjsVersionIncompatible
    | SourceTypescriptVersionIncompatible

  datatype Status = Resolved | SelectionRequired | Blocked

  datatype Resolution = Resolution(status: Status, profiles: seq<Profile>,
                                   selected: Option<Profile>, blockers: seq<Blocker>)

  function Lower(s: string): string {
    if s == [] then [] else [if 'A' <= s[0] <= 'Z' then s[0] - 'A' + 'a' else s[0]] + Lower(s[1..])
  }

  const NODE_MINIMUMS: map<nat, Version> :=
    map[18 := Version(18, 19, 1), 20 := Version(20, 11, 1), 22 := Version(22, 0, 0)]

  function Note(bad: bool, reason: Blocker): seq<Blocker> { if bad then [reason] else [] }

  predicate Named(s: Option<string>) { s.Some? && s.value != "" }

  function SourceBlockers(r: Request): seq<Blocker> {
    var source := Parse(r.sourceAngular);
    Note(source.None? || source.value.major != 18 || source.value.minor > 2, SourceAngularVersionUnsupported) +
    Note(Named(r.sourceTypescript) && !TypescriptAllowed(r.sourceTypescript.value),
         SourceTypescriptVersionIncompatible) +
    Note(Named(r.sourceRxjs) && !RxjsAllowed(r.sourceRxjs.value), SourceRxjsVersionIncompatible)
  }

  predicate TypescriptAllowed(s: string) {
    var v := Parse(s);
    v.Some? && AtLeast(v.value, Version(5, 4, 0)) && !AtLeast(v.value, Version(5, 6, 0))
  }

  predicate RxjsAllowed(s: string) {
    var v := Parse(s);
    v.Some? && (AtLeast(v.value, Version(6, 5, 3)) || AtLeast(v.value, Version(7, 4, 0)))
  }

  predicate NodeAllowed(c: Candidate) {
    var node := Parse(c.nodeExact);
    node.Some? && node.value.major in NODE_MINIMUMS && AtLeast(node.value, NODE_MINIMUMS[node.value.major])
  }

  predicate CliAllowed(c: Candidate) {
    Named(c.angularCliExact) ==>
      var cli := Parse(c.angularCliExact.value); cli.Some? && cli.value.major == 18
  }

  function CandidateBlockers(c: Candidate): seq<Blocker> { InstallationBlockers(c) + EnvironmentBlockers(c) }

  function InstallationBlockers(c: Candidate): seq<Blocker> {
    Note(!c.available, RuntimeProfileUnavailable) +
    Note(Lower(c.operatingSystem) != "windows" || Lower(c.architecture) != "amd64", RuntimePlatformIncompatible) +
    Note(!NodeAllowed(c), NodeVersionIncompatible) +
    Note(Parse(c.npmExact).None? || Parse(c.npxExact).None?, PackageManagerVersionUnresolved) +
    Note(!CliAllowed(c), AngularCliVersionIncompatible)
  }

  function EnvironmentBlockers(c: Candidate): seq<Blocker> {
    Note(!c.registryConfigured, RegistryUnavailable) +
    Note(!c.certificateValid, CertificateInvalid) +
    Note(!c.environmentAllowlistValid, EnvironmentAllowlistInvalid) +
    Note(!c.cachePolicyValid, CachePolicyInvalid) +
    Note(c.networkPolicy != "approved-registries-only", NetworkPolicyUnapproved)
  }

  function PayloadOf(c: Candidate, sourceAngular: string, validatedAt: int, policyVersion: string): Payload {
    Payload(c.profileId, c.operatingSystem, c.architecture, c.nodeExecutable, c.nodeExact, "npm",
            c.npmExecutable, c.npmExact,
            c.npxExecutable, c.npxExact, "npx", c.angularCliExact, if c.proxyConfigured then "configured" else "none",
            if c.certificateValid then "validated" else "invalid", c.networkPolicy,
            ["PATH", "HTTP_PROXY", "HTTPS_PROXY"],
            "approved", policyVersion, sourceAngular, validatedAt)
  }

  function Issue(digest: Digest, c: Candidate, sourceAngular: string,
                 validatedAt: int, policyVersion: string): Profile {
    var payload := PayloadOf(c, sourceAngular, validatedAt, policyVersion);
    Profile(payload, "sha256:" + digest(payload))
  }

  // ----- ordering

  /** Descending by (node version, profile id); an unreadable version comes last. */
  predicate Before(a: Profile, b: Profile) {
    var x, y := Parse(a.payload.nodeExact), Parse(b.payload.nodeExact);
    if x == y then StringLeq(b.payload.profileId, a.payload.profileId)
    else y.None? || (x.Some? && AtLeast(x.value, y.value))
  }

  /** A higher Node version comes first; among equal ones, the later profile id. */
  lemma BeforeIff(a: Profile, b: Profile, x: Version, y: Version)
    requires Parse(a.payload.nodeExact) == Some(x) && Parse(b.payload.nodeExact) == Some(y)
    ensures Before(a, b) <==>
      || x.major > y.major
      || (x.major == y.major && x.minor > y.minor)
      || (x.major == y.major && x.minor == y.minor && x.patch > y.patch)
      || (x == y && StringLeq(b.payload.profileId, a.payload.profileId))
  {
  }

  lemma BeforeIsPreorder()
    ensures Preorder(Before)
  {
    StringOrder();
    AtLeastIsTotalOrder();
    forall a, b ensures Before(a, b) || Before(b, a) {
      var x, y := a.payload.profileId, b.payload.profileId;
      assert StringLeq(x, y) || StringLeq(y, x);
    }
    forall a, b, c | Before(a, b) && Before(b, c) ensures Before(a, c) {
      BeforeTransitive(a, b, c);
    }
  }

  lemma BeforeTransitive(a: Profile, b: Profile, c: Profile)
    requires TotalOrder(StringLeq) && TotalOrder(AtLeast) && Before(a, b) && Before(b, c)
    ensures Before(a, c)
  {
    var x, y, z := Parse(a.payload.nodeExact), Parse(b.payload.nodeExact), Parse(c.payload.nodeExact);
    if x == y == z {
      assert StringLeq(c.payload.profileId, b.payload.profileId) && StringLeq(b.payload.profileId, a.payload.profileId);
    }
  }

  // ----- resolution

  /** Every check on the candidate passes. */
  predicate Compatible(c: Candidate) {
    && c.available && Lower(c.operatingSystem) == "windows" && Lower(c.architecture) == "amd64"
    && NodeAllowed(c) && Parse(c.npmExact).Some? && Parse(c.npxExact).Some? && CliAllowed(c)
    && c.registryConfigured && c.certificateValid && c.environmentAllowlistValid && c.cachePolicyValid
    && c.networkPolicy == "approved-registries-only"
  }

  lemma UnblockedIff(c: Candidate)
    ensures CandidateBlockers(c) == [] <==> Compatible(c)
  {
  }

  /** The Node versions that pass. */
  lemma NodeAllowedIff(c: Candidate)
    ensures NodeAllowed(c) <==>
      Parse(c.nodeExact).Some? &&
      var v := Parse(c.nodeExact).value;
      || (v.major == 18 && (v.minor > 19 || (v.minor == 19 && v.patch >= 1)))
      || (v.major == 20 && (v.minor > 11 || (v.minor == 11 && v.patch >= 1)))
      || v.major == 22
  {
  }

  lemma CliAllowedIff(c: Candidate)
    ensures CliAllowed(c) <==>
      || c.angularCliExact.None? || c.angularCliExact == Some("")
      || (Parse(c.angularCliExact.value).Some? && Parse(c.angularCliExact.value).value.major == 18)
  {
  }

  /** The same letter, the second one in lower case. */
  predicate SameLetter(c: char, d: char) { c == d || ('a' <= d <= 'z' && c == d - 'a' + 'A') }

  predicate NoCapital(c: char) { !('A' <= c <= 'Z') }

  /** Texts are compared letter by letter, upper or lower case. */
  lemma {:induction false} LowerIff(s: string, t: string)
    requires forall i :: 0 <= i < |t| ==> NoCapital(t[i])
    ensures Lower(s) == t <==> |s| == |t| && forall i :: 0 <= i < |t| ==> SameLetter(s[i], t[i])
  {
    LowerAt(s);
    if |s| == |t| {
      assert Lower(s) == t <==> forall i :: 0 <= i < |t| ==> Lower(s)[i] == t[i];
      forall i | 0 <= i < |t| ensures Lower(s)[i] == t[i] <==> SameLetter(s[i], t[i]) {
        LetterLowers(s[i], t[i]);
      }
    }
  }

  lemma LetterLowers(c: char, d: char)
    requires NoCapital(d)
    ensures (if 'A' <= c <= 'Z' then c - 'A' + 'a' else c) == d <==> SameLetter(c, d)
  {
  }

  lemma {:induction false} LowerAt(s: string)
    ensures |Lower(s)| == |s|
    ensures forall i :: 0 <= i < |s| ==> Lower(s)[i] == if 'A' <= s[i] <= 'Z' then s[i] - 'A' + 'a' else s[i]
  {
    if s != [] {
      LowerAt(s[1..]);
      assert forall i :: 0 < i < |s| ==> s[i] == s[1..][i - 1] && Lower(s)[i] == Lower(s[1..])[i - 1];
    }
  }

  /** The check that a reason reports as failed. */
  predicate Fails(c: Candidate, reason: Blocker) {
    match reason
    case RuntimeProfileUnavailable => !c.available
    case RuntimePlatformIncompatible => !(Lower(c.operatingSystem) == "windows" && Lower(c.architecture) == "amd64")
    case NodeVersionIncompatible => !NodeAllowed(c)
    case PackageManagerVersionUnresolved => !(Parse(c.npmExact).Some? && Parse(c.npxExact).Some?)
    case AngularCliVersionIncompatible => !CliAllowed(c)
    case RegistryUnavailable => !c.registryConfigured
    case CertificateInvalid => !c.certificateValid
    case EnvironmentAllowlistInvalid => !c.environmentAllowlistValid
    case CachePolicyInvalid => !c.cachePolicyValid
    case NetworkPolicyUnapproved => c.networkPolicy != "approved-registries-only"
    case _ => false
  }

  lemma FiveNotes(a: (bool, Blocker), b: (bool, Blocker), c: (bool, Blocker), d: (bool, Blocker),
                  e: (bool, Blocker), r: Blocker)
    ensures r in Note(a.0, a.1) + Note(b.0, b.1) + Note(c.0, c.1) + Note(d.0, d.1) + Note(e.0, e.1) <==>
      || (a.0 && r == a.1) || (b.0 && r == b.1) || (c.0 && r == c.1) || (d.0 && r == d.1) || (e.0 && r == e.1)
  {
    var x := Note(a.0, a.1) + Note(b.0, b.1);
    assert r in x <==> (a.0 && r == a.1) || (b.0 && r == b.1);
    var y := x + Note(c.0, c.1);
    assert r in y <==> r in x || (c.0 && r == c.1);
    var z := y + Note(d.0, d.1);
    assert r in z <==> r in y || (d.0 && r == d.1);
  }

  lemma InstallationIff(c: Candidate, r: Blocker)
    ensures r in InstallationBlockers(c) <==>
      Fails(c, r) && r in {RuntimeProfileUnavailable, RuntimePlatformIncompatible, NodeVersionIncompatible,
                           PackageManagerVersionUnresolved, AngularCliVersionIncompatible}
  {
    FiveNotes((!c.available, RuntimeProfileUnavailable),
              (Lower(c.operatingSystem) != "windows" || Lower(c.architecture) != "amd64", RuntimePlatformIncompatible),
              (!NodeAllowed(c), NodeVersionIncompatible),
              (Parse(c.npmExact).None? || Parse(c.npxExact).None?, PackageManagerVersionUnresolved),
              (!CliAllowed(c), AngularCliVersionIncompatible), r);
  }

  lemma EnvironmentIff(c: Candidate, r: Blocker)
    ensures r in EnvironmentBlockers(c) <==>
      Fails(c, r) && r in {RegistryUnavailable, CertificateInvalid, EnvironmentAllowlistInvalid, CachePolicyInvalid,
                           NetworkPolicyUnapproved}
  {
    FiveNotes((!c.registryConfigured, RegistryUnavailable), (!c.certificateValid, CertificateInvalid),
              (!c.environmentAllowlistValid, EnvironmentAllowlistInvalid), (!c.cachePolicyValid, CachePolicyInvalid),
              (c.networkPolicy != "approved-registries-only", NetworkPolicyUnapproved), r);
  }

  /** A reason is given exactly if its check fails. */
  lemma BlockerIff(c: Candidate, r: Blocker)
    ensures r in CandidateBlockers(c) <==> Fails(c, r)
  {
    InstallationIff(c, r);
    EnvironmentIff(c, r);
  }

  /** The profile says about the candidate what the candidate says, under this policy. */
  predicate Describes(p: Profile, c: Candidate, r: Request) {
    var d := p.payload;
    && d.profileId == c.profileId && d.operatingSystem == c.operatingSystem && d.architecture == c.architecture
    && d.nodeExecutable == c.nodeExecutable && d.nodeExact == c.nodeExact
    && d.npmExecutable == c.npmExecutable && d.npmExact == c.npmExact
    && d.npxExecutable == c.npxExecutable && d.npxExact == c.npxExact
    && d.packageManager == "npm" && d.cliExecution == "npx" && d.angularCliExact == c.angularCliExact
    && (d.proxyProfile == "configured" <==> c.proxyConfigured) && (d.proxyProfile == "none" <==> !c.proxyConfigured)
    && (d.certificateProfile == "validated" <==> c.certificateValid)
    && (d.certificateProfile == "invalid" <==> !c.certificateValid)
    && d.networkPolicy == c.networkPolicy && d.environmentAllowlist == ["PATH", "HTTP_PROXY", "HTTPS_PROXY"]
    && d.cachePolicy == "approved" && d.catalogVersion == r.expectedPolicy
    && d.sourceAngular == r.sourceAngular && d.validatedAt == r.validatedAt && "sha256:" <= p.checksum
  }

  lemma IssuedDescribes(digest: Digest, c: Candidate, r: Request)
    ensures Describes(Issue(digest, c, r.sourceAngular, r.validatedAt, r.expectedPolicy), c, r)
  {
    assert "configured"[0] != "none"[0] && "validated"[0] != "invalid"[0];
  }

  /** Every profile offered is that of a compatible candidate. */
  lemma {:induction false} EligibleDescribe(digest: Digest, r: Request, candidates: seq<Candidate>, p: Profile)
    returns (i: nat)
    requires p in Eligible(digest, r, candidates)
    ensures i < |candidates| && Compatible(candidates[i]) && Describes(p, candidates[i], r)
  {
    var n := |candidates| - 1;
    IssuedDescribes(digest, candidates[n], r);
    if p in Eligible(digest, r, candidates[..n]) {
      i := EligibleDescribe(digest, r, candidates[..n], p);
    } else {
      i := n;
    }
  }

  /** The profiles of the compatible candidates, in request order. */
  function Eligible(digest: Digest, r: Request, candidates: seq<Candidate>): seq<Profile> {
    if candidates == [] then []
    else
      var last := candidates[|candidates| - 1];
      Eligible(digest, r, candidates[..|candidates| - 1]) +
      if Compatible(last) then
        [Issue(digest, last, r.sourceAngular, r.validatedAt, r.expectedPolicy)] else []
  }

  lemma EligibleSnoc(digest: Digest, r: Request, candidates: seq<Candidate>, n: nat)
    requires n < |candidates|
    ensures Eligible(digest, r, candidates[..n + 1]) == Eligible(digest, r, candidates[..n]) +
      if Compatible(candidates[n]) then
        [Issue(digest, candidates[n], r.sourceAngular, r.validatedAt, r.expectedPolicy)] else []
  {
    assert candidates[..n + 1][..n] == candidates[..n];
  }

  method CompatibleProfiles(digest: Digest, r: Request) returns (compatible: seq<Profile>)
    ensures compatible == Eligible(digest, r, r.candidates)
  {
    compatible := [];
    for i := 0 to |r.candidates|
      invariant compatible == Eligible(digest, r, r.candidates[..i])
    {
      EligibleSnoc(digest, r, r.candidates, i);
      UnblockedIff(r.candidates[i]);
      var reasons := CandidateBlockers(r.candidates[i]);
      if reasons == [] {
        compatible := compatible + [Issue(digest, r.candidates[i], r.sourceAngular, r.validatedAt, r.expectedPolicy)];
      } else {
        assert compatible + [] == compatible;
      }
    }
    assert r.candidates[..|r.candidates|] == r.candidates;
  }

  function Conclude(issued: seq<Profile>): Resolution {
    var sorted := Sort(Before, issued);
    if sorted == [] then Resolution(Blocked, [], None, [NoCompatibleRuntimeProfile])
    else if |sorted| > 1 then Resolution(SelectionRequired, sorted, None, [])
    else Resolution(Resolved, sorted, Some(sorted[0]), [])
  }

  /** All eligible profiles are offered, best first; the status follows their number. */
  lemma ConcludeIff(issued: seq<Profile>)
    ensures var out := Conclude(issued);
      && multiset(out.profiles) == multiset(issued)
      && Sorted(Before, out.profiles)
      && (out.status == Blocked <==> issued == [])
      && (out.status == Resolved <==> |issued| == 1)
      && (out.status == SelectionRequired <==> |issued| > 1)
      && out.selected == (if |issued| == 1 then Some(issued[0]) else None)
      && (out.blockers == [] <==> issued != [])
  {
    var sorted := Sort(Before, issued);
    BeforeIsPreorder();
    SortSorted(Before, issued);
    SameElements(sorted, issued);
    if |issued| == 1 {
      assert sorted[0] in issued;
    }
  }

  method Resolve(digest: Digest, r: Request) returns (out: Option<Resolution>)
    ensures out.None? <==> r.expectedPolicy != "angular-source-runtime-v1"
    ensures out.Some? && SourceBlockers(r) != [] ==> out.value == Resolution(Blocked, [], None, SourceBlockers(r))
    ensures out.Some? && SourceBlockers(r) == [] ==>
      var eligible := Eligible(digest, r, r.candidates);
      && multiset(out.value.profiles) == multiset(eligible) && Sorted(Before, out.value.profiles)
      && out.value.status ==
           (if eligible == [] then Blocked else if |eligible| == 1 then Resolved else SelectionRequired)
      && out.value.selected == (if |eligible| == 1 then Some(eligible[0]) else None)
      && out.value.blockers == if eligible == [] then [NoCompatibleRuntimeProfile] else []
  {
    if r.expectedPolicy != POLICY_VERSION {
      return None;
    }
    var blockers := SourceBlockers(r);
    if blockers != [] {
      return Some(Resolution(Blocked, [], None, blockers));
    }
    var compatible := CompatibleProfiles(digest, r);
    ConcludeIff(compatible);
    return Some(Conclude(compatible));
  }

  /**
   A source runtime passes exactly for Angular 18.0 to 18.2, TypeScript from 5.4.0 below 5.6.0 and RxJS from
   6.5.3 on. The second RxJS minimum, 7.4.0, never decides: 7.0.0 already passes.
   */
  lemma SourceAllowedIff(r: Request)
    ensures SourceBlockers(r) == [] <==>
      && Parse(r.sourceAngular).Some?
      && Parse(r.sourceAngular).value.major == 18 && Parse(r.sourceAngular).value.minor <= 2
      && (Named(r.sourceTypescript) ==>
            Parse(r.sourceTypescript.value).Some? &&
            var v := Parse(r.sourceTypescript.value).value; v.major == 5 && 4 <= v.minor <= 5)
      && (Named(r.sourceRxjs) ==>
            Parse(r.sourceRxjs.value).Some? && AtLeast(Parse(r.sourceRxjs.value).value, Version(6, 5, 3)))
  {
  }

  /** The reasons given for a source are those whose check fails. */
  lemma SourceBlockerIff(r: Request)
    ensures var b := SourceBlockers(r);
      && (SourceAngularVersionUnsupported in b <==>
            !(Parse(r.sourceAngular).Some? && Parse(r.sourceAngular).value.major == 18 &&
              Parse(r.sourceAngular).value.minor <= 2))
      && (SourceTypescriptVersionIncompatible in b <==>
            Named(r.sourceTypescript) && !TypescriptAllowed(r.sourceTypescript.value))
      && (SourceRxjsVersionIncompatible in b <==> Named(r.sourceRxjs) && !RxjsAllowed(r.sourceRxjs.value))
  {
  }

  // ----- staleness

  predicate IsStale(digest: Digest, p: Profile, c: Candidate, policyVersion: string) {
    p.payload.catalogVersion != policyVersion ||
    Issue(digest, c, p.payload.sourceAngular, p.payload.validatedAt, policyVersion).checksum != p.checksum
  }

  /** The candidate fields a profile is bound to. */
  predicate SameBound(a: Candidate, b: Candidate) {
    && a.profileId == b.profileId && a.operatingSystem == b.operatingSystem && a.architecture == b.architecture
    && a.nodeExecutable == b.nodeExecutable && a.nodeExact == b.nodeExact && a.npmExecutable == b.npmExecutable
    && a.npmExact == b.npmExact && a.npxExecutable == b.npxExecutable && a.npxExact == b.npxExact
    && a.angularCliExact == b.angularCliExact && a.proxyConfigured == b.proxyConfigured
    && a.certificateValid == b.certificateValid && a.networkPolicy == b.networkPolicy
  }

  /** An issued profile is current for exactly the candidates that agree on every bound field under the same policy. */
  lemma StaleIff(digest: Digest, c: Candidate, c': Candidate, sourceAngular: string, validatedAt: int,
                 policy: string, policy': string)
    requires Injective(digest)
    ensures IsStale(digest, Issue(digest, c, sourceAngular, validatedAt, policy), c', policy') <==>
      policy != policy' || !SameBound(c, c')
  {
    var a, b := PayloadOf(c, sourceAngular, validatedAt, policy), PayloadOf(c', sourceAngular, validatedAt, policy');
    var x, y := "sha256:" + digest(a), "sha256:" + digest(b);
    assert x[7..] == digest(a) && y[7..] == digest(b);
  }

  /** A profile is never stale against the candidate it was issued for, whatever the digest. */
  lemma FreshIsNotStale(digest: Digest, c: Candidate, sourceAngular: string, validatedAt: int, policy: string)
    ensures !IsStale(digest, Issue(digest, c, sourceAngular, validatedAt, policy), c, policy)
  {
  }
}
