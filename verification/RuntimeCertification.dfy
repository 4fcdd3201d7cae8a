/** Classifying a runtime against certified profiles and range intersections, and the gate decision. */
module RuntimeCertification {
  import opened Wrappers
  import opened Versions

  datatype Class = ExactCertified | RangeCompatible | Unsupported

  function Text(s: Option<string>): string { if s.Some? then s.value else "" }

  predicate IsProfile(node: Version, npm: Version, profiles: seq<(string, string)>) {
    exists i :: 0 <= i < |profiles| && Str(node) == profiles[i].0 && Str(npm) == profiles[i].1
  }

  function Classify(node: Option<string>, npm: Option<string>, npx: Option<string>, profiles: seq<(string, string)>,
                    sources: seq<string>, targets: seq<string>): Class
  {
    var nodeVersion, npmVersion := Parse(Text(node)), Parse(Text(npm));
    if nodeVersion.None? || npmVersion.None? then Unsupported
    else if IsProfile(nodeVersion.value, npmVersion.value, profiles) then ExactCertified
    else if Parse(Text(npx)).None? then Unsupported
    else if sources == [] || targets == [] then Unsupported
    else if SatisfiesAny(nodeVersion.value, sources) && SatisfiesAny(nodeVersion.value, targets) then RangeCompatible
    else Unsupported
  }

  datatype Descriptor = Descriptor(version: Option<string>, runtimeId: Option<string>)

  datatype Decision = Decision(runtimeId: Option<string>, node: Option<string>, npm: Option<string>, certified: bool,
                               allowed: bool, kind: Class)

  function Normalize(v: Option<string>): Option<string> {
    if v.Some? && v.value != [] && (v.value[0] == 'v' || v.value[0] == 'V') then Some(v.value[1..]) else v
  }

  function Evaluate(node: Option<Descriptor>, npm: Option<Descriptor>, npx: Option<Descriptor>,
                    profiles: seq<(string, string)>, sources: seq<string>, targets: seq<string>): Decision
  {
    if node.None? || npm.None? then Decision(None, None, None, false, false, Unsupported)
    else if profiles == [] && sources == [] && targets == [] then Decision(None, None, None, false, false, Unsupported)
    else
      var nodeExact, npmExact := Normalize(node.value.version), Normalize(npm.value.version);
      var npxExact := if npx.Some? then Normalize(npx.value.version) else None;
      var kind := Classify(nodeExact, npmExact, npxExact, profiles, sources, targets);
      if kind == ExactCertified then Decision(node.value.runtimeId, nodeExact, npmExact, true, true, kind)
      else if kind == RangeCompatible then
        var ids := {node.value.runtimeId, npm.value.runtimeId, if npx.Some? then npx.value.runtimeId else None};
        if npx.None? || None in ids || |ids| != 1 then
          Decision(node.value.runtimeId, nodeExact, npmExact, false, false, Unsupported)
        else Decision(node.value.runtimeId, nodeExact, npmExact, false, true, kind)
      else Decision(node.value.runtimeId, nodeExact, npmExact, false, false, kind)
  }

  /** The version a descriptor reports. */
  function VersionOf(d: Option<Descriptor>): Option<Version> {
    if d.Some? then Parse(Text(Normalize(d.value.version))) else None
  }

  ghost predicate CertifiedRuntime(node: Option<Descriptor>, npm: Option<Descriptor>, profiles: seq<(string, string)>) {
    && VersionOf(node).Some? && VersionOf(npm).Some?
    && (Str(VersionOf(node).value), Str(VersionOf(npm).value)) in profiles
  }

  /** All three tools report a version, belong to one runtime, and the node version meets the range intersection. */
  ghost predicate GovernedRuntime(node: Option<Descriptor>, npm: Option<Descriptor>, npx: Option<Descriptor>,
                                  sources: seq<string>, targets: seq<string>) {
    && VersionOf(node).Some? && VersionOf(npm).Some? && VersionOf(npx).Some?
    && Meets(VersionOf(node).value, Intersection(MinimumsOf(sources), MinimumsOf(targets)))
    && node.value.runtimeId.Some? && node.value.runtimeId == npm.value.runtimeId == npx.value.runtimeId
  }

  /** The version text without a leading v. */
  predicate Strips(text: Option<string>, shown: Option<string>) {
    match (text, shown)
    case (Some(t), Some(u)) => (t == u && (t == "" || (t[0] != 'v' && t[0] != 'V'))) || t == "v" + u || t == "V" + u
    case (None, None) => true
    case _ => false
  }

  /** What a decision about a resolved runtime reports. */
  lemma DecisionReports(node: Descriptor, npm: Descriptor, npx: Option<Descriptor>, profiles: seq<(string, string)>,
                        sources: seq<string>, targets: seq<string>)
    requires profiles != [] || sources != [] || targets != []
    ensures var d := Evaluate(Some(node), Some(npm), npx, profiles, sources, targets);
      d.runtimeId == node.runtimeId && Strips(node.version, d.node) && Strips(npm.version, d.npm)
  {
    StripsNormalized(node.version);
    StripsNormalized(npm.version);
  }

  lemma StripsNormalized(v: Option<string>)
    ensures Strips(v, Normalize(v))
  {
    if v.Some? && v.value != "" {
      assert v.value == [v.value[0]] + v.value[1..];
    }
  }

  lemma OneId(a: Option<string>, b: Option<string>, c: Option<string>)
    ensures |{a, b, c}| == 1 <==> a == b == c
  {
    if a == b == c {
      assert {a, b, c} == {a};
    }
    if |{a, b, c}| == 1 {
      Singleton({a, b, c}, a, b);
      Singleton({a, b, c}, b, c);
    }
  }

  lemma Singleton<T>(s: set<T>, a: T, b: T)
    requires |s| == 1 && a in s && b in s
    ensures a == b
  {
    assert |s - {a}| == 0;
  }

  /** When the gate opens, and with which class. */
  lemma DecisionIff(node: Option<Descriptor>, npm: Option<Descriptor>, npx: Option<Descriptor>,
                    profiles: seq<(string, string)>, sources: seq<string>, targets: seq<string>)
    ensures var d := Evaluate(node, npm, npx, profiles, sources, targets);
      && (d.allowed <==> CertifiedRuntime(node, npm, profiles) || GovernedRuntime(node, npm, npx, sources, targets))
      && (d.certified <==> CertifiedRuntime(node, npm, profiles))
      && (d.kind == Unsupported <==> !d.allowed)
      && (d.kind == ExactCertified <==> d.certified)
  {
    if node.Some? && npm.Some? {
      if VersionOf(node).Some? {
        BothIff(VersionOf(node).value, sources, targets);
      }
      OneId(node.value.runtimeId, npm.value.runtimeId, if npx.Some? then npx.value.runtimeId else None);
    }
  }
}
