/** Validation targets: the executable groups of a policy and the union of requested targets. */
module ValidationTargets {
  import opened Wrappers

  /** The command group of a supported target. */
  function GroupOf(target: string): Option<string> {
    if target == "build" then Some("builds")
    else if target == "test" then Some("tests")
    else if target == "lint" then Some("lint")
    else None
  }

  datatype Error = CheckUnsupported(target: string) | TargetInvalid(target: string) | NothingExecutable

  /** Groups with a non-empty command list. */
  type Plan = set<string>

  predicate Runs(plan: Plan, target: string) { GroupOf(target).Some? && GroupOf(target).value in plan }

  /** A plan runs a target exactly if it has that target's group. */
  lemma RunsIff(plan: Plan, target: string)
    ensures Runs(plan, target) <==>
      || (target == "build" && "builds" in plan) || (target == "test" && "tests" in plan)
      || (target == "lint" && "lint" in plan)
    ensures GroupOf(target).Some? <==> target == "build" || target == "test" || target == "lint"
  {
  }

  /** The targets the plan can run, first occurrences only, in order. */
  function Union(plan: Plan, targets: seq<string>): seq<string> {
    if targets == [] then []
    else
      var done, last := Union(plan, targets[..|targets| - 1]), targets[|targets| - 1];
      if Runs(plan, last) && last !in done then done + [last] else done
  }

  predicate Supported(targets: seq<string>) { forall i :: 0 <= i < |targets| ==> GroupOf(targets[i]).Some? }

  ghost predicate FirstUnsupported(targets: seq<string>, i: nat) {
    i < |targets| && GroupOf(targets[i]).None? && Supported(targets[..i])
  }

  lemma UnionSnoc(plan: Plan, targets: seq<string>, n: nat)
    requires n < |targets|
    ensures Union(plan, targets[..n + 1]) ==
      if Runs(plan, targets[n]) && targets[n] !in Union(plan, targets[..n]) then
        Union(plan, targets[..n]) + [targets[n]]
      else Union(plan, targets[..n])
  {
    assert targets[..n + 1][..n] == targets[..n];
  }

  function Groups(targets: seq<string>): seq<string>
    requires Supported(targets)
  {
    seq(|targets|, i requires 0 <= i < |targets| => GroupOf(targets[i]).value)
  }

  lemma SupportedSnoc(targets: seq<string>, i: nat)
    requires i < |targets| && Supported(targets[..i])
    ensures GroupOf(targets[i]).Some? ==> Supported(targets[..i + 1])
    ensures GroupOf(targets[i]).None? ==> FirstUnsupported(targets, i) && !Supported(targets)
  {
    assert targets[..i + 1] == targets[..i] + [targets[i]];
  }

  lemma GroupsSnoc(targets: seq<string>, target: string)
    requires Supported(targets) && GroupOf(target).Some?
    ensures Supported(targets + [target]) && Groups(targets + [target]) == Groups(targets) + [GroupOf(target).value]
  {
  }

  method ExecutableGroups(policy: seq<string>, plan: Plan) returns (r: Result<seq<string>, Error>)
    ensures r.Ok? <==> Supported(policy)
    ensures r.Ok? ==> Supported(Union(plan, policy)) && r.value == Groups(Union(plan, policy))
    ensures r.Err? ==>
      exists i :: 0 <= i < |policy| && FirstUnsupported(policy, i) && r.error == CheckUnsupported(policy[i])
  {
    var groups: seq<string> := [];
    for i := 0 to |policy|
      invariant Supported(policy[..i]) && Supported(Union(plan, policy[..i]))
      invariant groups == Groups(Union(plan, policy[..i]))
    {
      var check := policy[i];
      SupportedSnoc(policy, i);
      if GroupOf(check).None? {
        return Err(CheckUnsupported(check));
      }
      var group := GroupOf(check).value;
      UnionSnoc(plan, policy, i);
      GroupIsIn(Union(plan, policy[..i]), check);
      GroupsSnoc(Union(plan, policy[..i]), check);
      if group in plan && group !in groups {
        groups := groups + [group];
      }
    }
    assert policy[..|policy|] == policy;
    r := Ok(groups);
  }

  lemma OneTarget(a: string, b: string)
    requires GroupOf(a).Some? && GroupOf(a) == GroupOf(b)
    ensures a == b
  {
    assert "builds"[0] == 'b' && "tests"[0] == 't' && "lint"[0] == 'l';
  }

  /** Distinct supported targets have distinct groups. */
  lemma GroupIsIn(targets: seq<string>, target: string)
    requires Supported(targets) && GroupOf(target).Some?
    ensures GroupOf(target).value in Groups(targets) <==> target in targets
  {
    var g := Groups(targets);
    if GroupOf(target).value in g {
      var i :| 0 <= i < |g| && g[i] == GroupOf(target).value;
      OneTarget(targets[i], target);
    }
    if target in targets {
      var i :| 0 <= i < |targets| && targets[i] == target;
      assert g[i] == GroupOf(target).value;
    }
  }

  function Rejection(policy: seq<string>, target: string): Error {
    if target in policy then CheckUnsupported(target) else TargetInvalid(target)
  }

  method TargetUnion(proposal: seq<string>, review: seq<string>, policy: seq<string>, plan: Plan)
    returns (r: Result<seq<string>, Error>)
    ensures var all := policy + proposal + review;
      && (r.Ok? <==> Supported(all) && Union(plan, all) != [])
      && (r.Ok? ==> r.value == Union(plan, all))
      && (Supported(all) && r.Err? ==> r.error == NothingExecutable)
      && (!Supported(all) ==> exists i: nat ::
            && FirstUnsupported(all, i)
            && r == Err(if all[i] in policy then CheckUnsupported(all[i]) else TargetInvalid(all[i])))
  {
    var all := policy + proposal + review;
    var union: seq<string> := [];
    for i := 0 to |all|
      invariant Supported(all[..i]) && union == Union(plan, all[..i])
    {
      var target := all[i];
      SupportedSnoc(all, i);
      if GroupOf(target).None? {
        return Err(Rejection(policy, target));
      }
      UnionSnoc(plan, all, i);
      if GroupOf(target).value in plan && target !in union {
        union := union + [target];
      }
    }
    assert all[..|all|] == all;
    if union == [] {
      return Err(NothingExecutable);
    }
    r := Ok(union);
  }

  // ----- what the union is

  /** The k-th entry of the union is the first occurrence of its target, and those positions increase. */
  ghost predicate FirstAt(targets: seq<string>, i: nat, t: string) {
    i < |targets| && targets[i] == t && t !in targets[..i]
  }

  lemma {:induction false} UnionIsOrderedDedup(plan: Plan, targets: seq<string>) returns (at: seq<nat>)
    ensures |at| == |Union(plan, targets)|
    ensures forall k :: 0 <= k < |at| ==> FirstAt(targets, at[k], Union(plan, targets)[k])
    ensures forall j, k :: 0 <= j < k < |at| ==> at[j] < at[k]
    ensures forall t :: t in Union(plan, targets) <==> t in targets && Runs(plan, t)
  {
    if targets == [] {
      at := [];
    } else {
      var n := |targets| - 1;
      var earlier, last := targets[..n], targets[n];
      at := UnionIsOrderedDedup(plan, earlier);
      assert targets == earlier + [last];
      forall k | 0 <= k < |at| ensures FirstAt(targets, at[k], Union(plan, earlier)[k]) {
        assert FirstAt(earlier, at[k], Union(plan, earlier)[k]);
        assert targets[..at[k]] == earlier[..at[k]];
      }
      if Runs(plan, last) && last !in Union(plan, earlier) {
        at := at + [n];
      }
    }
  }

  /** Policy targets come first: the union extends the policy's own union. */
  lemma {:induction false} UnionExtends(plan: Plan, policy: seq<string>, more: seq<string>)
    ensures Union(plan, policy) <= Union(plan, policy + more)
  {
    if more == [] {
      assert policy + more == policy;
    } else {
      var n := |more| - 1;
      UnionExtends(plan, policy, more[..n]);
      assert (policy + more)[..|policy| + n] == policy + more[..n];
    }
  }

  lemma {:induction false} UnionSupported(plan: Plan, targets: seq<string>)
    ensures Supported(Union(plan, targets))
  {
    if targets != [] {
      UnionSupported(plan, targets[..|targets| - 1]);
    }
  }

  /** The leading entries of the union map one for one to the policy's executable groups. */
  lemma LeadingEntriesAreThePolicyGroups(plan: Plan, policy: seq<string>, more: seq<string>)
    ensures var u, p := Union(plan, policy + more), Union(plan, policy);
      && |p| <= |u| && Supported(u[..|p|]) && Supported(p)
      && Groups(u[..|p|]) == Groups(p)
  {
    UnionExtends(plan, policy, more);
    UnionSupported(plan, policy);
  }
}
