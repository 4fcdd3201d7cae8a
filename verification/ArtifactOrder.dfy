/**
 The order of a listing. The store documents it as ordered by relative path; what it
 sorts are the sidecars' paths, which can put two artifacts the other way round.
 */
module ArtifactOrder {
  import opened Wrappers
  import opened Orders
  import opened StoreNames
  import opened ArtifactStore
  import opened ArtifactListing

  // ----- prefixes and the order of strings

  lemma {:induction false} StringLeqAppend(n: string, a: string, b: string)
    ensures StringLeq(n + a, n + b) == StringLeq(a, b)
  {
    if n == [] {
      assert n + a == a && n + b == b;
    } else {
      assert (n + a)[1..] == n[1..] + a && (n + b)[1..] == n[1..] + b;
      StringLeqAppend(n[1..], a, b);
    }
  }

  lemma StringLeqExtends(n: string, a: string)
    ensures StringLeq(n, n + a)
  {
    StringLeqAppend(n, [], a);
    assert n + [] == n;
  }

  /** What lies between a string and one of its extensions extends it as well. */
  lemma {:induction false} Between(n: string, q: string, t: string)
    requires StringLeq(n, q) && StringLeq(q, n + t)
    ensures n <= q
  {
    if n != [] {
      assert (n + t)[1..] == n[1..] + t;
      Between(n[1..], q[1..], t);
      assert n == [n[0]] + n[1..] && q == [q[0]] + q[1..];
    }
  }

  // ----- two paths with a common beginning

  /** One step of the comparison of paths. */
  lemma PathLeqUnfolds(a: seq<string>, b: seq<string>)
    requires a != []
    ensures PathLeq(a, b) <==>
      b != [] && if a[0] == b[0] then PathLeq(a[1..], b[1..]) else StringLeq(a[0], b[0])
  {
  }

  lemma {:induction false} SkipCommon(k: seq<string>, a: seq<string>, b: seq<string>)
    ensures PathLeq(k + a, k + b) == PathLeq(a, b)
  {
    if k == [] {
      assert k + a == a && k + b == b;
    } else {
      assert (k + a)[1..] == k[1..] + a && (k + b)[1..] == k[1..] + b;
      SkipCommon(k[1..], a, b);
    }
  }

  /** `b` is in the directory of `a` or below it. */
  predicate Beside(a: Path, b: Path) { |a.parent| < |Parts(b)| && Parts(b)[..|a.parent|] == a.parent }

  /** The part of a path below the directory of `a`, at the depth of the name of `a`. */
  function PartBeside(a: Path, b: Path): string
    requires Beside(a, b)
  {
    Parts(b)[|a.parent|]
  }

  lemma SidecarBeside(a: Path, b: Path)
    ensures Beside(a, Sidecar(b)) == Beside(a, b) == (a.parent <= b.parent)
    ensures Beside(a, b) ==>
      PartBeside(a, Sidecar(b)) == if |a.parent| == |b.parent| then PartBeside(a, b) + META else PartBeside(a, b)
  {
    if |a.parent| <= |b.parent| {
      assert Parts(b)[..|a.parent|] == b.parent[..|a.parent|] == Parts(Sidecar(b))[..|a.parent|];
    }
  }

  /**
   `a` comes first by path and `b` first by sidecar: the name of `a` is the beginning of the
   corresponding part of `b`, and what follows it there, in the sidecar, sorts below `.meta.json`.
   */
  predicate Overtakes(b: Path, a: Path) {
    && Beside(a, b) && Beside(a, Sidecar(b)) && a.name <= PartBeside(a, b)
    && var part := PartBeside(a, Sidecar(b));
    && |a.name| <= |part|
    && part[|a.name|..] != META && StringLeq(part[|a.name|..], META)
  }

  /** Below the directory of `a`, the comparison is that of the name with the part beside it. */
  lemma BesideCompares(a: Path, b: Path)
    requires Beside(a, b)
    ensures Leq(a, b) == StringLeq(a.name, PartBeside(a, b))
  {
    var rest := Parts(b)[|a.parent|..];
    assert Parts(b) == a.parent + rest;
    SkipCommon(a.parent, [a.name], rest);
    PathLeqUnfolds([a.name], rest);
    StringOrder();
    assert StringLeq(a.name, a.name);
    assert [a.name][1..] == [] && rest[0] == PartBeside(a, b);
  }

  /**
   Paths that part before the name of either is reached, or at a name against a directory, compare
   like their sidecars.
   */
  lemma {:induction false} ApartCompares(p: seq<string>, n: string, q: seq<string>, m: string)
    requires !(p <= q + [m])
    requires PathLeq(p + [n], q + [m])
    ensures PathLeq(p + [n + META], q + [m + META])
    decreases |p|
  {
    var a, b, a', b' := p + [n], q + [m], p + [n + META], q + [m + META];
    assert a[0] == p[0] == a'[0];
    assert a[1..] == p[1..] + [n] && a'[1..] == p[1..] + [n + META];
    PathLeqUnfolds(a, b);
    PathLeqUnfolds(a', b');
    if q == [] {
      assert b[0] == m && b'[0] == m + META;
      assert b[1..] == [];
      PathLeqUnfolds(a[1..], b[1..]);
      FirstDiffers(p[0], m);
    } else {
      assert b[0] == q[0] == b'[0];
      assert b[1..] == q[1..] + [m] && b'[1..] == q[1..] + [m + META];
      assert p == [p[0]] + p[1..] && q + [m] == [q[0]] + (q[1..] + [m]);
      if p[0] == q[0] {
        ApartCompares(p[1..], n, q[1..], m);
      }
    }
  }

  lemma FirstDiffers(x: string, m: string)
    requires StringLeq(x, m) && x != m
    ensures StringLeq(x, m + META) && x != m + META
  {
    StringOrder();
    StringLeqExtends(m, META);
  }

  lemma AwayCompares(a: Path, b: Path)
    requires !Beside(a, b) && Leq(a, b)
    ensures Leq(Sidecar(a), Sidecar(b))
  {
    SidecarBeside(a, b);
    assert a.parent <= Parts(b) ==> Parts(a) == Parts(b) + [a.name];
    assert Parts(b) + [] == Parts(b);
    PathLeqUnfolds([a.name], []);
    SkipCommon(Parts(b), [a.name], []);
    ApartCompares(a.parent, a.name, b.parent, b.name);
  }

  /** Comparing a name with a part, and with `.meta.json` on the name and perhaps on the part. */
  lemma NameCompares(n: string, part: string, q: string)
    requires q == part || q == part + META
    ensures StringLeq(n, part) && !StringLeq(n + META, q) <==>
      n <= part && |n| <= |q| && q[|n|..] != META && StringLeq(q[|n|..], META)
  {
    StringOrder();
    StringLeqExtends(part, META);
    if StringLeq(n, part) && !StringLeq(n + META, q) {
      assert StringLeq(part, q) && StringLeq(q, n + META);
      assert StringLeq(part, n + META);
      Between(n, part, META);
    }
    if n <= part {
      var r := q[|n|..];
      assert q == n + r && part == n + part[|n|..];
      StringLeqAppend(n, META, r);
      StringLeqAppend(n, r, META);
      StringLeqExtends(n, part[|n|..]);
      assert StringLeq(META, r) && StringLeq(r, META) ==> r == META;
      assert StringLeq(META, r) || StringLeq(r, META);
      assert r == META ==> StringLeq(META, r);
    }
  }

  /** Exactly when the two orders disagree. */
  lemma OvertakesIff(a: Path, b: Path)
    ensures Leq(a, b) && !Leq(Sidecar(a), Sidecar(b)) <==> Overtakes(b, a)
  {
    SidecarBeside(a, b);
    if Beside(a, b) {
      BesideCompares(a, b);
      assert Sidecar(a).parent == a.parent;
      BesideCompares(Sidecar(a), Sidecar(b));
      NameCompares(a.name, PartBeside(a, b), PartBeside(a, Sidecar(b)));
    } else if Leq(a, b) {
      AwayCompares(a, b);
    }
  }

  // ----- the documented order

  ghost predicate InPathOrder(refs: seq<ArtifactRef>) {
    forall i, j :: 0 <= i < j < |refs| ==> Leq(refs[i].relativePath, refs[j].relativePath)
  }

  /** The envelopes name the paths they were written to. */
  ghost predicate Addressed(ws: seq<Written>) {
    forall i :: 0 <= i < |ws| ==> ws[i].envelope.relativePath == ws[i].path
  }

  ghost predicate NoneOvertaken(ws: seq<Written>) {
    forall i, j :: 0 <= i < |ws| && 0 <= j < |ws| ==> !Overtakes(ws[j].path, ws[i].path)
  }

  /** Arranged by sidecar, artifacts are in path order exactly when none overtakes another. */
  lemma ArrangedIff(vs: seq<Written>)
    requires Addressed(vs) && Sorted(WrittenLeq, vs) && DistinctPaths(vs)
    ensures InPathOrder(Refs(vs)) <==> NoneOvertaken(vs)
  {
    PathsAreOrdered();
    if InPathOrder(Refs(vs)) {
      forall i, j | 0 <= i < |vs| && 0 <= j < |vs| ensures !Overtakes(vs[j].path, vs[i].path) {
        OvertakesIff(vs[i].path, vs[j].path);
        if j < i {
          assert Leq(Refs(vs)[j].relativePath, Refs(vs)[i].relativePath);
        } else if i < j {
          assert WrittenLeq(vs[i], vs[j]);
        }
      }
    }
    if NoneOvertaken(vs) {
      forall i, j | 0 <= i < j < |vs| ensures Leq(Refs(vs)[i].relativePath, Refs(vs)[j].relativePath) {
        OvertakesIff(vs[j].path, vs[i].path);
        assert WrittenLeq(vs[i], vs[j]);
        SidecarBase(vs[i].path);
        SidecarBase(vs[j].path);
      }
    }
  }

  lemma NoneOvertakenPermutes(a: seq<Written>, b: seq<Written>)
    requires multiset(a) == multiset(b) && NoneOvertaken(a)
    ensures NoneOvertaken(b)
  {
    SameElements(a, b);
    forall i, j | 0 <= i < |b| && 0 <= j < |b| ensures !Overtakes(b[j].path, b[i].path) {
      assert b[i] in a && b[j] in a;
    }
  }

  lemma ArrangementIff(ws: seq<Written>)
    requires Addressed(ws) && DistinctPaths(ws)
    ensures InPathOrder(Refs(Sort(WrittenLeq, ws))) <==> NoneOvertaken(ws)
  {
    var vs := Sort(WrittenLeq, ws);
    WrittenLeqIsPreorder();
    SortSorted(WrittenLeq, ws);
    PermutedPathsDistinct(ws, vs);
    AddressedPermutes(ws, vs);
    ArrangedIff(vs);
    OvertakingPermutes(ws, vs);
  }

  lemma AddressedPermutes(a: seq<Written>, b: seq<Written>)
    requires multiset(a) == multiset(b) && Addressed(a)
    ensures Addressed(b)
  {
    SameElements(a, b);
    forall i | 0 <= i < |b| ensures b[i].envelope.relativePath == b[i].path {
      assert b[i] in a;
    }
  }

  lemma OvertakingPermutes(a: seq<Written>, b: seq<Written>)
    requires multiset(a) == multiset(b)
    ensures NoneOvertaken(a) <==> NoneOvertaken(b)
  {
    if NoneOvertaken(a) {
      NoneOvertakenPermutes(a, b);
    }
    if NoneOvertaken(b) {
      NoneOvertakenPermutes(b, a);
    }
  }

  /** All artifacts, each once, ordered by relative path. */
  ghost predicate AsDocumented(r: Result<seq<ArtifactRef>, Error>, ws: seq<Written>) {
    exists vs :: multiset(vs) == multiset(ws) && r == Ok(Refs(vs)) && InPathOrder(Refs(vs))
  }

  /**
   After every run of writes: the listing is as documented exactly for clean names of which none
   overtakes another.
   */
  lemma DocumentedListingIff(c: Codec, states: seq<Files>, requests: seq<Request>, ids: seq<string>,
                             ws: seq<Written>, entries: seq<Path>)
    requires Lawful(c) && IsRun(c, states, requests, ids, ws) && Enumerates(states[|ws|], entries)
    ensures AsDocumented(ListArtifacts(c, states[|ws|], entries), ws) <==> Clean(ws) && NoneOvertaken(ws)
  {
    RunInv(c, states, requests, ids, ws, |ws|);
    assert ws[..|ws|] == ws;
    forall i | 0 <= i < |ws| ensures ws[i].envelope.relativePath == ws[i].path {
      assert IsWrite(c, states[i], states[i + 1], requests[i], ids[i], ws[i]);
    }
    DocumentedIff(c, states[|ws|], ws, entries);
  }

  lemma DocumentedIff(c: Codec, fs: Files, ws: seq<Written>, entries: seq<Path>)
    requires Lawful(c) && StoreInv(c, fs, ws) && Addressed(ws) && Enumerates(fs, entries)
    ensures AsDocumented(ListArtifacts(c, fs, entries), ws) <==> Clean(ws) && NoneOvertaken(ws)
  {
    var r, sorted := ListArtifacts(c, fs, entries), Sort(WrittenLeq, ws);
    ListingExact(c, fs, ws, entries);
    ArrangementIff(ws);
    if AsDocumented(r, ws) {
      var vs :| multiset(vs) == multiset(ws) && r == Ok(Refs(vs)) && InPathOrder(Refs(vs));
      SameElements(vs, ws);
    }
  }

  /** `plan` and `plan.json` in one directory are listed the wrong way round. */
  lemma PlanIsOvertaken(parent: seq<string>)
    ensures Overtakes(Path(parent, "plan.json"), Path(parent, "plan"))
  {
    var a, b := Path(parent, "plan"), Path(parent, "plan.json");
    SidecarBeside(a, b);
    var part := PartBeside(a, Sidecar(b));
    assert part == "plan.json" + META;
    assert part[4..] == ".json" + META;
    assert (".json" + META)[0] == '.' && META[0] == '.';
    assert (".json" + META)[1..][0] == 'j' && META[1..][0] == 'm';
    assert LexLeq(CharLeq, (".json" + META)[1..], META[1..]);
  }
}
