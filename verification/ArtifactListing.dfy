/**
 When listing a store returns exactly what was written. The store may also hold
 orphans (payloads whose sidecar was never written) and leftover temporary files.
 */
module ArtifactListing {
  import opened Wrappers
  import opened Orders
  import opened StoreNames
  import opened ArtifactStore

  predicate Distinct<T(==)>(s: seq<T>) {
    forall i, j :: 0 <= i < j < |s| ==> s[i] != s[j]
  }

  function Sidecars(ws: seq<Written>): seq<Path> {
    seq(|ws|, i requires 0 <= i < |ws| => Sidecar(ws[i].path))
  }

  function Refs(ws: seq<Written>): seq<ArtifactRef> {
    seq(|ws|, i requires 0 <= i < |ws| => RefOf(ws[i].envelope))
  }

  predicate WrittenLeq(a: Written, b: Written) { Leq(Sidecar(a.path), Sidecar(b.path)) }

  /** Entries whose payload exists. */
  function Kept(fs: Files, entries: seq<Path>): seq<Path>
    requires forall p :: p in entries ==> EndsMeta(p)
  {
    if entries == [] then []
    else if Base(entries[0]) in fs then [entries[0]] + Kept(fs, entries[1..])
    else Kept(fs, entries[1..])
  }

  // ----- permutations

  lemma {:induction false} DistinctSameSet<T>(a: seq<T>, b: seq<T>)
    requires Distinct(a) && Distinct(b) && forall x :: x in a <==> x in b
    ensures multiset(a) == multiset(b)
  {
    DistinctCounts(a);
    DistinctCounts(b);
    forall x ensures multiset(a)[x] == multiset(b)[x] {
      assert x in a <==> x in multiset(a);
      assert x in b <==> x in multiset(b);
    }
  }

  lemma {:induction false} DistinctCounts<T>(a: seq<T>)
    requires Distinct(a)
    ensures forall x :: multiset(a)[x] <= 1
  {
    if a != [] {
      DistinctCounts(a[1..]);
      assert a == [a[0]] + a[1..];
      assert a[0] !in a[1..];
    }
  }

  lemma RepeatCounts<T>(b: seq<T>, i: nat, j: nat)
    requires i < j < |b| && b[i] == b[j]
    ensures multiset(b)[b[i]] >= 2
  {
    assert b == b[..j] + [b[j]] + b[j + 1..];
    assert b[..j] == b[..i] + [b[i]] + b[i + 1..j];
  }

  lemma CountsDistinct<T>(a: seq<T>, b: seq<T>)
    requires Distinct(a) && multiset(a) == multiset(b)
    ensures Distinct(b)
  {
    DistinctCounts(a);
    forall i, j | 0 <= i < j < |b| ensures b[i] != b[j] {
      if b[i] == b[j] {
        RepeatCounts(b, i, j);
      }
    }
  }

  lemma {:induction false} DistinctSize<T>(a: seq<T>)
    requires Distinct(a)
    ensures |set x | x in a| == |a|
  {
    if a != [] {
      DistinctSize(a[1..]);
      assert (set x | x in a) == {a[0]} + (set x | x in a[1..]);
    }
  }

  // ----- filtering keeps order

  lemma {:induction false} KeptMembers(fs: Files, entries: seq<Path>)
    requires forall p :: p in entries ==> EndsMeta(p)
    ensures forall p :: p in Kept(fs, entries) <==> p in entries && Base(p) in fs
  {
    if entries != [] {
      KeptMembers(fs, entries[1..]);
      assert entries == [entries[0]] + entries[1..];
    }
  }

  lemma {:induction false} KeptOrder(fs: Files, entries: seq<Path>)
    requires forall p :: p in entries ==> EndsMeta(p)
    requires Sorted(Leq, entries) && Distinct(entries)
    ensures Sorted(Leq, Kept(fs, entries)) && Distinct(Kept(fs, entries))
  {
    if entries != [] {
      var rest := entries[1..];
      KeptOrder(fs, rest);
      KeptMembers(fs, rest);
      forall p | p in rest ensures Leq(entries[0], p) && entries[0] != p {
        var i :| 0 <= i < |rest| && rest[i] == p;
        assert entries[i + 1] == p;
      }
    }
  }

  lemma {:induction false} ListingFailsOnMeta(c: Codec, fs: Files, entries: seq<Path>, i: nat)
    requires forall p :: p in entries ==> EndsMeta(p)
    requires i < |entries| && entries[i].name == META
    ensures Listing(c, fs, entries).Err?
  {
    if i > 0 {
      ListingFailsOnMeta(c, fs, entries[1..], i - 1);
    }
  }

  lemma {:induction false} ListingLength(c: Codec, fs: Files, entries: seq<Path>)
    requires forall p :: p in entries ==> EndsMeta(p)
    requires Listing(c, fs, entries).Ok?
    ensures |Listing(c, fs, entries).value| == |Kept(fs, entries)|
  {
    if entries != [] {
      ListingLength(c, fs, entries[1..]);
    }
  }

  lemma {:induction false} ListingKept(c: Codec, fs: Files, entries: seq<Path>)
    requires forall p :: p in entries ==> EndsMeta(p) && p.name != META
    ensures forall p :: p in Kept(fs, entries) ==> EndsMeta(p)
    ensures Listing(c, fs, entries) == Listing(c, fs, Kept(fs, entries))
  {
    KeptMembers(fs, entries);
    if entries != [] {
      ListingKept(c, fs, entries[1..]);
      if Base(entries[0]) in fs {
        assert Kept(fs, entries)[1..] == Kept(fs, entries[1..]);
      }
    }
  }

  lemma ListingCons(c: Codec, fs: Files, w: Written, rest: seq<Path>, refs: seq<ArtifactRef>)
    requires Lawful(c) && Intact(c, fs, w) && w.path.name != ""
    requires (forall p :: p in rest ==> EndsMeta(p)) && Listing(c, fs, rest) == Ok(refs)
    ensures forall p :: p in [Sidecar(w.path)] + rest ==> EndsMeta(p)
    ensures Listing(c, fs, [Sidecar(w.path)] + rest) == Ok([RefOf(w.envelope)] + refs)
  {
    SidecarBase(w.path);
    ReadBack(c, fs, w);
    assert ([Sidecar(w.path)] + rest)[1..] == rest;
  }

  /** Over the sidecars of intact artifacts the listing is their refs. */
  lemma {:induction false} ListingOfSidecars(c: Codec, fs: Files, vs: seq<Written>)
    requires Lawful(c) && forall i :: 0 <= i < |vs| ==> Intact(c, fs, vs[i]) && vs[i].path.name != ""
    ensures forall p :: p in Sidecars(vs) ==> EndsMeta(p)
    ensures Listing(c, fs, Sidecars(vs)) == Ok(Refs(vs))
  {
    if vs == [] {
      assert Sidecars(vs) == [] && Refs(vs) == [];
    } else {
      ListingOfSidecars(c, fs, vs[1..]);
      ListingCons(c, fs, vs[0], Sidecars(vs[1..]), Refs(vs[1..]));
      assert Sidecars(vs) == [Sidecar(vs[0].path)] + Sidecars(vs[1..]);
      assert Refs(vs) == [RefOf(vs[0].envelope)] + Refs(vs[1..]);
    }
  }

  // ----- what a store may hold

  /** `p` is a payload, of an artifact or an orphan. */
  ghost predicate AnyPayload(ws: seq<Written>, orphans: set<Path>, p: Path) { IsPayload(ws, p) || p in orphans }

  ghost predicate DistinctPaths(ws: seq<Written>) {
    forall i, j :: 0 <= i < j < |ws| ==> ws[i].path != ws[j].path
  }

  /** Complete artifacts at different paths. */
  ghost predicate Artifacts(c: Codec, fs: Files, ws: seq<Written>) {
    && (forall i :: 0 <= i < |ws| ==> Intact(c, fs, ws[i]) && ws[i].path.name != "")
    && DistinctPaths(ws)
  }

  /** No payload is where the sidecar of an artifact is. */
  ghost predicate Apart(ws: seq<Written>, orphans: set<Path>) {
    forall p, j :: 0 <= j < |ws| && AnyPayload(ws, orphans, p) ==> p != Sidecar(ws[j].path)
  }

  ghost predicate Explained(ws: seq<Written>, orphans: set<Path>, leftovers: set<Path>, p: Path) {
    AnyPayload(ws, orphans, p) || p in leftovers || (EndsMeta(p) && IsPayload(ws, Base(p)))
  }

  ghost predicate Covered(fs: Files, ws: seq<Written>, orphans: set<Path>, leftovers: set<Path>) {
    && (forall p :: p in orphans ==> p in fs)
    && (forall p :: p in leftovers ==> !EndsMeta(p))
    && (forall p :: p in fs ==> Explained(ws, orphans, leftovers, p))
  }

  /** The artifacts are complete, and every other file is their sidecar, an orphan or a leftover. */
  ghost predicate Accounted(c: Codec, fs: Files, ws: seq<Written>, orphans: set<Path>, leftovers: set<Path>) {
    Artifacts(c, fs, ws) && Apart(ws, orphans) && Covered(fs, ws, orphans, leftovers)
  }

  /** No payload can be taken for the sidecar of a file that exists. */
  ghost predicate Unmistaken(fs: Files, ws: seq<Written>, orphans: set<Path>) {
    forall p :: AnyPayload(ws, orphans, p) && EndsMeta(p) ==> p.name != META && Base(p) !in fs
  }

  lemma PayloadExists(c: Codec, fs: Files, ws: seq<Written>, orphans: set<Path>, leftovers: set<Path>, p: Path)
    requires Accounted(c, fs, ws, orphans, leftovers) && AnyPayload(ws, orphans, p)
    ensures p in fs && p !in Sidecars(ws)
  {
    if IsPayload(ws, p) {
      var i :| 0 <= i < |ws| && ws[i].path == p;
      assert Intact(c, fs, ws[i]);
    }
  }

  // ----- which entries have a payload

  lemma SidecarIsKept(c: Codec, fs: Files, w: Written)
    requires Intact(c, fs, w) && w.path.name != ""
    ensures var p := Sidecar(w.path); p in fs && EndsMeta(p) && Base(p) in fs && p.name != META
  {
    SidecarBase(w.path);
  }

  lemma KeptIsSidecar(c: Codec, fs: Files, ws: seq<Written>, orphans: set<Path>, leftovers: set<Path>, p: Path)
    requires Accounted(c, fs, ws, orphans, leftovers) && Unmistaken(fs, ws, orphans)
    requires p in fs && EndsMeta(p) && Base(p) in fs
    ensures p in Sidecars(ws)
  {
    SidecarBase(p);
    var i :| 0 <= i < |ws| && ws[i].path == Base(p);
    assert Sidecars(ws)[i] == p;
  }

  lemma NotMeta(c: Codec, fs: Files, ws: seq<Written>, orphans: set<Path>, leftovers: set<Path>, p: Path)
    requires Accounted(c, fs, ws, orphans, leftovers) && Unmistaken(fs, ws, orphans) && p in fs && EndsMeta(p)
    ensures p.name != META
  {
    SidecarBase(p);
    if !AnyPayload(ws, orphans, p) {
      var i :| 0 <= i < |ws| && ws[i].path == Base(p);
      SidecarIsKept(c, fs, ws[i]);
    }
  }

  /** Artifacts at different paths have different sidecars. */
  lemma SidecarsDistinct(ws: seq<Written>)
    requires DistinctPaths(ws)
    ensures Distinct(Sidecars(ws))
  {
    forall i, j | 0 <= i < j < |ws| ensures Sidecars(ws)[i] != Sidecars(ws)[j] {
      SidecarBase(ws[i].path);
      SidecarBase(ws[j].path);
    }
  }

  lemma SidecarsMembers(a: seq<Written>, b: seq<Written>)
    requires forall w :: w in a ==> w in b
    ensures forall p :: p in Sidecars(a) ==> p in Sidecars(b)
  {
    forall p | p in Sidecars(a) ensures p in Sidecars(b) {
      var i :| 0 <= i < |a| && p == Sidecars(a)[i];
      assert a[i] in b;
      var j :| 0 <= j < |b| && b[j] == a[i];
      assert Sidecars(b)[j] == p;
    }
  }

  /** Rearranging artifacts keeps their paths distinct. */
  lemma PermutedPathsDistinct(ws: seq<Written>, vs: seq<Written>)
    requires multiset(vs) == multiset(ws)
    requires DistinctPaths(ws)
    ensures DistinctPaths(vs)
  {
    CountsDistinct(ws, vs);
    SameElements(vs, ws);
    forall i, j | 0 <= i < j < |vs| ensures vs[i].path != vs[j].path {
      assert vs[i] in ws && vs[j] in ws && vs[i] != vs[j];
    }
  }

  lemma WrittenLeqIsPreorder()
    ensures Preorder(WrittenLeq)
  {
    PathsAreOrdered();
  }

  /** The artifacts in the order of their sidecars' paths. */
  lemma SortedArtifacts(ws: seq<Written>) returns (vs: seq<Written>)
    requires DistinctPaths(ws)
    ensures vs == Sort(WrittenLeq, ws) && |vs| == |ws| && forall w :: w in vs <==> w in ws
    ensures Sorted(Leq, Sidecars(vs)) && Distinct(Sidecars(vs))
    ensures forall p :: p in Sidecars(vs) <==> p in Sidecars(ws)
  {
    vs := Sort(WrittenLeq, ws);
    SameElements(vs, ws);
    WrittenLeqIsPreorder();
    SortSorted(WrittenLeq, ws);
    SidecarsMembers(vs, ws);
    SidecarsMembers(ws, vs);
    PermutedPathsDistinct(ws, vs);
    SidecarsDistinct(vs);
  }

  // ----- the listing of an unmistaken store

  lemma SortedEntries(fs: Files, entries: seq<Path>)
    requires Enumerates(fs, entries)
    ensures var sorted := Sort(Leq, entries);
      Enumerates(fs, sorted) && Sorted(Leq, sorted) && Distinct(sorted)
  {
    PathsAreOrdered();
    SortSorted(Leq, entries);
    SameElements(Sort(Leq, entries), entries);
    CountsDistinct(entries, Sort(Leq, entries));
  }

  lemma SidecarsAreKept(c: Codec, fs: Files, ws: seq<Written>, entries: seq<Path>)
    requires forall i :: 0 <= i < |ws| ==> Intact(c, fs, ws[i]) && ws[i].path.name != ""
    requires Enumerates(fs, entries)
    ensures forall q :: q in Sidecars(ws) ==> q in Kept(fs, entries)
  {
    KeptMembers(fs, entries);
    forall q | q in Sidecars(ws) ensures q in Kept(fs, entries) {
      var k :| 0 <= k < |ws| && Sidecars(ws)[k] == q;
      SidecarIsKept(c, fs, ws[k]);
    }
  }

  lemma KeptAreSidecars(c: Codec, fs: Files, ws: seq<Written>, orphans: set<Path>,
                        leftovers: set<Path>, entries: seq<Path>)
    requires Accounted(c, fs, ws, orphans, leftovers) && Unmistaken(fs, ws, orphans) && Enumerates(fs, entries)
    ensures forall p :: p in Kept(fs, entries) <==> p in Sidecars(ws)
  {
    SidecarsAreKept(c, fs, ws, entries);
    KeptMembers(fs, entries);
    forall p | p in Kept(fs, entries) ensures p in Sidecars(ws) {
      KeptIsSidecar(c, fs, ws, orphans, leftovers, p);
    }
  }

  lemma SameArrangement(a: seq<Path>, b: seq<Path>)
    requires Sorted(Leq, a) && Distinct(a) && Sorted(Leq, b) && Distinct(b) && forall p :: p in a <==> p in b
    ensures a == b
  {
    PathsAreOrdered();
    DistinctSameSet(a, b);
    SortedUnique(Leq, a, b);
  }

  lemma UnmistakenListing(c: Codec, fs: Files, ws: seq<Written>, orphans: set<Path>,
                          leftovers: set<Path>, entries: seq<Path>)
    requires Lawful(c) && Accounted(c, fs, ws, orphans, leftovers) && Unmistaken(fs, ws, orphans)
    requires Enumerates(fs, entries)
    ensures ListArtifacts(c, fs, entries) == Ok(Refs(Sort(WrittenLeq, ws)))
  {
    var sorted := Sort(Leq, entries);
    SortedEntries(fs, entries);
    forall p | p in sorted ensures EndsMeta(p) && p.name != META {
      NotMeta(c, fs, ws, orphans, leftovers, p);
    }
    ListingKept(c, fs, sorted);
    var vs := SortedArtifacts(ws);
    KeptOrder(fs, sorted);
    KeptAreSidecars(c, fs, ws, orphans, leftovers, sorted);
    SameArrangement(Kept(fs, sorted), Sidecars(vs));
    forall i | 0 <= i < |vs| ensures Intact(c, fs, vs[i]) && vs[i].path.name != "" {
      assert vs[i] in ws;
    }
    ListingOfSidecars(c, fs, vs);
  }

  // ----- the listing of any other store

  lemma {:induction false} KeptDistinct(fs: Files, entries: seq<Path>)
    requires (forall p :: p in entries ==> EndsMeta(p)) && Distinct(entries)
    ensures Distinct(Kept(fs, entries))
  {
    if entries != [] {
      KeptDistinct(fs, entries[1..]);
      KeptMembers(fs, entries[1..]);
    }
  }

  lemma MoreThan(a: seq<Path>, b: seq<Path>, p: Path)
    requires Distinct(a) && Distinct(b) && (forall q :: q in b ==> q in a) && p in a && p !in b
    ensures |a| > |b|
  {
    DistinctSize(a);
    DistinctSize(b);
    SubsetSize((set q | q in b) + {p}, set q | q in a);
  }

  /** A payload taken for a sidecar is kept besides all the sidecars. */
  lemma TooMany(c: Codec, fs: Files, ws: seq<Written>, orphans: set<Path>, leftovers: set<Path>,
                entries: seq<Path>, p: Path)
    requires Accounted(c, fs, ws, orphans, leftovers) && Enumerates(fs, entries)
    requires AnyPayload(ws, orphans, p) && EndsMeta(p) && Base(p) in fs
    ensures |Kept(fs, entries)| > |ws|
  {
    PayloadExists(c, fs, ws, orphans, leftovers, p);
    KeptDistinct(fs, entries);
    SidecarsDistinct(ws);
    SidecarsAreKept(c, fs, ws, entries);
    KeptMembers(fs, entries);
    MoreThan(Kept(fs, entries), Sidecars(ws), p);
  }

  lemma MetaListing(c: Codec, fs: Files, entries: seq<Path>, p: Path)
    requires Enumerates(fs, entries) && p in fs && EndsMeta(p) && p.name == META
    ensures ListArtifacts(c, fs, entries).Err?
  {
    var sorted := Sort(Leq, entries);
    SortedEntries(fs, entries);
    assert p in sorted;
    var k :| 0 <= k < |sorted| && sorted[k] == p;
    ListingFailsOnMeta(c, fs, sorted, k);
  }

  lemma ConfusedListing(c: Codec, fs: Files, ws: seq<Written>, orphans: set<Path>, leftovers: set<Path>,
                        entries: seq<Path>, p: Path)
    requires Accounted(c, fs, ws, orphans, leftovers) && Enumerates(fs, entries)
    requires AnyPayload(ws, orphans, p) && EndsMeta(p) && Base(p) in fs
    ensures ListArtifacts(c, fs, entries).Err? || |ListArtifacts(c, fs, entries).value| > |ws|
  {
    var sorted := Sort(Leq, entries);
    SortedEntries(fs, entries);
    if ListArtifacts(c, fs, entries).Ok? {
      ListingLength(c, fs, sorted);
      TooMany(c, fs, ws, orphans, leftovers, sorted, p);
    }
  }

  lemma MistakenListing(c: Codec, fs: Files, ws: seq<Written>, orphans: set<Path>,
                        leftovers: set<Path>, entries: seq<Path>)
    requires Accounted(c, fs, ws, orphans, leftovers) && !Unmistaken(fs, ws, orphans) && Enumerates(fs, entries)
    ensures ListArtifacts(c, fs, entries).Err? || |ListArtifacts(c, fs, entries).value| > |ws|
  {
    var p :| AnyPayload(ws, orphans, p) && EndsMeta(p) && (p.name == META || Base(p) in fs);
    if p.name == META {
      PayloadExists(c, fs, ws, orphans, leftovers, p);
      MetaListing(c, fs, entries, p);
    } else {
      ConfusedListing(c, fs, ws, orphans, leftovers, entries, p);
    }
  }

  // ----- the main results

  /** Listing returns exactly the artifacts if and only if no payload is mistaken for a sidecar. */
  lemma ListingIff(c: Codec, fs: Files, ws: seq<Written>, orphans: set<Path>, leftovers: set<Path>, entries: seq<Path>)
    requires Lawful(c) && Accounted(c, fs, ws, orphans, leftovers) && Enumerates(fs, entries)
    ensures ListArtifacts(c, fs, entries) == Ok(Refs(Sort(WrittenLeq, ws))) <==> Unmistaken(fs, ws, orphans)
    ensures !Unmistaken(fs, ws, orphans) ==>
      ListArtifacts(c, fs, entries).Err? || |ListArtifacts(c, fs, entries).value| > |ws|
  {
    if Unmistaken(fs, ws, orphans) {
      UnmistakenListing(c, fs, ws, orphans, leftovers, entries);
    } else {
      MistakenListing(c, fs, ws, orphans, leftovers, entries);
      SameElements(Sort(WrittenLeq, ws), ws);
    }
  }

  /** In terms of the names alone, for a store of completed writes. */
  ghost predicate Clean(ws: seq<Written>) {
    && (forall i :: 0 <= i < |ws| ==> ws[i].path.name != META)
    && (forall i, j :: 0 <= i < |ws| && 0 <= j < |ws| ==> ws[i].path != Sidecar(Sidecar(ws[j].path)))
  }

  lemma CompletedIsAccounted(c: Codec, fs: Files, ws: seq<Written>)
    requires StoreInv(c, fs, ws)
    ensures Accounted(c, fs, ws, {}, {})
  {
  }

  /** A payload that looks like a sidecar of an existing file is named after another artifact's sidecar. */
  lemma Confusion(c: Codec, fs: Files, ws: seq<Written>, p: Path) returns (i: nat, j: nat)
    requires StoreInv(c, fs, ws) && IsPayload(ws, p) && EndsMeta(p) && Base(p) in fs
    ensures i < |ws| && j < |ws| && ws[i].path == p == Sidecar(Sidecar(ws[j].path))
  {
    i :| 0 <= i < |ws| && ws[i].path == p;
    var b := Base(p);
    SidecarBase(p);
    SidecarBase(b);
    assert !IsPayload(ws, b);
    j :| 0 <= j < |ws| && ws[j].path == Base(b);
  }

  lemma ConfusedPayload(c: Codec, fs: Files, ws: seq<Written>, i: nat, j: nat)
    requires StoreInv(c, fs, ws) && i < |ws| && j < |ws| && ws[i].path == Sidecar(Sidecar(ws[j].path))
    ensures IsPayload(ws, ws[i].path) && EndsMeta(ws[i].path) && Base(ws[i].path) in fs
  {
    SidecarBase(Sidecar(ws[j].path));
    assert Intact(c, fs, ws[j]);
  }

  lemma CleanIff(c: Codec, fs: Files, ws: seq<Written>)
    requires StoreInv(c, fs, ws)
    ensures Clean(ws) <==> Unmistaken(fs, ws, {})
  {
    if Clean(ws) {
      forall p | IsPayload(ws, p) && EndsMeta(p) ensures p.name != META && Base(p) !in fs {
        if Base(p) in fs {
          var i, j := Confusion(c, fs, ws, p);
        }
      }
    } else if i :| 0 <= i < |ws| && ws[i].path.name == META {
      assert AnyPayload(ws, {}, ws[i].path);
    } else {
      var i, j :| 0 <= i < |ws| && 0 <= j < |ws| && ws[i].path == Sidecar(Sidecar(ws[j].path));
      ConfusedPayload(c, fs, ws, i, j);
      assert AnyPayload(ws, {}, ws[i].path);
    }
  }

  /**
   Listing returns exactly the refs written, in the order of the sidecars' paths, if and
   only if no stored name is `.meta.json` and no two stored names in one directory are
   `b` and `b.meta.json.meta.json`.
   */
  lemma ListingExact(c: Codec, fs: Files, ws: seq<Written>, entries: seq<Path>)
    requires Lawful(c) && StoreInv(c, fs, ws) && Enumerates(fs, entries)
    ensures ListArtifacts(c, fs, entries) == Ok(Refs(Sort(WrittenLeq, ws))) <==> Clean(ws)
    ensures !Clean(ws) ==> ListArtifacts(c, fs, entries).Err? || |ListArtifacts(c, fs, entries).value| > |ws|
  {
    CompletedIsAccounted(c, fs, ws);
    CleanIff(c, fs, ws);
    ListingIff(c, fs, ws, {}, {}, entries);
  }

  /** The same over any run of writes from the empty store. */
  lemma RunListing(c: Codec, states: seq<Files>, requests: seq<Request>, ids: seq<string>,
                   ws: seq<Written>, entries: seq<Path>)
    requires Lawful(c) && IsRun(c, states, requests, ids, ws) && Enumerates(states[|ws|], entries)
    ensures ListArtifacts(c, states[|ws|], entries) == Ok(Refs(Sort(WrittenLeq, ws))) <==> Clean(ws)
  {
    RunInv(c, states, requests, ids, ws, |ws|);
    assert ws[..|ws|] == ws;
    ListingExact(c, states[|ws|], ws, entries);
  }

  /** Names that do not end in `.meta.json` are always clean. */
  lemma PlainNamesAreClean(ws: seq<Written>)
    requires forall i :: 0 <= i < |ws| ==> !EndsMeta(ws[i].path)
    ensures Clean(ws)
  {
    forall i, j | 0 <= i < |ws| && 0 <= j < |ws| ensures ws[i].path != Sidecar(Sidecar(ws[j].path)) {
      SidecarBase(Sidecar(ws[j].path));
    }
  }

  /** The search hands the confusing name out: next to plain artifacts it is simply free. */
  lemma ConfusingNameIsGranted(c: Codec, fs: Files, ws: seq<Written>, j: nat)
    requires StoreInv(c, fs, ws) && j < |ws| && forall i :: 0 <= i < |ws| ==> !EndsMeta(ws[i].path)
    ensures IsAvailable(fs, Sidecar(Sidecar(ws[j].path)), Sidecar(Sidecar(ws[j].path)))
  {
    var s := Sidecar(ws[j].path);
    var p := Sidecar(s);
    SidecarBase(ws[j].path);
    SidecarBase(s);
    SidecarBase(p);
  }
}
