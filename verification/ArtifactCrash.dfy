/**
 Stopping in the middle. A write makes four visible steps: a temporary payload, the
 payload renamed into place, a temporary sidecar, the sidecar renamed into place.
 A temporary file may be left half written.
 */
module ArtifactCrash {
  import opened Wrappers
  import opened Orders
  import opened StoreNames
  import opened ArtifactStore
  import opened ArtifactListing

  function Temp(p: Path, hex: string): Path { Path(p.parent, "." + p.name + "." + hex + ".tmp") }

  datatype Stop = AtStart | InPayload(partial: Bytes) | AfterPayload | InSidecar(partial: Bytes) | AtEnd

  datatype Attempt = Attempt(request: Request, id: string, path: Path, hex: string, hex': string, stop: Stop)

  function Leaves(c: Codec, fs: Files, a: Attempt): Files {
    var payload := c.encode(a.request.content);
    match a.stop
    case AtStart => fs
    case InPayload(b) => fs[Temp(a.path, a.hex) := b]
    case AfterPayload => fs[a.path := payload]
    case InSidecar(b) => fs[a.path := payload][Temp(Sidecar(a.path), a.hex') := b]
    case AtEnd => fs[a.path := payload][Sidecar(a.path) := c.dump(EnvelopeFor(c, a.request, a.id, a.path))]
  }

  /** A temporary name carries a random identifier: neither it nor its sidecar name is in use. */
  ghost predicate FreshTemps(fs: Files, a: Attempt) {
    && Free(fs, Temp(a.path, a.hex))
    && Free(fs, Temp(Sidecar(a.path), a.hex'))
  }

  ghost predicate IsAttempt(fs: Files, a: Attempt) {
    && a.request.candidate.name != ""
    && IsAvailable(fs, a.request.candidate, a.path)
    && FreshTemps(fs, a)
  }

  ghost predicate IsCrashRun(c: Codec, states: seq<Files>, attempts: seq<Attempt>) {
    && |states| == |attempts| + 1 && states[0] == map[]
    && forall i :: 0 <= i < |attempts| ==> Stops(c, states[i], attempts[i], states[i + 1])
  }

  ghost predicate Stops(c: Codec, fs: Files, a: Attempt, fs': Files) { IsAttempt(fs, a) && fs' == Leaves(c, fs, a) }

  // ----- what the attempts of a run left behind

  function WrittenBy(c: Codec, a: Attempt): Written {
    Written(a.path, a.request.content, EnvelopeFor(c, a.request, a.id, a.path))
  }

  /** The attempt got as far as putting its payload in place. */
  predicate Placed(a: Attempt) { !a.stop.AtStart? && !a.stop.InPayload? }

  /** The artifacts of the attempts that ran to the end. */
  function Completed(c: Codec, attempts: seq<Attempt>): seq<Written> {
    if attempts == [] then []
    else
      var a := attempts[|attempts| - 1];
      Completed(c, attempts[..|attempts| - 1]) + if a.stop.AtEnd? then [WrittenBy(c, a)] else []
  }

  /** The payloads that were put in place without a sidecar. */
  function Orphans(attempts: seq<Attempt>): set<Path> {
    set i | 0 <= i < |attempts| && Placed(attempts[i]) && !attempts[i].stop.AtEnd? :: attempts[i].path
  }

  function LeftBy(a: Attempt): set<Path> {
    match a.stop
    case InPayload(_) => {Temp(a.path, a.hex)}
    case InSidecar(_) => {Temp(Sidecar(a.path), a.hex')}
    case _ => {}
  }

  function Leftovers(attempts: seq<Attempt>): set<Path> {
    if attempts == [] then {} else Leftovers(attempts[..|attempts| - 1]) + LeftBy(attempts[|attempts| - 1])
  }

  lemma TempIsPlain(p: Path, hex: string)
    ensures !EndsMeta(Temp(p, hex))
  {
    var name := Temp(p, hex).name;
    assert name[|name| - 1] == 'p';
    assert META[|META| - 1] == 'n';
  }

  lemma AttemptIsNamed(fs: Files, a: Attempt)
    requires IsAttempt(fs, a)
    ensures a.path.name != "" && Free(fs, a.path)
  {
  }

  /** Whatever the stop, existing files stay as they are. */
  lemma LeavesExtends(c: Codec, fs: Files, a: Attempt)
    requires IsAttempt(fs, a)
    ensures forall p :: p in fs ==> p in Leaves(c, fs, a) && Leaves(c, fs, a)[p] == fs[p]
  {
  }

  /** Which files a stopped write leaves. */
  lemma LeavesFiles(c: Codec, fs: Files, a: Attempt, p: Path)
    ensures p in Leaves(c, fs, a) <==>
      || p in fs || p in LeftBy(a) || (Placed(a) && p == a.path) || (a.stop.AtEnd? && p == Sidecar(a.path))
  {
  }

  // ----- every stop keeps the store accounted for

  lemma StopKeepsArtifacts(c: Codec, fs: Files, a: Attempt, ws: seq<Written>)
    requires IsAttempt(fs, a) && forall i :: 0 <= i < |ws| ==> Intact(c, fs, ws[i])
    ensures forall i :: 0 <= i < |ws| ==> Intact(c, Leaves(c, fs, a), ws[i])
    ensures forall i :: 0 <= i < |ws| ==>
      ws[i].path != a.path && Sidecar(ws[i].path) != a.path && ws[i].path != Sidecar(a.path)
  {
    LeavesExtends(c, fs, a);
    forall i | 0 <= i < |ws|
      ensures Intact(c, Leaves(c, fs, a), ws[i])
      ensures ws[i].path != a.path && Sidecar(ws[i].path) != a.path && ws[i].path != Sidecar(a.path)
    {
      assert Intact(c, fs, ws[i]);
    }
  }

  lemma PayloadAdded(ws: seq<Written>, w: Written, p: Path)
    ensures IsPayload(ws + [w], p) <==> IsPayload(ws, p) || p == w.path
  {
    assert (ws + [w])[|ws|].path == w.path;
    if IsPayload(ws, p) {
      StillPayload(ws, w, p);
    }
  }

  /** A completed attempt adds an artifact. */
  lemma EndKeepsArtifacts(c: Codec, fs: Files, a: Attempt, ws: seq<Written>)
    requires IsAttempt(fs, a) && Artifacts(c, fs, ws) && a.stop.AtEnd?
    ensures Artifacts(c, Leaves(c, fs, a), ws + [WrittenBy(c, a)])
  {
    AttemptIsNamed(fs, a);
    SidecarBase(a.path);
    StopKeepsArtifacts(c, fs, a, ws);
    assert Intact(c, Leaves(c, fs, a), WrittenBy(c, a));
  }

  lemma EndKeepsApart(fs: Files, ws: seq<Written>, w: Written, orphans: set<Path>)
    requires Apart(ws, orphans) && Free(fs, w.path)
    requires forall p :: AnyPayload(ws, orphans, p) ==> p in fs
    requires forall j :: 0 <= j < |ws| ==> Sidecar(ws[j].path) in fs
    ensures Apart(ws + [w], orphans)
  {
    var ws' := ws + [w];
    SidecarBase(w.path);
    forall p, j | 0 <= j < |ws'| && AnyPayload(ws', orphans, p) ensures p != Sidecar(ws'[j].path) {
      PayloadAdded(ws, w, p);
      if j < |ws| {
        assert Sidecar(ws[j].path) in fs && Sidecar(ws[j].path) == Sidecar(ws'[j].path);
        assert AnyPayload(ws, orphans, p) || p == w.path;
      }
    }
  }

  lemma EndKeepsCovered(c: Codec, fs: Files, a: Attempt, ws: seq<Written>, orphans: set<Path>, leftovers: set<Path>)
    requires Covered(fs, ws, orphans, leftovers) && a.stop.AtEnd?
    ensures Covered(Leaves(c, fs, a), ws + [WrittenBy(c, a)], orphans, leftovers)
  {
    var fs', w := Leaves(c, fs, a), WrittenBy(c, a);
    SidecarBase(a.path);
    forall p | p in fs' ensures Explained(ws + [w], orphans, leftovers, p) {
      LeavesFiles(c, fs, a, p);
      PayloadAdded(ws, w, p);
      if EndsMeta(p) {
        PayloadAdded(ws, w, Base(p));
      }
    }
  }

  lemma ArtifactsAreThere(c: Codec, fs: Files, ws: seq<Written>, orphans: set<Path>, leftovers: set<Path>)
    requires Accounted(c, fs, ws, orphans, leftovers)
    ensures forall p :: AnyPayload(ws, orphans, p) ==> p in fs
    ensures forall j :: 0 <= j < |ws| ==> Sidecar(ws[j].path) in fs
  {
    forall p | AnyPayload(ws, orphans, p) ensures p in fs {
      PayloadExists(c, fs, ws, orphans, leftovers, p);
    }
    forall j | 0 <= j < |ws| ensures Sidecar(ws[j].path) in fs {
      assert Intact(c, fs, ws[j]);
    }
  }

  /** A stop before the end adds at most an orphan and a leftover. */
  lemma EarlyStopKeepsCovered(c: Codec, fs: Files, a: Attempt, ws: seq<Written>, orphans: set<Path>,
                              leftovers: set<Path>, orphans': set<Path>)
    requires Covered(fs, ws, orphans, leftovers) && !a.stop.AtEnd?
    requires orphans' == orphans + (if Placed(a) then {a.path} else {})
    ensures Covered(Leaves(c, fs, a), ws, orphans', leftovers + LeftBy(a))
  {
    TempIsPlain(a.path, a.hex);
    TempIsPlain(Sidecar(a.path), a.hex');
    forall p | p in orphans' ensures p in Leaves(c, fs, a) {
      LeavesFiles(c, fs, a, p);
    }
    forall p | p in Leaves(c, fs, a) ensures Explained(ws, orphans', leftovers + LeftBy(a), p) {
      LeavesFiles(c, fs, a, p);
    }
  }

  lemma EarlyStopKeepsApart(fs: Files, ws: seq<Written>, orphans: set<Path>, path: Path)
    requires Apart(ws, orphans) && path !in fs
    requires forall j :: 0 <= j < |ws| ==> Sidecar(ws[j].path) in fs
    ensures Apart(ws, orphans + {path})
  {
    forall p, j | 0 <= j < |ws| && AnyPayload(ws, orphans + {path}, p) ensures p != Sidecar(ws[j].path) {
      assert AnyPayload(ws, orphans, p) || p == path;
    }
  }

  lemma EarlyStopKeepsAccount(c: Codec, fs: Files, a: Attempt, ws: seq<Written>, orphans: set<Path>,
                              leftovers: set<Path>, orphans': set<Path>)
    requires IsAttempt(fs, a) && Accounted(c, fs, ws, orphans, leftovers) && !a.stop.AtEnd?
    requires orphans' == orphans + (if Placed(a) then {a.path} else {})
    ensures Accounted(c, Leaves(c, fs, a), ws, orphans', leftovers + LeftBy(a))
  {
    AttemptIsNamed(fs, a);
    ArtifactsAreThere(c, fs, ws, orphans, leftovers);
    StopKeepsArtifacts(c, fs, a, ws);
    EarlyStopKeepsCovered(c, fs, a, ws, orphans, leftovers, orphans');
    EarlyStopKeepsApart(fs, ws, orphans, a.path);
    assert orphans' == orphans || orphans' == orphans + {a.path};
    assert Artifacts(c, Leaves(c, fs, a), ws);
    assert Apart(ws, orphans');
  }

  lemma EndKeepsAccount(c: Codec, fs: Files, a: Attempt, ws: seq<Written>, orphans: set<Path>, leftovers: set<Path>)
    requires IsAttempt(fs, a) && Accounted(c, fs, ws, orphans, leftovers) && a.stop.AtEnd?
    ensures Accounted(c, Leaves(c, fs, a), ws + [WrittenBy(c, a)], orphans, leftovers)
  {
    AttemptIsNamed(fs, a);
    ArtifactsAreThere(c, fs, ws, orphans, leftovers);
    EndKeepsArtifacts(c, fs, a, ws);
    EndKeepsApart(fs, ws, WrittenBy(c, a), orphans);
    EndKeepsCovered(c, fs, a, ws, orphans, leftovers);
  }

  /** What one attempt does to the account. */
  lemma StopKeepsAccount(c: Codec, fs: Files, a: Attempt, ws: seq<Written>, orphans: set<Path>, leftovers: set<Path>)
    requires IsAttempt(fs, a) && Accounted(c, fs, ws, orphans, leftovers)
    ensures a.stop.AtEnd? ==> Accounted(c, Leaves(c, fs, a), ws + [WrittenBy(c, a)], orphans, leftovers)
    ensures !a.stop.AtEnd? ==>
      Accounted(c, Leaves(c, fs, a), ws, orphans + (if Placed(a) then {a.path} else {}), leftovers + LeftBy(a))
  {
    if a.stop.AtEnd? {
      EndKeepsAccount(c, fs, a, ws, orphans, leftovers);
    } else {
      EarlyStopKeepsAccount(c, fs, a, ws, orphans, leftovers, orphans + (if Placed(a) then {a.path} else {}));
    }
  }

  lemma LastAttempt(c: Codec, before: seq<Attempt>, a: Attempt)
    ensures var after := before + [a];
      && Completed(c, after) == Completed(c, before) + (if a.stop.AtEnd? then [WrittenBy(c, a)] else [])
      && Orphans(after) == Orphans(before) + (if Placed(a) && !a.stop.AtEnd? then {a.path} else {})
      && Leftovers(after) == Leftovers(before) + LeftBy(a)
  {
    assert (before + [a])[..|before|] == before;
  }

  ghost predicate AccountedAfter(c: Codec, fs: Files, attempts: seq<Attempt>) {
    Accounted(c, fs, Completed(c, attempts), Orphans(attempts), Leftovers(attempts))
  }

  lemma AccountStep(c: Codec, fs: Files, before: seq<Attempt>, a: Attempt)
    requires IsAttempt(fs, a) && AccountedAfter(c, fs, before)
    ensures AccountedAfter(c, Leaves(c, fs, a), before + [a])
  {
    LastAttempt(c, before, a);
    var ws, orphans, leftovers := Completed(c, before), Orphans(before), Leftovers(before);
    StopKeepsAccount(c, fs, a, ws, orphans, leftovers);
    if a.stop.AtEnd? {
      assert orphans + {} == orphans && leftovers + LeftBy(a) == leftovers;
    } else {
      assert ws + [] == ws;
    }
  }

  /**
   At every point of every run: the completed artifacts are intact, and nothing is there but what
   the attempts left.
   */
  lemma {:induction false} CrashRunInv(c: Codec, states: seq<Files>, attempts: seq<Attempt>, n: nat)
    requires IsCrashRun(c, states, attempts) && n <= |attempts|
    ensures AccountedAfter(c, states[n], attempts[..n])
  {
    if n == 0 {
      assert attempts[..0] == [];
      NothingYet(c);
    } else {
      CrashRunInv(c, states, attempts, n - 1);
      assert Stops(c, states[n - 1], attempts[n - 1], states[n]);
      AccountStep(c, states[n - 1], attempts[..n - 1], attempts[n - 1]);
      assert attempts[..n] == attempts[..n - 1] + [attempts[n - 1]];
    }
  }

  lemma NothingYet(c: Codec)
    ensures AccountedAfter(c, map[], [])
  {
  }

  // ----- the main results

  /**
   After any stops, whatever the names: the listing is exactly the completed artifacts if and
   only if no payload, orphans included, is named like the sidecar of a file that exists.
   */
  lemma CrashRunLists(c: Codec, states: seq<Files>, attempts: seq<Attempt>, n: nat, entries: seq<Path>)
    requires Lawful(c) && IsCrashRun(c, states, attempts) && n <= |attempts| && Enumerates(states[n], entries)
    ensures var ws, orphans := Completed(c, attempts[..n]), Orphans(attempts[..n]);
      && (ListArtifacts(c, states[n], entries) == Ok(Refs(Sort(WrittenLeq, ws))) <==>
                Unmistaken(states[n], ws, orphans))
      && (!Unmistaken(states[n], ws, orphans) ==>
            ListArtifacts(c, states[n], entries).Err? || |ListArtifacts(c, states[n], entries).value| > |ws|)
  {
    CrashRunInv(c, states, attempts, n);
    ListingIff(c, states[n], Completed(c, attempts[..n]), Orphans(attempts[..n]), Leftovers(attempts[..n]), entries);
  }

  lemma {:induction false} PayloadIsOfAttempt(c: Codec, attempts: seq<Attempt>, p: Path) returns (i: nat)
    requires AnyPayload(Completed(c, attempts), Orphans(attempts), p)
    ensures i < |attempts| && attempts[i].path == p && Placed(attempts[i])
  {
    if p in Orphans(attempts) {
      i :| 0 <= i < |attempts| && Placed(attempts[i]) && attempts[i].path == p;
    } else {
      i := CompletedIsOfAttempt(c, attempts, p);
    }
  }

  lemma {:induction false} CompletedIsOfAttempt(c: Codec, attempts: seq<Attempt>, p: Path) returns (i: nat)
    requires IsPayload(Completed(c, attempts), p)
    ensures i < |attempts| && attempts[i].path == p && attempts[i].stop.AtEnd?
  {
    var n := |attempts| - 1;
    if attempts[n].stop.AtEnd? && attempts[n].path == p {
      i := n;
    } else {
      if attempts[n].stop.AtEnd? {
        PayloadAdded(Completed(c, attempts[..n]), WrittenBy(c, attempts[n]), p);
      }
      i := CompletedIsOfAttempt(c, attempts[..n], p);
    }
  }

  /** Candidates that do not end in `.meta.json` never lead to a mistake. */
  lemma PlainRunsAreUnmistaken(c: Codec, states: seq<Files>, attempts: seq<Attempt>, n: nat)
    requires IsCrashRun(c, states, attempts) && n <= |attempts|
    requires forall i :: 0 <= i < n ==> !EndsMeta(attempts[i].request.candidate)
    ensures Unmistaken(states[n], Completed(c, attempts[..n]), Orphans(attempts[..n]))
  {
    forall p | AnyPayload(Completed(c, attempts[..n]), Orphans(attempts[..n]), p) ensures !EndsMeta(p) {
      var i := PayloadIsOfAttempt(c, attempts[..n], p);
      var a := attempts[i];
      assert attempts[..n][i] == a && Stops(c, states[i], a, states[i + 1]);
      if !Free(states[i], a.request.candidate) {
        var v: nat :| a.path == Versioned(a.request.candidate, v);
        VersionedIsPlain(a.request.candidate, v);
      }
    }
  }

  /** Nothing is lost or changed. */
  ghost predicate Extends(fs: Files, fs': Files) {
    forall p :: p in fs ==> p in fs' && fs'[p] == fs[p]
  }

  lemma StepExtends(c: Codec, states: seq<Files>, attempts: seq<Attempt>, i: nat)
    requires IsCrashRun(c, states, attempts) && i < |attempts|
    ensures Extends(states[i], states[i + 1])
  {
    assert Stops(c, states[i], attempts[i], states[i + 1]);
    LeavesExtends(c, states[i], attempts[i]);
  }

  lemma {:induction false} RunExtends(c: Codec, states: seq<Files>, attempts: seq<Attempt>, i: nat, n: nat)
    requires IsCrashRun(c, states, attempts) && i <= n <= |attempts|
    ensures Extends(states[i], states[n])
    decreases n - i
  {
    if i < n {
      RunExtends(c, states, attempts, i, n - 1);
      StepExtends(c, states, attempts, n - 1);
    }
  }

  /** A completed write reads back at every later point, whatever stops follow and whatever the names. */
  lemma CompletedReadsBack(c: Codec, states: seq<Files>, attempts: seq<Attempt>, i: nat, n: nat)
    requires Lawful(c) && IsCrashRun(c, states, attempts) && i < n <= |attempts| && attempts[i].stop.AtEnd?
    ensures var a, w := attempts[i], WrittenBy(c, attempts[i]);
      && Intact(c, states[n], w)
      && ReadArtifact(c, states[n], a.path) ==
           Ok(Stored(RefOf(w.envelope), UniversalNewlines(a.request.content), Defaulted(w.envelope)))
  {
    assert Stops(c, states[i], attempts[i], states[i + 1]);
    RunExtends(c, states, attempts, i + 1, n);
    SidecarBase(attempts[i].path);
    ReadBack(c, states[n], WrittenBy(c, attempts[i]));
  }

  /** Whatever the store holds, a listing that succeeds gives each ref a payload with that checksum. */
  lemma {:induction false} ListedMatchHash(c: Codec, fs: Files, entries: seq<Path>)
    requires (forall p :: p in entries ==> EndsMeta(p)) && Listing(c, fs, entries).Ok?
    ensures |Listing(c, fs, entries).value| == |Kept(fs, entries)|
    ensures forall i :: 0 <= i < |Kept(fs, entries)| ==>
      var q := Kept(fs, entries)[i];
      EndsMeta(q) && Base(q) in fs && Listing(c, fs, entries).value[i].checksum == c.digest(fs[Base(q)])
  {
    if entries != [] {
      ListedMatchHash(c, fs, entries[1..]);
    }
  }

  // ----- orphan payloads

  ghost predicate Orphan(fs: Files, p: Path) { p in fs && Sidecar(p) !in fs }

  /** The attempt puts its payload where the sidecar of `o` belongs. */
  predicate TakesOver(a: Attempt, o: Path) { Placed(a) && a.path == Sidecar(o) }

  /** No write is granted an orphan's path, and only one that takes its sidecar's name ends its being one. */
  lemma StopKeepsOrphan(c: Codec, fs: Files, a: Attempt, o: Path)
    requires IsAttempt(fs, a) && Orphan(fs, o)
    ensures a.path != o
    ensures Orphan(Leaves(c, fs, a), o) <==> !TakesOver(a, o)
  {
    LeavesExtends(c, fs, a);
    SidecarBase(o);
    SidecarBase(a.path);
    TempIsPlain(a.path, a.hex);
    TempIsPlain(Sidecar(a.path), a.hex');
    LeavesFiles(c, fs, a, Sidecar(o));
  }

  /** One more attempt: the orphan's path is not the one granted, and it stays an orphan unless taken over. */
  lemma StepKeepsOrphan(c: Codec, states: seq<Files>, attempts: seq<Attempt>, i: nat, o: Path)
    requires IsCrashRun(c, states, attempts) && i < |attempts| && o in states[i]
    ensures attempts[i].path != o && o in states[i + 1] && states[i + 1][o] == states[i][o]
    ensures Orphan(states[i + 1], o) <==> Orphan(states[i], o) && !TakesOver(attempts[i], o)
  {
    var a := attempts[i];
    StepExtends(c, states, attempts, i);
    assert Stops(c, states[i], a, states[i + 1]);
    AttemptIsNamed(states[i], a);
    if Orphan(states[i], o) {
      StopKeepsOrphan(c, states[i], a, o);
    }
  }

  /**
   An orphan's file never changes and no later write is given its path, whatever the names; it
   stays an orphan exactly as long as no payload takes its sidecar's name.
   */
  lemma {:induction false} OrphanForever(c: Codec, states: seq<Files>, attempts: seq<Attempt>, i: nat, n: nat, o: Path)
    requires IsCrashRun(c, states, attempts) && i <= n <= |attempts| && Orphan(states[i], o)
    ensures o in states[n] && states[n][o] == states[i][o] && (n < |attempts| ==> attempts[n].path != o)
    ensures Orphan(states[n], o) <==> forall k :: i <= k < n ==> !TakesOver(attempts[k], o)
    decreases n - i
  {
    if i < n {
      OrphanForever(c, states, attempts, i, n - 1, o);
      StepKeepsOrphan(c, states, attempts, n - 1, o);
    }
    if n < |attempts| {
      StepKeepsOrphan(c, states, attempts, n, o);
    }
  }

  /**
   How a payload comes to be mistaken: the search grants an orphan's sidecar name, and listing
   then reads the content stored there as metadata.
   */
  lemma OrphanTakenOver(c: Codec, fs: Files, o: Path, content: string, entries: seq<Path>)
    requires Orphan(fs, o) && o.name != "" && Sidecar(Sidecar(o)) !in fs
    requires c.load(c.encode(content)) == None
    requires var fs' := fs[Sidecar(o) := c.encode(content)]; Enumerates(fs', entries)
    ensures IsAvailable(fs, Sidecar(o), Sidecar(o))
    ensures ListArtifacts(c, fs[Sidecar(o) := c.encode(content)], entries).Err?
  {
    var fs' := fs[Sidecar(o) := c.encode(content)];
    SidecarBase(o);
    var sorted := Sort(Leq, entries);
    SameElements(sorted, entries);
    assert Sidecar(o) in sorted;
    var k :| 0 <= k < |sorted| && sorted[k] == Sidecar(o);
    UnreadableFails(c, fs', sorted, k);
  }

  lemma {:induction false} UnreadableFails(c: Codec, fs: Files, entries: seq<Path>, k: nat)
    requires (forall p :: p in entries ==> EndsMeta(p)) && k < |entries|
    requires Base(entries[k]) in fs && ReadMetadata(c, fs, Base(entries[k])).Err?
    ensures Listing(c, fs, entries).Err?
  {
    if k > 0 {
      UnreadableFails(c, fs, entries[1..], k - 1);
    }
  }
}
