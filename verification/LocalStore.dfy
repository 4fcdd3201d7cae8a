/** The store as an object: the files of its runs change, artifacts only accumulate. */
module LocalStore {
  import opened Wrappers
  import opened Orders
  import opened StoreNames
  import opened ArtifactStore
  import opened ArtifactListing
  import opened ArtifactCrash

  /** Run roots below the artifact root, and what was written to each. */
  type Runs = map<string, Files>

  type Ledger = map<string, seq<Written>>

  /** A file found by searching all runs. */
  datatype Entry = Entry(runId: string, path: Path)

  predicate AreSidecars(runs: Runs, entries: seq<Entry>) {
    forall e :: e in entries ==> e.runId in runs && EndsMeta(e.path)
  }

  /** What a recursive search below the artifact root returns, in any order. */
  ghost predicate Finds(runs: Runs, entries: seq<Entry>) {
    forall e :: e in entries <==> e.runId in runs && e.path in runs[e.runId] && EndsMeta(e.path)
  }

  /** The first readable artifact with this id, in directory order. */
  function FindById(c: Codec, runs: Runs, entries: seq<Entry>, id: string): Result<Stored, Error>
    requires AreSidecars(runs, entries)
  {
    if entries == [] then Err(NotFound)
    else
      var e := entries[0];
      assert e in entries;
      if e.path.name == META then Err(InvalidName)
      else if Base(e.path) !in runs[e.runId] then FindById(c, runs, entries[1..], id)
      else
        var found :- ReadMetadata(c, runs[e.runId], Base(e.path));
        if found.ref.artifactId == id then Ok(found) else FindById(c, runs, entries[1..], id)
  }

  ghost predicate LedgerInv(c: Codec, runs: Runs, ledger: Ledger) {
    runs.Keys == ledger.Keys && forall run :: run in runs ==> StoreInv(c, runs[run], ledger[run])
  }

  ghost predicate AllClean(ledger: Ledger) { forall run :: run in ledger ==> Clean(ledger[run]) }

  /** No two artifacts, of any runs, have the same id. */
  ghost predicate UniqueIds(ledger: Ledger) {
    forall run, run', i, j, id :: HasId(ledger, run, i, id) && HasId(ledger, run', j, id) ==> run == run' && i == j
  }

  /** The i-th artifact of the run has this id. */
  ghost predicate HasId(ledger: Ledger, run: string, i: int, id: string) {
    run in ledger && 0 <= i < |ledger[run]| && ledger[run][i].envelope.artifactId == id
  }

  ghost predicate Unused(ledger: Ledger, id: string) { forall run, i :: !HasId(ledger, run, i, id) }

  lemma LedgerGrows(c: Codec, runs: Runs, ledger: Ledger, run: string, fs: Files, ws: seq<Written>)
    requires LedgerInv(c, runs, ledger) && StoreInv(c, fs, ws)
    ensures LedgerInv(c, runs[run := fs], ledger[run := ws])
  {
  }

  /** An entry is the sidecar of a written artifact or has no payload. */
  ghost predicate Genuine(runs: Runs, ledger: Ledger, e: Entry) {
    && e.runId in runs && e.runId in ledger && EndsMeta(e.path) && e.path.name != META
    && (Base(e.path) in runs[e.runId] ==> IsPayload(ledger[e.runId], Base(e.path)))
  }

  /** In a clean run only sidecars look like sidecars. */
  lemma CleanEntry(c: Codec, fs: Files, ws: seq<Written>, p: Path)
    requires StoreInv(c, fs, ws) && Clean(ws) && p in fs && EndsMeta(p)
    ensures p.name != META && (Base(p) in fs ==> IsPayload(ws, Base(p)))
  {
    CompletedIsAccounted(c, fs, ws);
    CleanIff(c, fs, ws);
    NotMeta(c, fs, ws, {}, {}, p);
    if Base(p) in fs {
      KeptIsSidecar(c, fs, ws, {}, {}, p);
      SidecarOfWritten(ws, p);
    }
  }

  lemma SidecarOfWritten(ws: seq<Written>, p: Path)
    requires p in Sidecars(ws)
    ensures EndsMeta(p) && IsPayload(ws, Base(p))
  {
    var i :| 0 <= i < |ws| && Sidecars(ws)[i] == p;
    SidecarBase(ws[i].path);
  }

  lemma CleanIsGenuine(c: Codec, runs: Runs, ledger: Ledger, e: Entry)
    requires LedgerInv(c, runs, ledger) && AllClean(ledger)
    requires e.runId in runs && e.path in runs[e.runId] && EndsMeta(e.path)
    ensures Genuine(runs, ledger, e)
  {
    CleanEntry(c, runs[e.runId], ledger[e.runId], e.path);
  }

  lemma WrittenReads(c: Codec, runs: Runs, ledger: Ledger, run: string, i: nat)
    requires Lawful(c) && LedgerInv(c, runs, ledger) && run in runs && i < |ledger[run]|
    ensures var w := ledger[run][i];
      && w.path in runs[run]
      && ReadArtifact(c, runs[run], w.path) ==
           Ok(Stored(RefOf(w.envelope), UniversalNewlines(w.content), Defaulted(w.envelope)))
  {
    assert StoreInv(c, runs[run], ledger[run]);
    ReadBack(c, runs[run], ledger[run][i]);
  }

  /** What the search does with its first entry when that is genuine. */
  lemma FirstEntry(c: Codec, runs: Runs, ledger: Ledger, entries: seq<Entry>, id: string) returns (j: nat)
    requires Lawful(c) && LedgerInv(c, runs, ledger) && AreSidecars(runs, entries)
    requires entries != [] && Genuine(runs, ledger, entries[0]) && Base(entries[0].path) in runs[entries[0].runId]
    ensures var run := entries[0].runId;
      && j < |ledger[run]| && ledger[run][j].path == Base(entries[0].path)
      && FindById(c, runs, entries, id) ==
           if ledger[run][j].envelope.artifactId == id then ReadArtifact(c, runs[run], ledger[run][j].path)
           else FindById(c, runs, entries[1..], id)
  {
    var e := entries[0];
    j :| 0 <= j < |ledger[e.runId]| && ledger[e.runId][j].path == Base(e.path);
    WrittenReads(c, runs, ledger, e.runId, j);
  }

  lemma SkippedEntry(c: Codec, runs: Runs, ledger: Ledger, entries: seq<Entry>, id: string)
    requires AreSidecars(runs, entries)
    requires entries != [] && Genuine(runs, ledger, entries[0]) && Base(entries[0].path) !in runs[entries[0].runId]
    ensures FindById(c, runs, entries, id) == FindById(c, runs, entries[1..], id)
  {
  }

  lemma {:induction false} FindByIdFinds(c: Codec, runs: Runs, ledger: Ledger, entries: seq<Entry>, id: string,
                                         run: string, i: nat)
    requires Lawful(c) && LedgerInv(c, runs, ledger) && UniqueIds(ledger)
    requires AreSidecars(runs, entries) && forall e :: e in entries ==> Genuine(runs, ledger, e)
    requires run in runs && HasId(ledger, run, i, id)
    requires Entry(run, Sidecar(ledger[run][i].path)) in entries
    ensures FindById(c, runs, entries, id) == ReadArtifact(c, runs[run], ledger[run][i].path)
    ensures FindById(c, runs, entries, id).Ok?
  {
    var e, w := entries[0], ledger[run][i];
    assert e in entries;
    SidecarBase(w.path);
    WrittenReads(c, runs, ledger, run, i);
    if Base(e.path) in runs[e.runId] {
      var j := FirstEntry(c, runs, ledger, entries, id);
      if HasId(ledger, e.runId, j, id) {
        assert e.runId == run && j == i;
      } else {
        FindByIdFinds(c, runs, ledger, entries[1..], id, run, i);
      }
    } else {
      SkippedEntry(c, runs, ledger, entries, id);
      FindByIdFinds(c, runs, ledger, entries[1..], id, run, i);
    }
  }

  lemma {:induction false} FindByIdMisses(c: Codec, runs: Runs, ledger: Ledger, entries: seq<Entry>, id: string)
    requires Lawful(c) && LedgerInv(c, runs, ledger)
    requires AreSidecars(runs, entries) && forall e :: e in entries ==> Genuine(runs, ledger, e)
    requires Unused(ledger, id)
    ensures FindById(c, runs, entries, id) == Err(NotFound)
  {
    if entries != [] {
      var e := entries[0];
      assert e in entries && Genuine(runs, ledger, e);
      FindByIdMisses(c, runs, ledger, entries[1..], id);
      if Base(e.path) in runs[e.runId] {
        var j := FirstEntry(c, runs, ledger, entries, id);
        assert !HasId(ledger, e.runId, j, id);
      } else {
        SkippedEntry(c, runs, ledger, entries, id);
      }
    }
  }

  /** A listing in progress: what is done, and what listing the rest will give. */
  ghost function Prefixed(done: seq<ArtifactRef>, rest: Result<seq<ArtifactRef>, Error>)
    : Result<seq<ArtifactRef>, Error>
  {
    if rest.Ok? then Ok(done + rest.value) else rest
  }

  lemma PrefixedNone(rest: Result<seq<ArtifactRef>, Error>)
    ensures Prefixed([], rest) == rest
  {
    assert rest.Ok? ==> [] + rest.value == rest.value;
  }

  lemma PrefixedStep(done: seq<ArtifactRef>, ref: ArtifactRef, rest: Result<seq<ArtifactRef>, Error>)
    ensures Prefixed(done, Prefixed([ref], rest)) == Prefixed(done + [ref], rest)
  {
    assert rest.Ok? ==> done + ([ref] + rest.value) == (done + [ref]) + rest.value;
  }

  method ListSorted(c: Codec, fs: Files, sorted: seq<Path>) returns (r: Result<seq<ArtifactRef>, Error>)
    requires forall p :: p in sorted ==> EndsMeta(p)
    ensures r == Listing(c, fs, sorted)
  {
    ghost var whole := Listing(c, fs, sorted);
    var artifacts: seq<ArtifactRef> := [];
    var i := 0;
    assert sorted[0..] == sorted;
    PrefixedNone(whole);
    while i < |sorted|
      invariant 0 <= i <= |sorted|
      invariant whole == Prefixed(artifacts, Listing(c, fs, sorted[i..]))
    {
      var entry := sorted[i];
      assert entry in sorted && sorted[i..][1..] == sorted[i + 1..];
      if entry.name == META {
        return Err(InvalidName);
      }
      if Base(entry) in fs {
        var metadata := ReadMetadata(c, fs, Base(entry));
        if metadata.Err? {
          return Err(metadata.error);
        }
        PrefixedStep(artifacts, metadata.value.ref, Listing(c, fs, sorted[i + 1..]));
        artifacts := artifacts + [metadata.value.ref];
      }
      i := i + 1;
    }
    r := Ok(artifacts);
    assert artifacts + [] == artifacts;
  }

  method SearchById(c: Codec, runs: Runs, entries: seq<Entry>, id: string) returns (r: Result<Stored, Error>)
    requires AreSidecars(runs, entries)
    ensures r == FindById(c, runs, entries, id)
  {
    var i := 0;
    assert entries[0..] == entries;
    while i < |entries|
      invariant 0 <= i <= |entries|
      invariant FindById(c, runs, entries, id) == FindById(c, runs, entries[i..], id)
    {
      var e := entries[i];
      assert e in entries && entries[i..][1..] == entries[i + 1..];
      if e.path.name == META {
        return Err(InvalidName);
      }
      if Base(e.path) in runs[e.runId] {
        var metadata := ReadMetadata(c, runs[e.runId], Base(e.path));
        if metadata.Err? {
          return Err(metadata.error);
        }
        if metadata.value.ref.artifactId == id {
          return metadata;
        }
      }
      i := i + 1;
    }
    r := Err(NotFound);
  }

  /** The files of a run; a run without a root has none. */
  function Root(runs: Runs, runId: string): Files { if runId in runs then runs[runId] else map[] }

  function Lines(ledger: Ledger, runId: string): seq<Written> { if runId in ledger then ledger[runId] else [] }

  lemma RootInv(c: Codec, runs: Runs, ledger: Ledger, runId: string)
    requires LedgerInv(c, runs, ledger)
    ensures StoreInv(c, Root(runs, runId), Lines(ledger, runId))
  {
    EmptyInv(c);
  }

  /** The random part of a temporary name is not in use. */
  ghost predicate FreshHex(fs: Files, hex: string) { forall p :: Temp(p, hex) !in fs }

  /** What the search and the two files amount to. */
  lemma IsTheWrite(c: Codec, fs: Files, fs': Files, r: Request, id: string, path: Path)
    requires r.candidate.name != "" && IsAvailable(fs, r.candidate, path)
    requires fs' == fs[path := c.encode(r.content)][Sidecar(path) := c.dump(EnvelopeFor(c, r, id, path))]
    ensures IsWrite(c, fs, fs', r, id, Written(path, r.content, EnvelopeFor(c, r, id, path)))
  {
  }

  /** One write, to one run. */
  lemma WriteGrows(c: Codec, runs: Runs, ledger: Ledger, fs': Files, r: Request, id: string, w: Written)
    requires LedgerInv(c, runs, ledger) && IsWrite(c, Root(runs, r.runId), fs', r, id, w)
    ensures Adds(c, Root(runs, r.runId), fs', w)
    ensures LedgerInv(c, runs[r.runId := fs'], ledger[r.runId := Lines(ledger, r.runId) + [w]])
  {
    var fs, ws := Root(runs, r.runId), Lines(ledger, r.runId);
    RootInv(c, runs, ledger, r.runId);
    WriteAddsTwoFiles(c, fs, fs', r, id, w);
    WriteKeepsInv(c, fs, fs', w, ws);
    LedgerGrows(c, runs, ledger, r.runId, fs', ws + [w]);
  }

  class LocalStore {
    const codec: Codec
    var runs: Runs
    ghost var ledger: Ledger

    ghost predicate Valid()
      reads this
    {
      Lawful(codec) && LedgerInv(codec, runs, ledger)
    }

    function FilesOf(runId: string): Files
      reads this
    {
      Root(runs, runId)
    }

    ghost function WrittenTo(runId: string): seq<Written>
      reads this
    {
      Lines(ledger, runId)
    }

    constructor (codec: Codec)
      requires Lawful(codec)
      ensures Valid() && runs == map[] && ledger == map[] && this.codec == codec
    {
      this.codec := codec;
      runs := map[];
      ledger := map[];
    }

    /** Write a temporary file, then rename it over the target. */
    method AtomicWrite(runId: string, path: Path, payload: Bytes, hex: string)
      requires runId in runs && Temp(path, hex) !in runs[runId]
      modifies this`runs
      ensures runs == old(runs)[runId := old(runs)[runId][path := payload]]
    {
      var temp, files := Temp(path, hex), runs[runId];
      assert |temp.name| > |path.name|;
      runs := runs[runId := files[temp := payload]];
      assert (files[temp := payload] - {temp})[path := payload] == files[path := payload];
      runs := runs[runId := (runs[runId] - {temp})[path := payload]];
    }

    /** Create the run root if it is missing, then write the payload and its sidecar. */
    method WriteFiles(runId: string, path: Path, payload: Bytes, metadata: Bytes, hex: string, hex': string)
      requires FreshHex(FilesOf(runId), hex) && FreshHex(FilesOf(runId), hex')
      modifies this`runs
      ensures runs == old(runs)[runId := old(FilesOf(runId))[path := payload][Sidecar(path) := metadata]]
    {
      runs := runs[runId := FilesOf(runId)];
      AtomicWrite(runId, path, payload, hex);
      assert |Temp(Sidecar(path), hex').name| > |path.name|;
      AtomicWrite(runId, Sidecar(path), metadata, hex');
    }

    /** `w` is what the write adds to the run. */
    method WriteText(r: Request, id: string, hex: string, hex': string) returns (out: Stored, ghost w: Written)
      requires Valid() && r.candidate.name != ""
      requires FreshHex(FilesOf(r.runId), hex) && FreshHex(FilesOf(r.runId), hex')
      modifies this
      ensures Valid()
      ensures runs == old(runs)[r.runId := FilesOf(r.runId)]
      ensures ledger == old(ledger)[r.runId := old(WrittenTo(r.runId)) + [w]]
      ensures IsWrite(codec, old(FilesOf(r.runId)), FilesOf(r.runId), r, id, w)
      ensures Adds(codec, old(FilesOf(r.runId)), FilesOf(r.runId), w)
      ensures out == Stored(RefOf(w.envelope), r.content, w.envelope)
    {
      ghost var before := FilesOf(r.runId);
      var path := ResolveAvailable(FilesOf(r.runId), r.candidate);
      var envelope := EnvelopeFor(codec, r, id, path);
      w := Written(path, r.content, envelope);
      WriteFiles(r.runId, path, codec.encode(r.content), codec.dump(envelope), hex, hex');
      IsTheWrite(codec, before, FilesOf(r.runId), r, id, path);
      WriteGrows(codec, old(runs), ledger, FilesOf(r.runId), r, id, w);
      ledger := ledger[r.runId := WrittenTo(r.runId) + [w]];
      out := Stored(RefOf(envelope), r.content, envelope);
    }

    method ReadAt(runId: string, path: Path) returns (r: Result<Stored, Error>)
      requires Valid()
      ensures r == ReadArtifact(codec, FilesOf(runId), path)
      ensures forall i :: 0 <= i < |WrittenTo(runId)| && WrittenTo(runId)[i].path == path ==>
        var w := WrittenTo(runId)[i];
        r == Ok(Stored(RefOf(w.envelope), UniversalNewlines(w.content), Defaulted(w.envelope)))
    {
      r := ReadArtifact(codec, FilesOf(runId), path);
      RootInv(codec, runs, ledger, runId);
      forall i | 0 <= i < |WrittenTo(runId)| && WrittenTo(runId)[i].path == path
        ensures var w := WrittenTo(runId)[i];
          r == Ok(Stored(RefOf(w.envelope), UniversalNewlines(w.content), Defaulted(w.envelope)))
      {
        ReadBack(codec, FilesOf(runId), WrittenTo(runId)[i]);
      }
    }

    /** `entries` is the directory search's answer. */
    method List(runId: string, entries: seq<Path>) returns (r: Result<seq<ArtifactRef>, Error>)
      requires Valid() && Enumerates(FilesOf(runId), entries)
      ensures r == ListArtifacts(codec, FilesOf(runId), entries)
      ensures r == Ok(Refs(Sort(WrittenLeq, WrittenTo(runId)))) <==> Clean(WrittenTo(runId))
    {
      RootInv(codec, runs, ledger, runId);
      SameElements(Sort(Leq, entries), entries);
      r := ListSorted(codec, FilesOf(runId), Sort(Leq, entries));
      ListingExact(codec, FilesOf(runId), WrittenTo(runId), entries);
    }

    /** Searches all runs. */
    method ReadById(id: string, entries: seq<Entry>) returns (r: Result<Stored, Error>)
      requires Valid() && Finds(runs, entries)
      ensures AllClean(ledger) && UniqueIds(ledger) ==>
        forall run, i :: HasId(ledger, run, i, id) ==>
          r.Ok? && r == ReadArtifact(codec, FilesOf(run), ledger[run][i].path)
      ensures AllClean(ledger) && Unused(ledger, id) ==> r == Err(NotFound)
    {
      r := SearchById(codec, runs, entries, id);
      if AllClean(ledger) {
        forall e | e in entries ensures Genuine(runs, ledger, e) {
          CleanIsGenuine(codec, runs, ledger, e);
        }
        forall run, i | UniqueIds(ledger) && HasId(ledger, run, i, id)
          ensures r.Ok? && r == ReadArtifact(codec, FilesOf(run), ledger[run][i].path)
        {
          assert StoreInv(codec, runs[run], ledger[run]);
          SidecarIsKept(codec, runs[run], ledger[run][i]);
          FindByIdFinds(codec, runs, ledger, entries, id, run, i);
        }
        if Unused(ledger, id) {
          FindByIdMisses(codec, runs, ledger, entries, id);
        }
      }
    }
  }
}
