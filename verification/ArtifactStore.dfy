/**
 The append-only artifact store: payload and sidecar files, versioned names, atomic
 replacement. The file system below one run root is a map from paths to bytes.
 */
module ArtifactStore {
  import opened Wrappers
  import opened Orders
  import opened StoreNames

  datatype Envelope = Envelope(
    schemaVersion: int,
    artifactId: string,
    runId: string,
    stageId: Option<string>,
    attemptId: Option<string>,
    producer: string,
    artifactType: string,
    contentType: string,
    inputHashes: map<string, string>,
    policyVersion: string,
    contentHash: string,
    relativePath: Path,
    createdAt: int)

  datatype ArtifactRef = ArtifactRef(
    artifactId: string, runId: string, stageId: Option<string>, artifactType: string,
    relativePath: Path, createdAt: int, checksum: string)

  datatype Stored = Stored(ref: ArtifactRef, content: string, envelope: Envelope)

  datatype Error = NotFound | MissingSidecar | Malformed | ChecksumMismatch | InvalidName

  /** UTF-8, SHA-256 and the metadata JSON, as the store uses them. */
  datatype Codec = Codec(
    encode: string -> Bytes,
    decode: Bytes -> Option<string>,
    digest: Bytes -> string,
    dump: Envelope -> Bytes,
    load: Bytes -> Option<Envelope>)

  ghost predicate Lawful(c: Codec) {
    && (forall t :: c.decode(c.encode(t)) == Some(t))
    && (forall e :: c.load(c.dump(e)) == Some(e))
  }

  datatype Request = Request(
    runId: string, candidate: Path, content: string, artifactType: string, stageId: Option<string>,
    attemptId: Option<string>, createdBy: string, createdAt: int, contentType: string,
    inputHashes: map<string, string>, policyVersion: string)

  const LAYOUT := {
    "00_job_setup", "01_baseline", "02_analysis", "03_planning", "04_workflow_state",
    "05_sandbox_transform", "06_validation", "07_repair", "08_final", "global", "stages",
    "repair_attempts", "final_assurance", "delivery", "final_report"
  }

  function StageOf(p: Path): Option<string> {
    var parts := p.parent + [p.name];
    if |parts| >= 2 && parts[0] == "stages" then Some(parts[1])
    else if parts[0] in LAYOUT then Some(parts[0])
    else None
  }

  function ContentTypeOf(artifactType: string): string {
    match artifactType
    case "json" => "application/json"
    case "yaml" => "application/yaml"
    case "markdown" => "text/markdown"
    case "text_log" => "text/plain"
    case "command_log" => "application/json"
    case "patch" => "text/x-patch"
    case "diff" => "text/x-diff"
    case _ => "text/markdown"
  }

  function EnvelopeFor(c: Codec, r: Request, id: string, p: Path): Envelope {
    Envelope(1, id, r.runId, if r.stageId.Some? && r.stageId.value != "" then r.stageId else StageOf(p), r.attemptId,
             r.createdBy, r.artifactType, if r.contentType != "" then r.contentType else ContentTypeOf(r.artifactType),
             r.inputHashes, r.policyVersion, c.digest(c.encode(r.content)), p, r.createdAt)
  }

  function RefOf(e: Envelope): ArtifactRef {
    ArtifactRef(e.artifactId, e.runId, e.stageId, e.artifactType, e.relativePath, e.createdAt, e.contentHash)
  }

  /** What a reader substitutes for empty fields. */
  function Defaulted(e: Envelope): Envelope {
    e.(producer := if e.producer == "" then "backend" else e.producer,
       contentType := if e.contentType == "" then ContentTypeOf(e.artifactType) else e.contentType,
       policyVersion := if e.policyVersion == "" then "sprint0" else e.policyVersion)
  }

  /** Text mode turns CR LF and lone CR into LF. */
  function UniversalNewlines(t: string): string {
    if t == [] then []
    else if t[0] == '\r' then ['\n'] + UniversalNewlines(if |t| > 1 && t[1] == '\n' then t[2..] else t[1..])
    else [t[0]] + UniversalNewlines(t[1..])
  }

  function ReadMetadata(c: Codec, fs: Files, p: Path): Result<Stored, Error>
    requires p in fs
  {
    if Sidecar(p) !in fs then Err(MissingSidecar)
    else
      var raw := c.load(fs[Sidecar(p)]);
      if raw.None? then Err(Malformed)
      else if raw.value.contentHash != c.digest(fs[p]) then Err(ChecksumMismatch)
      else
        var text := c.decode(fs[p]);
        if text.None? then Err(Malformed)
        else
          var e := Defaulted(raw.value);
          Ok(Stored(RefOf(e), UniversalNewlines(text.value), e))
  }

  function ReadArtifact(c: Codec, fs: Files, p: Path): Result<Stored, Error> {
    if p in fs then ReadMetadata(c, fs, p) else Err(NotFound)
  }

  // ----- listing

  /** Refs of the sidecars in `entries` whose payload exists. */
  function Listing(c: Codec, fs: Files, entries: seq<Path>): Result<seq<ArtifactRef>, Error>
    requires forall p :: p in entries ==> EndsMeta(p)
  {
    if entries == [] then Ok([])
    else if entries[0].name == META then Err(InvalidName)
    else if Base(entries[0]) !in fs then Listing(c, fs, entries[1..])
    else
      var first :- ReadMetadata(c, fs, Base(entries[0]));
      var rest :- Listing(c, fs, entries[1..]);
      Ok([first.ref] + rest)
  }

  /** What a recursive directory search for sidecars may return: each match once, in any order. */
  ghost predicate Enumerates(fs: Files, entries: seq<Path>) {
    && (forall p :: p in entries <==> p in fs && EndsMeta(p))
    && forall i, j :: 0 <= i < j < |entries| ==> entries[i] != entries[j]
  }

  function ListArtifacts(c: Codec, fs: Files, entries: seq<Path>): Result<seq<ArtifactRef>, Error>
    requires forall p :: p in entries ==> EndsMeta(p)
  {
    SameElements(Sort(Leq, entries), entries);
    Listing(c, fs, Sort(Leq, entries))
  }

  // ----- runs of completed writes

  datatype Written = Written(path: Path, content: string, envelope: Envelope)

  ghost predicate IsWrite(c: Codec, fs: Files, fs': Files, r: Request, id: string, w: Written) {
    && r.candidate.name != "" && IsAvailable(fs, r.candidate, w.path)
    && w == Written(w.path, r.content, EnvelopeFor(c, r, id, w.path))
    && fs' == fs[w.path := c.encode(r.content)][Sidecar(w.path) := c.dump(w.envelope)]
  }

  ghost predicate IsRun(c: Codec, states: seq<Files>, requests: seq<Request>, ids: seq<string>, ws: seq<Written>) {
    && |states| == |ws| + 1 && |requests| == |ws| == |ids|
    && states[0] == map[]
    && forall i :: 0 <= i < |ws| ==> IsWrite(c, states[i], states[i + 1], requests[i], ids[i], ws[i])
  }

  ghost predicate Intact(c: Codec, fs: Files, w: Written) {
    && w.path in fs && fs[w.path] == c.encode(w.content)
    && Sidecar(w.path) in fs && fs[Sidecar(w.path)] == c.dump(w.envelope)
    && w.envelope.contentHash == c.digest(c.encode(w.content))
  }

  ghost predicate IsPayload(ws: seq<Written>, p: Path) {
    exists i :: 0 <= i < |ws| && ws[i].path == p
  }

  /** The files are exactly the payloads and sidecars of the artifacts written. */
  ghost predicate StoreInv(c: Codec, fs: Files, ws: seq<Written>) {
    && (forall i :: 0 <= i < |ws| ==> Intact(c, fs, ws[i]) && ws[i].path.name != "")
    && (forall i, j :: 0 <= i < j < |ws| ==> ws[i].path != ws[j].path)
    && (forall i, j :: 0 <= i < |ws| && 0 <= j < |ws| ==> ws[i].path != Sidecar(ws[j].path))
    && (forall p :: p in fs ==> IsPayload(ws, p) || (EndsMeta(p) && IsPayload(ws, Base(p))))
  }

  /** `fs'` is `fs` with one complete artifact added: two new files, every other file untouched. */
  ghost predicate Adds(c: Codec, fs: Files, fs': Files, w: Written) {
    && w.path.name != "" && w.path !in fs && Sidecar(w.path) !in fs && w.path != Sidecar(w.path)
    && fs'.Keys == fs.Keys + {w.path, Sidecar(w.path)}
    && (forall p :: p in fs ==> p in fs' && fs'[p] == fs[p])
    && Intact(c, fs', w)
  }

  lemma WriteAddsTwoFiles(c: Codec, fs: Files, fs': Files, r: Request, id: string, w: Written)
    requires IsWrite(c, fs, fs', r, id, w)
    ensures Adds(c, fs, fs', w)
  {
    SidecarBase(w.path);
  }

  lemma AddKeepsPayloads(c: Codec, fs: Files, fs': Files, w: Written, ws: seq<Written>)
    requires StoreInv(c, fs, ws) && Adds(c, fs, fs', w)
    ensures forall i :: 0 <= i < |ws| ==> Intact(c, fs', ws[i])
    ensures forall i :: 0 <= i < |ws| ==>
      ws[i].path != w.path && ws[i].path != Sidecar(w.path) && Sidecar(ws[i].path) != w.path
  {
    forall i | 0 <= i < |ws|
      ensures Intact(c, fs', ws[i])
      ensures ws[i].path != w.path && ws[i].path != Sidecar(w.path) && Sidecar(ws[i].path) != w.path
    {
      assert Intact(c, fs, ws[i]);
    }
  }

  lemma AddCoversFiles(c: Codec, fs: Files, fs': Files, w: Written, ws: seq<Written>, p: Path)
    requires StoreInv(c, fs, ws) && Adds(c, fs, fs', w) && p in fs'
    ensures IsPayload(ws + [w], p) || (EndsMeta(p) && IsPayload(ws + [w], Base(p)))
  {
    SidecarBase(w.path);
    if p == w.path || p == Sidecar(w.path) {
      assert (ws + [w])[|ws|].path == w.path;
    } else if IsPayload(ws, p) {
      StillPayload(ws, w, p);
    } else {
      StillPayload(ws, w, Base(p));
    }
  }

  lemma WriteKeepsInv(c: Codec, fs: Files, fs': Files, w: Written, ws: seq<Written>)
    requires StoreInv(c, fs, ws) && Adds(c, fs, fs', w)
    ensures StoreInv(c, fs', ws + [w])
  {
    AddKeepsPayloads(c, fs, fs', w, ws);
    var ws' := ws + [w];
    forall i, j | 0 <= i < |ws'| && 0 <= j < |ws'|
      ensures ws'[i].path != Sidecar(ws'[j].path) && (i < j ==> ws'[i].path != ws'[j].path) {
      if i < |ws| && j < |ws| {
        assert ws[i].path != Sidecar(ws[j].path);
      }
    }
    forall p | p in fs' ensures IsPayload(ws + [w], p) || (EndsMeta(p) && IsPayload(ws + [w], Base(p))) {
      AddCoversFiles(c, fs, fs', w, ws, p);
    }
  }

  lemma StillPayload(ws: seq<Written>, w: Written, p: Path)
    requires IsPayload(ws, p)
    ensures IsPayload(ws + [w], p)
  {
    var i :| 0 <= i < |ws| && ws[i].path == p;
    assert (ws + [w])[i].path == p;
  }

  /** Each step of a run adds one artifact. */
  lemma RunAdds(c: Codec, states: seq<Files>, requests: seq<Request>, ids: seq<string>, ws: seq<Written>, i: nat)
    requires IsRun(c, states, requests, ids, ws) && i < |ws|
    ensures Adds(c, states[i], states[i + 1], ws[i])
  {
    assert IsWrite(c, states[i], states[i + 1], requests[i], ids[i], ws[i]);
    WriteAddsTwoFiles(c, states[i], states[i + 1], requests[i], ids[i], ws[i]);
  }

  ghost predicate AddRun(c: Codec, states: seq<Files>, ws: seq<Written>) {
    && |states| == |ws| + 1 && states[0] == map[]
    && forall i :: 0 <= i < |ws| ==> Adds(c, states[i], states[i + 1], ws[i])
  }

  lemma EmptyInv(c: Codec)
    ensures StoreInv(c, map[], [])
  {
  }

  lemma AddRunBefore(c: Codec, states: seq<Files>, ws: seq<Written>, n: nat)
    requires AddRun(c, states, ws) && n <= |ws|
    ensures AddRun(c, states[..n + 1], ws[..n])
  {
  }

  lemma {:induction false} AddRunInv(c: Codec, states: seq<Files>, ws: seq<Written>)
    requires AddRun(c, states, ws)
    ensures StoreInv(c, states[|ws|], ws)
  {
    if ws == [] {
      EmptyInv(c);
    } else {
      var n := |ws| - 1;
      AddRunBefore(c, states, ws, n);
      AddRunInv(c, states[..n + 1], ws[..n]);
      WriteKeepsInv(c, states[n], states[n + 1], ws[n], ws[..n]);
      assert ws == ws[..n] + [ws[n]];
    }
  }

  lemma RunInv(c: Codec, states: seq<Files>, requests: seq<Request>, ids: seq<string>, ws: seq<Written>, n: nat)
    requires IsRun(c, states, requests, ids, ws) && n <= |ws|
    ensures StoreInv(c, states[n], ws[..n])
  {
    forall i | 0 <= i < n ensures Adds(c, states[..n + 1][i], states[..n + 1][i + 1], ws[..n][i]) {
      RunAdds(c, states, requests, ids, ws, i);
    }
    AddRunInv(c, states[..n + 1], ws[..n]);
  }

  // ----- reading back

  lemma ReadBack(c: Codec, fs: Files, w: Written)
    requires Lawful(c) && Intact(c, fs, w)
    ensures ReadArtifact(c, fs, w.path) ==
      Ok(Stored(RefOf(w.envelope), UniversalNewlines(w.content), Defaulted(w.envelope)))
  {
  }

  /** Every artifact of a run reads back at every later point: original bytes, ref and envelope. */
  lemma EarlierArtifactsStayReadable(c: Codec, states: seq<Files>, requests: seq<Request>, ids: seq<string>,
                                     ws: seq<Written>, i: nat, n: nat)
    requires Lawful(c) && IsRun(c, states, requests, ids, ws) && i < n <= |ws|
    ensures ws[i].path in states[n] && states[n][ws[i].path] == c.encode(requests[i].content)
    ensures ReadArtifact(c, states[n], ws[i].path) ==
      Ok(Stored(RefOf(ws[i].envelope), UniversalNewlines(requests[i].content), Defaulted(ws[i].envelope)))
  {
    RunInv(c, states, requests, ids, ws, n);
    assert ws[..n][i] == ws[i];
    assert IsWrite(c, states[i], states[i + 1], requests[i], ids[i], ws[i]);
    ReadBack(c, states[n], ws[i]);
  }

  /** What a reader gets back is what the request said, at the path the search granted. */
  lemma ReadCarriesRequest(c: Codec, states: seq<Files>, requests: seq<Request>, ids: seq<string>, ws: seq<Written>,
                           i: nat, n: nat)
    requires Lawful(c) && IsRun(c, states, requests, ids, ws) && i < n <= |ws|
    ensures var r, stored := requests[i], ReadArtifact(c, states[n], ws[i].path);
      && stored.Ok?
      && IsAvailable(states[i], r.candidate, stored.value.ref.relativePath)
      && stored.value.ref.artifactId == ids[i] && stored.value.ref.runId == r.runId
      && stored.value.ref.artifactType == r.artifactType && stored.value.ref.createdAt == r.createdAt
      && stored.value.ref.checksum == c.digest(states[n][ws[i].path])
      && stored.value.envelope.attemptId == r.attemptId && stored.value.envelope.inputHashes == r.inputHashes
      && (r.createdBy != "" ==> stored.value.envelope.producer == r.createdBy)
      && (r.policyVersion != "" ==> stored.value.envelope.policyVersion == r.policyVersion)
      && (r.contentType != "" ==> stored.value.envelope.contentType == r.contentType)
      && stored.value.envelope.schemaVersion == 1 && stored.value.ref.stageId == stored.value.envelope.stageId
      && stored.value.envelope.stageId ==
           (if r.stageId.Some? && r.stageId.value != "" then r.stageId else StageOf(ws[i].path))
      && (r.createdBy == "" ==> stored.value.envelope.producer == "backend")
      && (r.policyVersion == "" ==> stored.value.envelope.policyVersion == "sprint0")
      && (r.contentType == "" ==> stored.value.envelope.contentType == ContentTypeOf(r.artifactType))
      && ('\r' !in r.content ==> stored.value.content == r.content)
      && (forall a, b :: r.content == a + ['\r', '\n'] + b ==>
            stored.value.content == UniversalNewlines(a) + ['\n'] + UniversalNewlines(b))
      && (forall a, b :: r.content == a + ['\r'] + b && (b != [] ==> b[0] != '\n') ==>
            stored.value.content == UniversalNewlines(a) + ['\n'] + UniversalNewlines(b))
  {
    EarlierArtifactsStayReadable(c, states, requests, ids, ws, i, n);
    assert IsWrite(c, states[i], states[i + 1], requests[i], ids[i], ws[i]);
    TextRoundTrip(requests[i].content);
    var content := requests[i].content;
    forall a, b | content == a + ['\r', '\n'] + b
      ensures UniversalNewlines(content) == UniversalNewlines(a) + ['\n'] + UniversalNewlines(b)
    {
      CrLfIsOne(a, b);
    }
    forall a, b | content == a + ['\r'] + b && (b != [] ==> b[0] != '\n')
      ensures UniversalNewlines(content) == UniversalNewlines(a) + ['\n'] + UniversalNewlines(b)
    {
      LoneCrIsOne(a, b);
    }
  }

  const FOLDERS := {
    "00_job_setup", "01_baseline", "02_analysis", "03_planning", "04_workflow_state", "05_sandbox_transform",
    "06_validation", "07_repair", "08_final", "global", "repair_attempts", "final_assurance", "delivery", "final_report"
  }

  /** The stage of a path: what follows `stages`, else the layout folder it is in. */
  lemma StageIff(p: Path, rest: seq<string>, first: string)
    requires p.parent + [p.name] == [first] + rest
    ensures first == "stages" && rest != [] ==> StageOf(p) == Some(rest[0])
    ensures first == "stages" && rest == [] ==> StageOf(p) == Some("stages")
    ensures first != "stages" ==> StageOf(p) == if first in FOLDERS then Some(first) else None
  {
    assert (p.parent + [p.name])[0] == first;
    assert rest != [] ==> (p.parent + [p.name])[1] == rest[0];
  }

  /** Which artifact types have which content type; the other types are markdown. */
  lemma ContentTypes(t: string)
    ensures ContentTypeOf(t) == "application/json" <==> t == "json" || t == "command_log"
    ensures ContentTypeOf(t) == "application/yaml" <==> t == "yaml"
    ensures ContentTypeOf(t) == "text/plain" <==> t == "text_log"
    ensures ContentTypeOf(t) == "text/x-patch" <==> t == "patch"
    ensures ContentTypeOf(t) == "text/x-diff" <==> t == "diff"
    ensures ContentTypeOf(t) == "text/markdown" <==>
      t !in {"json", "command_log", "yaml", "text_log", "patch", "diff"}
  {
  }

  lemma {:induction false} NoCarriageReturns(t: string)
    ensures '\r' !in UniversalNewlines(t)
    ensures '\r' !in t ==> UniversalNewlines(t) == t
    decreases |t|
  {
    if t != [] {
      NoCarriageReturns(t[1..]);
      if |t| > 1 {
        NoCarriageReturns(t[2..]);
      }
      assert t == [t[0]] + t[1..];
    }
  }

  /** How many characters the first normalised one stands for. */
  function PieceLength(t: string): nat
    requires t != []
  {
    if t[0] == '\r' && |t| > 1 && t[1] == '\n' then 2 else 1
  }

  lemma FirstPiece(t: string)
    requires t != []
    ensures UniversalNewlines(t) == [if t[0] == '\r' then '\n' else t[0]] + UniversalNewlines(t[PieceLength(t)..])
  {
  }

  /** No CR LF is cut in two between `a` and `b`. */
  predicate CutsNone(a: string, b: string) { a == [] || b == [] || a[|a| - 1] != '\r' || b[0] != '\n' }

  lemma PieceOfWhole(a: string, b: string)
    requires a != [] && CutsNone(a, b)
    ensures PieceLength(a + b) == PieceLength(a) && (a + b)[0] == a[0]
    ensures (a + b)[PieceLength(a)..] == a[PieceLength(a)..] + b && CutsNone(a[PieceLength(a)..], b)
  {
  }

  lemma Associates(c: char, x: string, y: string)
    ensures [c] + (x + y) == ([c] + x) + y
  {
  }

  /** A text is normalised piece by piece, wherever a CR LF is not cut in two. */
  lemma {:induction false} NormalisePieces(a: string, b: string)
    requires CutsNone(a, b)
    ensures UniversalNewlines(a + b) == UniversalNewlines(a) + UniversalNewlines(b)
    decreases |a|
  {
    if a == [] {
      assert a + b == b;
    } else {
      var rest := a[PieceLength(a)..];
      PieceOfWhole(a, b);
      FirstPiece(a);
      FirstPiece(a + b);
      NormalisePieces(rest, b);
      Associates(if a[0] == '\r' then '\n' else a[0], UniversalNewlines(rest), UniversalNewlines(b));
    }
  }

  /** CR LF becomes one line feed, wherever it stands. */
  lemma CrLfIsOne(a: string, b: string)
    ensures UniversalNewlines(a + ['\r', '\n'] + b) == UniversalNewlines(a) + ['\n'] + UniversalNewlines(b)
  {
    var t := ['\r', '\n'] + b;
    NormalisePieces(a, t);
    assert t[2..] == b && a + ['\r', '\n'] + b == a + t;
  }

  /** So does a carriage return on its own. */
  lemma LoneCrIsOne(a: string, b: string)
    requires b != [] ==> b[0] != '\n'
    ensures UniversalNewlines(a + ['\r'] + b) == UniversalNewlines(a) + ['\n'] + UniversalNewlines(b)
  {
    var t := ['\r'] + b;
    NormalisePieces(a, t);
    assert t[1..] == b && a + ['\r'] + b == a + t;
  }

  /** Text comes back unchanged exactly when it has no carriage return. */
  lemma TextRoundTrip(t: string)
    ensures UniversalNewlines(t) == t <==> '\r' !in t
  {
    NoCarriageReturns(t);
  }

  /** An envelope comes back unchanged exactly when its writer named a producer and a policy version. */
  lemma EnvelopeRoundTrip(c: Codec, r: Request, id: string, p: Path)
    ensures var e := EnvelopeFor(c, r, id, p);
      Defaulted(e) == e <==> r.createdBy != "" && r.policyVersion != ""
  {
    var e := EnvelopeFor(c, r, id, p);
    assert e.contentType != "";
  }
}
