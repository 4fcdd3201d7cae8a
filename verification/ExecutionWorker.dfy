/** The execution worker: policy check, supervised start, and idempotent replay by (run id, key). */
module ExecutionWorker {
  import opened Wrappers
  import opened Text

  datatype Request = Request(
    runId: string, key: string, shell: bool, timeout: int, runtimeProfile: string, networkProfile: string,
    terminatesTree: bool, commandId: string, executable: string, arguments: seq<string>)

  type Key = (string, string)

  /** Checks after the fixed ones (registry, executable, working directory) are a parameter. */
  datatype Policy = Policy(runtimeProfiles: set<string>,
                           networkProfiles: set<string>, remaining: Request -> Option<string>)

  datatype Config = Config(policy: Policy, defaultTimeout: Option<int>)

  datatype Status = Succeeded | Failed | Cancelled | Rejected

  /** A supervised process is never reported as rejected. */
  type Ended = s: Status | s != Rejected witness Succeeded

  datatype Execution = Execution(
    commandId: string, runId: string, status: Status, exitCode: Option<int>, stdout: string, stderr: string,
    timedOut: bool, cancelled: bool, log: string, replay: bool)

  /** What the supervisor does with an approved command; `Escapes` is any exception other than OSError. */
  datatype Supervised =
    | Exited(status: Ended, exitCode: int, stdout: string, stderr: string, timedOut: bool, cancelled: bool)
    | OsError(message: string)
    | Escapes

  predicate Blank(s: string) { forall c | c in s :: IsSpace(c) }

  function Validate(p: Policy, r: Request): Option<string> {
    if r.shell then Some("Shell execution is forbidden in Sprint 0")
    else if Blank(r.key) then Some("Idempotency key is required")
    else if r.timeout <= 0 then Some("Timeout must be greater than zero")
    else if r.runtimeProfile !in p.runtimeProfiles then Some("Runtime profile is not registered")
    else if r.networkProfile !in p.networkProfiles then Some("Network profile is not registered")
    else if !r.terminatesTree then Some("Cancellation policy is not supported by the Sprint 0 supervisor")
    else p.remaining(r)
  }

  function WithDefaultTimeout(cfg: Config, r: Request): Request {
    if cfg.defaultTimeout.None? || r.timeout != 30 then r else r.(timeout := cfg.defaultTimeout.value)
  }

  /** Idempotency records, and every start of a process in order. */
  datatype State = State(records: map<Key, Execution>, started: seq<Key>)

  function KeyOf(r: Request): Key { (r.runId, r.key) }

  predicate Replays(w: State, r: Request) { r.key != "" && KeyOf(r) in w.records }

  predicate Starts(cfg: Config, w: State, r: Request) {
    !Replays(w, r) && !Rejects(cfg, r)
  }

  /** The result of writing the command log: its artifact, or None when the write raises. */
  type Log = Option<string>

  predicate Rejects(cfg: Config, r: Request) { Validate(cfg.policy, WithDefaultTimeout(cfg, r)).Some? }

  function Recorded(cfg: Config, r: Request, sup: Supervised, log: string): Execution
    requires Rejects(cfg, r) || !sup.Escapes?
  {
    var rejection := Validate(cfg.policy, WithDefaultTimeout(cfg, r));
    if rejection.Some? then
      Execution(r.commandId, r.runId, Rejected, None, "", rejection.value, false, false, log, false)
    else match sup
      case Exited(status, exitCode, stdout, stderr, timedOut, cancelled) =>
        Execution(r.commandId, r.runId, status, Some(exitCode), stdout, stderr, timedOut, cancelled, log, false)
      case OsError(message) =>
        var stderr := "Unable to start approved command: " + message;
        Execution(r.commandId, r.runId, Failed, None, "", stderr, false, false, log, false)
  }

  /** The run ends with an exception, of the supervisor or of writing the log, before anything is remembered. */
  predicate Escaped(cfg: Config, w: State, r: Request, sup: Supervised, log: Log) {
    !Replays(w, r) && ((sup.Escapes? && !Rejects(cfg, r)) || log.None?)
  }

  /** The result of one run; None when an exception escapes. */
  function Answer(cfg: Config, w: State, r: Request, sup: Supervised, log: Log): Option<Execution> {
    if Replays(w, r) then Some(w.records[KeyOf(r)].(replay := true))
    else if Escaped(cfg, w, r, sup, log) then None
    else Some(Recorded(cfg, r, sup, log.value))
  }

  function After(cfg: Config, w: State, r: Request, sup: Supervised, log: Log): State {
    var answer := Answer(cfg, w, r, sup, log);
    State(if !Replays(w, r) && answer.Some? && r.key != "" then w.records[KeyOf(r) := answer.value] else w.records,
          if Starts(cfg, w, r) then w.started + [KeyOf(r)] else w.started)
  }

  class Worker {
    const cfg: Config
    var records: map<Key, Execution>
    var started: seq<Key>

    ghost function Model(): State
      reads this
    {
      State(records, started)
    }

    constructor (cfg: Config)
      ensures this.cfg == cfg && Model() == State(map[], [])
    {
      this.cfg := cfg;
      records, started := map[], [];
    }

    method Run(r: Request, sup: Supervised, log: Log) returns (out: Option<Execution>)
      modifies this
      ensures out == Answer(cfg, old(Model()), r, sup, log)
      ensures Model() == After(cfg, old(Model()), r, sup, log)
    {
      if r.key != "" && KeyOf(r) in records {
        return Some(records[KeyOf(r)].(replay := true));
      }
      var normalized := WithDefaultTimeout(cfg, r);
      var rejection := Validate(cfg.policy, normalized);
      if rejection.Some? {
        out := Record(normalized, Rejected, None, "", rejection.value, false, false, log);
        return;
      }
      started := started + [KeyOf(r)];
      match sup
      case Escapes =>
        return None;
      case OsError(message) =>
        out := Record(normalized, Failed, None, "", "Unable to start approved command: " + message, false, false, log);
      case Exited(status, exitCode, stdout, stderr, timedOut, cancelled) =>
        out := Record(normalized, status, Some(exitCode), stdout, stderr, timedOut, cancelled, log);
    }

    /** Write the log, then remember the execution; a write that raises leaves nothing behind. */
    method Record(r: Request, status: Status, exitCode: Option<int>, stdout: string, stderr: string, timedOut: bool,
                  cancelled: bool, log: Log) returns (out: Option<Execution>)
      modifies this`records
      ensures out.Some? <==> log.Some?
      ensures out.Some? ==>
        out.value == Execution(r.commandId, r.runId, status, exitCode,
                                    stdout, stderr, timedOut, cancelled, log.value, false)
      ensures records == if out.Some? && r.key != "" then old(records)[KeyOf(r) := out.value] else old(records)
    {
      if log.None? {
        return None;
      }
      var execution :=
        Execution(r.commandId, r.runId, status, exitCode, stdout, stderr, timedOut, cancelled, log.value, false);
      Remember(r, execution);
      return Some(execution);
    }

    method Remember(r: Request, execution: Execution)
      modifies this`records
      ensures records == if r.key != "" then old(records)[KeyOf(r) := execution] else old(records)
    {
      if r.key != "" {
        records := records[KeyOf(r) := execution];
      }
    }
  }

  // ----- sequences of runs

  datatype Invocation = Invocation(request: Request, sup: Supervised, log: Log)

  function StateAfter(cfg: Config, calls: seq<Invocation>): State {
    if calls == [] then State(map[], [])
    else
      var c := calls[|calls| - 1];
      After(cfg, StateAfter(cfg, calls[..|calls| - 1]), c.request, c.sup, c.log)
  }

  function AnswerTo(cfg: Config, calls: seq<Invocation>, i: nat): Option<Execution>
    requires i < |calls|
  {
    Answer(cfg, StateAfter(cfg, calls[..i]), calls[i].request, calls[i].sup, calls[i].log)
  }

  function StartsOf(k: Key, started: seq<Key>): nat {
    if started == [] then 0 else StartsOf(k, started[..|started| - 1]) + if started[|started| - 1] == k then 1 else 0
  }

  /** Runs with this key whose process was started and that ended with an exception, so that nothing was remembered. */
  function EscapesOf(cfg: Config, k: Key, calls: seq<Invocation>): nat {
    if calls == [] then 0
    else
      var earlier, c := calls[..|calls| - 1], calls[|calls| - 1];
      var w := StateAfter(cfg, earlier);
      EscapesOf(cfg, k, earlier) +
      if KeyOf(c.request) == k && Starts(cfg, w, c.request) && Escaped(cfg, w, c.request, c.sup, c.log) then 1 else 0
  }

  lemma StartsOfSnoc(k: Key, started: seq<Key>, k': Key)
    ensures StartsOf(k, started + [k']) == StartsOf(k, started) + if k' == k then 1 else 0
  {
    assert (started + [k'])[..|started|] == started;
  }

  lemma StartNeedsKey(cfg: Config, w: State, r: Request)
    requires Starts(cfg, w, r)
    ensures r.key != ""
  {
    if r.key == "" {
      assert Blank(r.key);
    }
  }

  /** One if the key has a record that is no rejection. */
  function Counts(w: State, k: Key): nat { if k in w.records && w.records[k].status != Rejected then 1 else 0 }

  predicate LeftNothing(cfg: Config, w: State, c: Invocation, k: Key) {
    KeyOf(c.request) == k && Starts(cfg, w, c.request) && Escaped(cfg, w, c.request, c.sup, c.log)
  }

  lemma StartStep(cfg: Config, w: State, c: Invocation, k: Key)
    ensures var w' := After(cfg, w, c.request, c.sup, c.log);
      StartsOf(k, w'.started) + Counts(w, k) ==
        StartsOf(k, w.started) + Counts(w', k) + if LeftNothing(cfg, w, c, k) then 1 else 0
  {
    if Starts(cfg, w, c.request) {
      StartsOfSnoc(k, w.started, KeyOf(c.request));
      StartNeedsKey(cfg, w, c.request);
    }
  }

  /**
   Per key, one start for each run that left nothing behind, and one more exactly if the result
   recorded is no rejection.
   */
  lemma {:induction false} StartCount(cfg: Config, calls: seq<Invocation>, k: Key)
    ensures var w := StateAfter(cfg, calls);
      StartsOf(k, w.started) ==
        EscapesOf(cfg, k, calls) + if k in w.records && w.records[k].status != Rejected then 1 else 0
  {
    if calls != [] {
      var n := |calls| - 1;
      StartCount(cfg, calls[..n], k);
      StartStep(cfg, StateAfter(cfg, calls[..n]), calls[n], k);
    }
  }

  // ----- the same count read off the calls

  predicate Approved(cfg: Config, k: Key, c: Invocation) { KeyOf(c.request) == k && !Rejects(cfg, c.request) }

  /** Nothing raises, so the result of the call is remembered unless an earlier one is replayed. */
  predicate Settles(cfg: Config, k: Key, c: Invocation) {
    KeyOf(c.request) == k && k.1 != "" && c.log.Some? && (Rejects(cfg, c.request) || !c.sup.Escapes?)
  }

  ghost predicate Settled(cfg: Config, k: Key, calls: seq<Invocation>) {
    exists i :: 0 <= i < |calls| && Settles(cfg, k, calls[i])
  }

  /** An approved call with this key, up to and including the first that is remembered. */
  ghost predicate OpenAt(cfg: Config, k: Key, calls: seq<Invocation>, i: int) {
    0 <= i < |calls| && Approved(cfg, k, calls[i]) && !Settled(cfg, k, calls[..i])
  }

  ghost function OpenCalls(cfg: Config, k: Key, calls: seq<Invocation>): nat {
    if calls == [] then 0
    else OpenCalls(cfg, k, calls[..|calls| - 1]) + if OpenAt(cfg, k, calls, |calls| - 1) then 1 else 0
  }

  lemma SettledSnoc(cfg: Config, k: Key, earlier: seq<Invocation>, c: Invocation)
    ensures Settled(cfg, k, earlier + [c]) <==> Settled(cfg, k, earlier) || Settles(cfg, k, c)
  {
    var calls := earlier + [c];
    assert calls[|earlier|] == c;
    if i :| 0 <= i < |earlier| && Settles(cfg, k, earlier[i]) {
      assert Settles(cfg, k, calls[i]);
    }
  }

  /** A key has a record exactly if some call has settled it. */
  lemma {:induction false} RecordedIffSettled(cfg: Config, calls: seq<Invocation>, k: Key)
    ensures k in StateAfter(cfg, calls).records <==> Settled(cfg, k, calls)
  {
    if calls != [] {
      var earlier, c := calls[..|calls| - 1], calls[|calls| - 1];
      RecordedIffSettled(cfg, earlier, k);
      SettledSnoc(cfg, k, earlier, c);
      assert calls == earlier + [c];
    }
  }

  /** A key is started once for each approved call up to and including the first that is remembered. */
  lemma {:induction false} StartsAreOpenCalls(cfg: Config, calls: seq<Invocation>, k: Key)
    ensures StartsOf(k, StateAfter(cfg, calls).started) == OpenCalls(cfg, k, calls)
  {
    if calls != [] {
      var earlier, c := calls[..|calls| - 1], calls[|calls| - 1];
      var w := StateAfter(cfg, earlier);
      StartsAreOpenCalls(cfg, earlier, k);
      RecordedIffSettled(cfg, earlier, k);
      StartsOfSnoc(k, w.started, KeyOf(c.request));
      if Starts(cfg, w, c.request) {
        StartNeedsKey(cfg, w, c.request);
      }
    }
  }

  ghost predicate OneOpen(cfg: Config, k: Key, calls: seq<Invocation>) {
    forall i, j :: OpenAt(cfg, k, calls, i) && OpenAt(cfg, k, calls, j) ==> i == j
  }

  lemma OpenBelow(cfg: Config, k: Key, calls: seq<Invocation>, n: nat, i: int)
    requires n <= |calls|
    ensures OpenAt(cfg, k, calls[..n], i) <==> i < n && OpenAt(cfg, k, calls, i)
  {
    assert 0 <= i < n ==> calls[..n][..i] == calls[..i];
  }

  lemma {:induction false} NoneOpenIff(cfg: Config, k: Key, calls: seq<Invocation>)
    ensures OpenCalls(cfg, k, calls) == 0 <==> forall i :: !OpenAt(cfg, k, calls, i)
  {
    if calls != [] {
      var n := |calls| - 1;
      NoneOpenIff(cfg, k, calls[..n]);
      forall i ensures OpenAt(cfg, k, calls[..n], i) <==> i < n && OpenAt(cfg, k, calls, i) {
        OpenBelow(cfg, k, calls, n, i);
      }
    }
  }

  lemma {:induction false} OneOpenIff(cfg: Config, k: Key, calls: seq<Invocation>)
    ensures OpenCalls(cfg, k, calls) <= 1 <==> OneOpen(cfg, k, calls)
  {
    if calls != [] {
      var n := |calls| - 1;
      OneOpenIff(cfg, k, calls[..n]);
      NoneOpenIff(cfg, k, calls[..n]);
      forall i ensures OpenAt(cfg, k, calls[..n], i) <==> i < n && OpenAt(cfg, k, calls, i) {
        OpenBelow(cfg, k, calls, n, i);
      }
    }
  }

  /**
   The process of a (run id, key) is started at most once if and only if at most one call with it
   is approved up to and including the first that is remembered.
   */
  lemma StartedAtMostOnceIff(cfg: Config, calls: seq<Invocation>, k: Key)
    ensures StartsOf(k, StateAfter(cfg, calls).started) <= 1 <==> OneOpen(cfg, k, calls)
  {
    StartsAreOpenCalls(cfg, calls, k);
    OneOpenIff(cfg, k, calls);
  }

  /** In particular if the supervisor returns or raises OSError and the logs can be written. */
  lemma AtMostOneStart(cfg: Config, calls: seq<Invocation>, k: Key)
    requires forall i :: 0 <= i < |calls| && KeyOf(calls[i].request) == k ==>
      !calls[i].sup.Escapes? && calls[i].log.Some?
    ensures StartsOf(k, StateAfter(cfg, calls).started) <= 1
  {
    StartCount(cfg, calls, k);
    NoEscapesNoStarts(cfg, calls, k);
  }

  lemma {:induction false} NoEscapesNoStarts(cfg: Config, calls: seq<Invocation>, k: Key)
    requires forall i :: 0 <= i < |calls| && KeyOf(calls[i].request) == k ==>
      !calls[i].sup.Escapes? && calls[i].log.Some?
    ensures EscapesOf(cfg, k, calls) == 0
  {
    if calls != [] {
      NoEscapesNoStarts(cfg, calls[..|calls| - 1], k);
    }
  }

  /** A record, once made, is there at every later point. */
  lemma {:induction false} RecordsPersist(cfg: Config, calls: seq<Invocation>, i: nat, j: nat, k: Key)
    requires i <= j <= |calls| && k.1 != "" && k in StateAfter(cfg, calls[..i]).records
    ensures k in StateAfter(cfg, calls[..j]).records
    ensures StateAfter(cfg, calls[..j]).records[k] == StateAfter(cfg, calls[..i]).records[k]
    decreases j - i
  {
    if i < j {
      RecordsPersist(cfg, calls, i, j - 1, k);
      assert calls[..j][..j - 1] == calls[..j - 1];
    }
  }

  /** Whatever else a later request says, the same key replays the first result, rejections included. */
  lemma LaterRunsReplay(cfg: Config, calls: seq<Invocation>, i: nat, j: nat)
    requires i < j < |calls| && KeyOf(calls[i].request) == KeyOf(calls[j].request) && calls[i].request.key != ""
    requires AnswerTo(cfg, calls, i).Some?
    ensures AnswerTo(cfg, calls, j) == Some(AnswerTo(cfg, calls, i).value.(replay := true))
    ensures !Starts(cfg, StateAfter(cfg, calls[..j]), calls[j].request)
  {
    assert calls[..i + 1][..i] == calls[..i];
    RecordsPersist(cfg, calls, i + 1, j, KeyOf(calls[i].request));
  }

  /** A request is approved only if it asks for no shell, has a key and a positive timeout, and names known profiles. */
  lemma ApprovedIff(cfg: Config, r: Request)
    ensures !Rejects(cfg, r) <==>
      && !r.shell && !Blank(r.key)
      && (if r.timeout == 30 && cfg.defaultTimeout.Some? then cfg.defaultTimeout.value else r.timeout) > 0
      && r.runtimeProfile in cfg.policy.runtimeProfiles && r.networkProfile in cfg.policy.networkProfiles
      && r.terminatesTree && cfg.policy.remaining(WithDefaultTimeout(cfg, r)).None?
    ensures WithDefaultTimeout(cfg, r).(timeout := r.timeout) == r
  {
  }

  /** A run that fails any of those checks starts nothing, whatever has been recorded. */
  lemma UncheckedNeverStarts(cfg: Config, w: State, r: Request, sup: Supervised, log: Log)
    requires r.shell || Blank(r.key) || !r.terminatesTree || (r.timeout <= 0 && r.timeout != 30) ||
      r.runtimeProfile !in cfg.policy.runtimeProfiles || r.networkProfile !in cfg.policy.networkProfiles
    ensures After(cfg, w, r, sup, log).started == w.started
  {
    ApprovedIff(cfg, r);
  }

  /** Only an earlier request with the same run id and the same key can be replayed. */
  lemma ReplayHasSource(cfg: Config, calls: seq<Invocation>, r: Request) returns (i: nat)
    requires Replays(StateAfter(cfg, calls), r)
    ensures i < |calls| && calls[i].request.runId == r.runId && calls[i].request.key == r.key != ""
  {
    RecordedIffSettled(cfg, calls, KeyOf(r));
    i :| 0 <= i < |calls| && Settles(cfg, KeyOf(r), calls[i]);
  }

  /** A request without a usable key is rejected, replayed or fails to log: it never starts a process. */
  lemma NoKeyNoStart(cfg: Config, w: State, r: Request, sup: Supervised, log: Log)
    requires Blank(r.key)
    ensures After(cfg, w, r, sup, log).started == w.started
    ensures !Replays(w, r) ==> (Answer(cfg, w, r, sup, log).Some? <==> log.Some?)
    ensures !Replays(w, r) && log.Some? ==> Answer(cfg, w, r, sup, log).value.status == Rejected
  {
  }

  /** The log write is not idle: if it raises after an approved start, the same key starts again. */
  lemma RaisingLogStartsAgain(cfg: Config, r: Request, sup: Supervised)
    requires !Rejects(cfg, r)
    ensures var calls := [Invocation(r, sup, None), Invocation(r, sup, None)];
      StartsOf(KeyOf(r), StateAfter(cfg, calls).started) == 2
  {
    var c := Invocation(r, sup, None);
    var calls := [c, c];
    assert calls[..1] == [c] && [c][..0] == [];
    var k, w0 := KeyOf(r), State(map[], []);
    assert StateAfter(cfg, []) == w0 && Starts(cfg, w0, r) && Answer(cfg, w0, r, sup, None).None?;
    var w1 := After(cfg, w0, r, sup, None);
    assert StateAfter(cfg, [c]) == w1 == State(map[], [] + [k]);
    assert StateAfter(cfg, calls) == After(cfg, w1, r, sup, None) == State(map[], [k] + [k]);
    StartsOfSnoc(k, [], k);
    StartsOfSnoc(k, [k], k);
  }
}
