/**
 Process supervision: two reader threads and one consumer.

 A reader decodes what it reads, appends the text to the shared `chunks` list and
 then, as a separate step, puts it on the queue; after end of file it puts a
 sentinel. The consumer takes from the queue, forwards text to the callback and
 leaves after two sentinels. Threads interleave arbitrarily between steps.
 */
module Supervisor {
  import opened Wrappers

  type Bytes = seq<bv8>

  datatype Stream = Stdout | Stderr

  datatype Item = Item(stream: Stream, text: string)

  /** An incremental decoder; its state is whatever it needs to carry between reads. */
  datatype Decoder<!D> = Decoder(start: D, feed: (D, Bytes) -> (D, string), flush: D -> string)

  /** What a reader does after handing over one text. */
  datatype Then<D> = Resume(d: D) | Finish

  datatype Reader<D> =
    | Reading(d: D)
    | Appending(next: Then<D>, text: string)
    | Putting(next: Then<D>, text: string)
    | Closing
    | Done

  datatype State<!D> = State(
    readers: Stream -> Reader<D>,
    input: Stream -> seq<Bytes>,
    chunks: seq<Item>,
    queue: seq<Option<Item>>,
    taken: seq<Option<Item>>,
    completed: nat,
    cancelled: bool,
    timedOut: bool)

  datatype Step =
    | Read(st: Stream, raw: Bytes)
    | EndOfFile(st: Stream)
    | Append(st: Stream)
    | Put(st: Stream)
    | Close(st: Stream)
    | Take
    | Cancel
    | Expire

  function Init<D>(dec: Decoder<D>): State<D> {
    State(_ => Reading(dec.start), _ => [], [], [], [], 0, false, false)
  }

  predicate Enabled<D>(s: State<D>, step: Step) {
    match step
    case Read(st, raw) => s.readers(st).Reading? && raw != []
    case EndOfFile(st) => s.readers(st).Reading?
    case Append(st) => s.readers(st).Appending?
    case Put(st) => s.readers(st).Putting?
    case Close(st) => s.readers(st).Closing?
    case Take => s.completed < 2 && s.queue != []
    case Cancel => s.completed < 2
    case Expire => s.completed < 2
  }

  function With<A>(f: Stream -> A, st: Stream, a: A): Stream -> A {
    x => if x == st then a else f(x)
  }

  function Hand<D>(next: Then<D>, text: string): Reader<D> {
    if text != "" then Appending(next, text)
    else Resumed(next)
  }

  function Resumed<D>(next: Then<D>): Reader<D> {
    match next
    case Resume(d) => Reading(d)
    case Finish => Closing
  }

  function Next<D>(dec: Decoder<D>, s: State<D>, step: Step): State<D>
    requires Enabled(s, step)
  {
    match step
    case Read(st, raw) =>
      var (d, text) := dec.feed(s.readers(st).d, raw);
      s.(readers := With(s.readers, st, Hand(Resume(d), text)), input := With(s.input, st, s.input(st) + [raw]))
    case EndOfFile(st) =>
      s.(readers := With(s.readers, st, Hand(Finish, dec.flush(s.readers(st).d))))
    case Append(st) =>
      var r := s.readers(st);
      s.(readers := With(s.readers, st, Putting(r.next, r.text)), chunks := s.chunks + [Item(st, r.text)])
    case Put(st) =>
      var r := s.readers(st);
      s.(readers := With(s.readers, st, Resumed(r.next)), queue := s.queue + [Some(Item(st, r.text))])
    case Close(st) =>
      s.(readers := With(s.readers, st, Done), queue := s.queue + [None])
    case Take =>
      s.(queue := s.queue[1..], taken := s.taken + [s.queue[0]],
         completed := if s.queue[0].None? then s.completed + 1 else s.completed)
    case Cancel => s.(cancelled := true)
    case Expire => s.(timedOut := true, cancelled := true)
  }

  /** The steps can be taken in order from `s`. */
  ghost predicate Schedulable<D>(dec: Decoder<D>, s: State<D>, steps: seq<Step>)
    decreases |steps|
  {
    steps == [] || (Enabled(s, steps[0]) && Schedulable(dec, Next(dec, s, steps[0]), steps[1..]))
  }

  ghost function Run<D>(dec: Decoder<D>, s: State<D>, steps: seq<Step>): State<D>
    requires Schedulable(dec, s, steps)
    decreases |steps|
  {
    if steps == [] then s else Run(dec, Next(dec, s, steps[0]), steps[1..])
  }

  // ----- what each party sees

  function Texts(st: Stream, items: seq<Item>): seq<string> {
    if items == [] then []
    else
      var last := items[|items| - 1];
      Texts(st, items[..|items| - 1]) + if last.stream == st then [last.text] else []
  }

  function Items(messages: seq<Option<Item>>): seq<Item> {
    if messages == [] then []
    else
      var last := messages[|messages| - 1];
      Items(messages[..|messages| - 1]) + if last.Some? then [last.value] else []
  }

  function Sentinels(messages: seq<Option<Item>>): nat {
    if messages == [] then 0
    else Sentinels(messages[..|messages| - 1]) + if messages[|messages| - 1].None? then 1 else 0
  }

  function Concat(texts: seq<string>): string {
    if texts == [] then "" else Concat(texts[..|texts| - 1]) + texts[|texts| - 1]
  }

  /** Where the i-th of the texts starts when they are put one after another. */
  function Offset(texts: seq<string>, i: nat): nat
    requires i <= |texts|
  {
    if i == 0 then 0 else Offset(texts, i - 1) + |texts[i - 1]|
  }

  /** `whole` is the texts, each at its offset, and nothing else. */
  ghost predicate Joins(whole: string, texts: seq<string>) {
    && |whole| == Offset(texts, |texts|)
    && forall i :: 0 <= i < |texts| ==> Holds(whole, Offset(texts, i), texts[i])
  }

  predicate Holds(whole: string, at: nat, text: string) {
    at + |text| <= |whole| && whole[at..at + |text|] == text
  }

  lemma {:induction false} OffsetSnoc(earlier: seq<string>, text: string, i: nat)
    requires i <= |earlier|
    ensures Offset(earlier + [text], i) == Offset(earlier, i)
  {
    if i > 0 {
      OffsetSnoc(earlier, text, i - 1);
    }
  }

  lemma HoldsLast(before: string, text: string)
    ensures Holds(before + text, |before|, text)
  {
  }

  lemma PieceHolds(before: string, earlier: seq<string>, text: string, i: nat)
    requires Joins(before, earlier) && i <= |earlier|
    ensures Holds(before + text, Offset(earlier, i), if i < |earlier| then earlier[i] else text)
  {
    if i < |earlier| {
      HoldsStill(before, text, Offset(earlier, i), earlier[i]);
    } else {
      HoldsLast(before, text);
    }
  }

  lemma JoinsMore(before: string, earlier: seq<string>, text: string)
    requires Joins(before, earlier)
    ensures Joins(before + text, earlier + [text])
  {
    var texts := earlier + [text];
    OffsetSnoc(earlier, text, |earlier|);
    assert |before + text| == Offset(texts, |texts|);
    forall i | 0 <= i < |texts| ensures Holds(before + text, Offset(texts, i), texts[i]) {
      OffsetSnoc(earlier, text, i);
      PieceHolds(before, earlier, text, i);
    }
  }

  lemma HoldsStill(before: string, more: string, at: nat, text: string)
    requires Holds(before, at, text)
    ensures Holds(before + more, at, text)
  {
    assert (before + more)[at..at + |text|] == before[at..at + |text|];
  }

  lemma {:induction false} ConcatJoins(texts: seq<string>)
    ensures Joins(Concat(texts), texts)
  {
    if texts != [] {
      var n := |texts| - 1;
      ConcatJoins(texts[..n]);
      JoinsMore(Concat(texts[..n]), texts[..n], texts[n]);
      assert texts == texts[..n] + [texts[n]];
    }
  }

  lemma ConcatSnoc(a: seq<string>, text: string)
    ensures Concat(a + [text]) == Concat(a) + text
  {
    assert (a + [text])[..|a|] == a;
  }

  lemma {:induction false} ConcatAppend(a: seq<string>, b: seq<string>)
    ensures Concat(a + b) == Concat(a) + Concat(b)
  {
    if b == [] {
      assert a + b == a;
    } else {
      var n := |b| - 1;
      ConcatAppend(a, b[..n]);
      ConcatSnoc(a + b[..n], b[n]);
      assert a + b == (a + b[..n]) + [b[n]];
    }
  }

  /** Decoder state and non-empty texts after feeding the reads in order. */
  function Fed<D>(dec: Decoder<D>, raws: seq<Bytes>): (D, seq<string>) {
    if raws == [] then (dec.start, [])
    else
      var (d, texts) := Fed(dec, raws[..|raws| - 1]);
      var (d', text) := dec.feed(d, raws[|raws| - 1]);
      (d', texts + if text != "" then [text] else [])
  }

  /** Everything a stream decodes to, the flushed tail included. */
  function Decoded<D>(dec: Decoder<D>, raws: seq<Bytes>): seq<string> {
    var (d, texts) := Fed(dec, raws);
    texts + if dec.flush(d) != "" then [dec.flush(d)] else []
  }

  // ----- the invariant of every interleaving

  ghost predicate StreamInv<D>(dec: Decoder<D>, s: State<D>, st: Stream) {
    var (d, texts) := Fed(dec, s.input(st));
    var appended := Texts(st, s.chunks);
    var put := Texts(st, Items(s.taken + s.queue));
    match s.readers(st)
    case Reading(d') => d' == d && appended == texts && put == appended
    case Appending(Resume(d'), text) => d' == d && appended + [text] == texts && put == appended
    case Appending(Finish, text) => text == dec.flush(d) && text != "" && appended == texts && put == appended
    case Putting(Resume(d'), text) => d' == d && appended == texts && put + [text] == appended
    case Putting(Finish, text) => appended == Decoded(dec, s.input(st)) && put + [text] == appended
    case Closing => appended == Decoded(dec, s.input(st)) && put == appended
    case Done => appended == Decoded(dec, s.input(st)) && put == appended
  }

  function Finished<D>(s: State<D>): nat {
    (if s.readers(Stdout).Done? then 1 else 0) + (if s.readers(Stderr).Done? then 1 else 0)
  }

  ghost predicate Inv<D>(dec: Decoder<D>, s: State<D>) {
    && StreamInv(dec, s, Stdout) && StreamInv(dec, s, Stderr)
    && Balanced(s)
    && (s.timedOut ==> s.cancelled)
  }

  lemma TextsSnoc(st: Stream, items: seq<Item>, item: Item)
    ensures Texts(st, items + [item]) == if item.stream == st then Texts(st, items) + [item.text] else Texts(st, items)
  {
    assert (items + [item])[..|items|] == items;
  }

  lemma MessagesSnoc(messages: seq<Option<Item>>, m: Option<Item>)
    ensures Items(messages + [m]) == if m.Some? then Items(messages) + [m.value] else Items(messages)
    ensures Sentinels(messages + [m]) == Sentinels(messages) + if m.None? then 1 else 0
  {
    assert (messages + [m])[..|messages|] == messages;
  }

  lemma FedSnoc<D>(dec: Decoder<D>, raws: seq<Bytes>, raw: Bytes)
    ensures var (d, texts) := Fed(dec, raws);
      var (d', text) := dec.feed(d, raw);
      Fed(dec, raws + [raw]) == (d', texts + if text != "" then [text] else [])
  {
    assert (raws + [raw])[..|raws|] == raws;
  }

  lemma {:induction false} SentinelsSplit(a: seq<Option<Item>>, b: seq<Option<Item>>)
    ensures Sentinels(a + b) == Sentinels(a) + Sentinels(b)
  {
    if b == [] {
      assert a + b == a;
    } else {
      var n := |b| - 1;
      SentinelsSplit(a, b[..n]);
      assert a + b == (a + b[..n]) + [b[n]] && b == b[..n] + [b[n]];
      MessagesSnoc(a + b[..n], b[n]);
    }
  }

  /** Steps that move no message only concern their own stream. */
  lemma ReaderStepKeepsStream<D>(dec: Decoder<D>, s: State<D>, step: Step, st: Stream)
    requires StreamInv(dec, s, st) && Enabled(s, step) && (step.Read? || step.EndOfFile? || step.Append?)
    ensures StreamInv(dec, Next(dec, s, step), st)
  {
    if step.Read? {
      FedSnoc(dec, s.input(st), step.raw);
    } else if step.Append? {
      TextsSnoc(st, s.chunks, Item(step.st, s.readers(step.st).text));
    }
  }

  lemma PutKeepsStream<D>(dec: Decoder<D>, s: State<D>, who: Stream, st: Stream)
    requires StreamInv(dec, s, st) && s.readers(who).Putting?
    ensures StreamInv(dec, Next(dec, s, Put(who)), st)
  {
    var s' := Next(dec, s, Put(who));
    var item := Item(who, s.readers(who).text);
    assert s'.taken + s'.queue == (s.taken + s.queue) + [Some(item)];
    MessagesSnoc(s.taken + s.queue, Some(item));
    TextsSnoc(st, Items(s.taken + s.queue), item);
  }

  lemma CloseKeepsStream<D>(dec: Decoder<D>, s: State<D>, who: Stream, st: Stream)
    requires StreamInv(dec, s, st) && s.readers(who).Closing?
    ensures StreamInv(dec, Next(dec, s, Close(who)), st)
  {
    var s' := Next(dec, s, Close(who));
    assert s'.taken + s'.queue == (s.taken + s.queue) + [None];
    MessagesSnoc(s.taken + s.queue, None);
  }

  lemma ConsumerKeepsStream<D>(dec: Decoder<D>, s: State<D>, step: Step, st: Stream)
    requires StreamInv(dec, s, st) && Enabled(s, step) && (step.Take? || step.Cancel? || step.Expire?)
    ensures StreamInv(dec, Next(dec, s, step), st)
  {
    var s' := Next(dec, s, step);
    assert s'.taken + s'.queue == s.taken + s.queue;
  }

  lemma StepKeepsStream<D>(dec: Decoder<D>, s: State<D>, step: Step, st: Stream)
    requires StreamInv(dec, s, st) && Enabled(s, step)
    ensures StreamInv(dec, Next(dec, s, step), st)
  {
    match step
    case Put(who) => PutKeepsStream(dec, s, who, st);
    case Close(who) => CloseKeepsStream(dec, s, who, st);
    case Read(_, _) => ReaderStepKeepsStream(dec, s, step, st);
    case EndOfFile(_) => ReaderStepKeepsStream(dec, s, step, st);
    case Append(_) => ReaderStepKeepsStream(dec, s, step, st);
    case _ => ConsumerKeepsStream(dec, s, step, st);
  }

  /** Messages and sentinels balance with the readers that have finished. */
  ghost predicate Balanced<D>(s: State<D>) { BalancedOn(s.taken, s.queue, s.completed, Finished(s)) }

  ghost predicate BalancedOn(taken: seq<Option<Item>>, queue: seq<Option<Item>>, completed: nat, finished: nat) {
    && completed == Sentinels(taken)
    && Sentinels(taken + queue) == finished
    && (finished == 2 && queue != [] ==> queue[|queue| - 1].None?)
  }

  /** A message put while a reader is still running, or the sentinel with which it finishes. */
  lemma SendBalances(taken: seq<Option<Item>>, queue: seq<Option<Item>>, completed: nat, finished: nat, m: Option<Item>)
    requires BalancedOn(taken, queue, completed, finished) && (m.Some? ==> finished < 2)
    ensures BalancedOn(taken, queue + [m], completed, if m.None? then finished + 1 else finished)
  {
    assert taken + (queue + [m]) == (taken + queue) + [m];
    MessagesSnoc(taken + queue, m);
  }

  lemma TakeBalances(taken: seq<Option<Item>>, m: Option<Item>, rest: seq<Option<Item>>, completed: nat, finished: nat)
    requires BalancedOn(taken, [m] + rest, completed, finished)
    ensures BalancedOn(taken + [m], rest, if m.None? then completed + 1 else completed, finished)
  {
    Shift(taken, m, rest);
    MessagesSnoc(taken, m);
    assert rest != [] ==> ([m] + rest)[|rest|] == rest[|rest| - 1];
  }

  lemma Shift<T>(a: seq<T>, x: T, b: seq<T>)
    ensures a + ([x] + b) == (a + [x]) + b
  {
  }

  lemma PutKeepsBalance<D>(dec: Decoder<D>, s: State<D>, st: Stream)
    requires Balanced(s) && Enabled(s, Put(st))
    ensures Balanced(Next(dec, s, Put(st)))
  {
    SendBalances(s.taken, s.queue, s.completed, Finished(s), Some(Item(st, s.readers(st).text)));
    assert Finished(Next(dec, s, Put(st))) == Finished(s) < 2;
  }

  lemma CloseKeepsBalance<D>(dec: Decoder<D>, s: State<D>, st: Stream)
    requires Balanced(s) && Enabled(s, Close(st))
    ensures Balanced(Next(dec, s, Close(st)))
  {
    SendBalances(s.taken, s.queue, s.completed, Finished(s), None);
    assert Finished(Next(dec, s, Close(st))) == Finished(s) + 1;
  }

  lemma TakeKeepsBalance<D>(dec: Decoder<D>, s: State<D>)
    requires Balanced(s) && Enabled(s, Take)
    ensures Balanced(Next(dec, s, Take))
  {
    assert s.queue == [s.queue[0]] + s.queue[1..];
    TakeBalances(s.taken, s.queue[0], s.queue[1..], s.completed, Finished(s));
    assert Finished(Next(dec, s, Take)) == Finished(s);
  }

  lemma StepKeepsBalance<D>(dec: Decoder<D>, s: State<D>, step: Step)
    requires Balanced(s) && Enabled(s, step)
    ensures Balanced(Next(dec, s, step))
  {
    match step
    case Put(st) => PutKeepsBalance(dec, s, st);
    case Close(st) => CloseKeepsBalance(dec, s, st);
    case Take => TakeKeepsBalance(dec, s);
    case _ =>
  }

  lemma StepKeepsInv<D>(dec: Decoder<D>, s: State<D>, step: Step)
    requires Inv(dec, s) && Enabled(s, step)
    ensures Inv(dec, Next(dec, s, step))
  {
    StepKeepsStream(dec, s, step, Stdout);
    StepKeepsStream(dec, s, step, Stderr);
    StepKeepsBalance(dec, s, step);
  }

  lemma {:induction false} RunKeepsInv<D>(dec: Decoder<D>, s: State<D>, steps: seq<Step>)
    requires Inv(dec, s) && Schedulable(dec, s, steps)
    ensures Inv(dec, Run(dec, s, steps))
    decreases |steps|
  {
    if steps != [] {
      StepKeepsInv(dec, s, steps[0]);
      RunKeepsInv(dec, Next(dec, s, steps[0]), steps[1..]);
    }
  }

  lemma InvNoLoss<D>(dec: Decoder<D>, s: State<D>)
    requires Inv(dec, s)
    ensures s.completed == 2 ==> s.queue == [] && Finished(s) == 2
    ensures s.completed < 2 && Finished(s) == 2 ==> s.queue != []
  {
    SentinelsSplit(s.taken, s.queue);
    if s.queue != [] {
      var n := |s.queue| - 1;
      assert s.queue == s.queue[..n] + [s.queue[n]];
      MessagesSnoc(s.queue[..n], s.queue[n]);
    }
  }

  // ----- the main results

  /**
   When the consumer leaves, in any interleaving, nothing is left in the queue and
   each stream's texts have been appended once and delivered once, in order.
   */
  lemma ExitDeliversEverything<D>(dec: Decoder<D>, steps: seq<Step>, st: Stream)
    requires Schedulable(dec, Init(dec), steps) && Run(dec, Init(dec), steps).completed == 2
    ensures var s := Run(dec, Init(dec), steps);
      && s.queue == [] && s.readers(st).Done?
      && Texts(st, s.chunks) == Decoded(dec, s.input(st))
      && Texts(st, Items(s.taken)) == Decoded(dec, s.input(st))
      && (s.timedOut ==> s.cancelled)
  {
    var s := Run(dec, Init(dec), steps);
    RunKeepsInv(dec, Init(dec), steps);
    InvNoLoss(dec, s);
    InvAtExit(dec, s, st);
  }

  /** The consumer never waits on an empty queue once both readers have finished. */
  lemma ConsumerNeverStarves<D>(dec: Decoder<D>, steps: seq<Step>)
    requires Schedulable(dec, Init(dec), steps)
    ensures var s := Run(dec, Init(dec), steps);
      s.completed < 2 && s.readers(Stdout).Done? && s.readers(Stderr).Done? ==> Enabled(s, Take)
  {
    RunKeepsInv(dec, Init(dec), steps);
    InvNoLoss(dec, Run(dec, Init(dec), steps));
  }

  // ----- the protocol cannot get stuck

  /** How many steps a reader, or a message of its, can still take once its input ends. */
  function Weight<D>(r: Reader<D>): nat {
    match r
    case Appending(Resume(_), _) => 9
    case Putting(Resume(_), _) => 8
    case Reading(_) => 6
    case Appending(Finish, _) => 5
    case Putting(Finish, _) => 4
    case Closing => 2
    case Done => 0
  }

  function Remaining<D>(s: State<D>): nat {
    Weight(s.readers(Stdout)) + Weight(s.readers(Stderr)) + |s.queue|
  }

  function ReaderMove<D>(r: Reader<D>, st: Stream): Step
    requires !r.Done?
  {
    match r
    case Reading(_) => EndOfFile(st)
    case Appending(_, _) => Append(st)
    case Putting(_, _) => Put(st)
    case Closing => Close(st)
  }

  function Move<D>(s: State<D>): Step {
    if !s.readers(Stdout).Done? then ReaderMove(s.readers(Stdout), Stdout)
    else if !s.readers(Stderr).Done? then ReaderMove(s.readers(Stderr), Stderr)
    else Take
  }

  lemma ReaderAdvances<D>(dec: Decoder<D>, s: State<D>, st: Stream)
    requires !s.readers(st).Done?
    ensures var step := ReaderMove(s.readers(st), st);
      Enabled(s, step) && Remaining(Next(dec, s, step)) < Remaining(s)
  {
  }

  lemma MoveAdvances<D>(dec: Decoder<D>, s: State<D>)
    requires Inv(dec, s) && s.completed < 2
    ensures Enabled(s, Move(s)) && Remaining(Next(dec, s, Move(s))) < Remaining(s)
  {
    if !s.readers(Stdout).Done? {
      ReaderAdvances(dec, s, Stdout);
    } else if !s.readers(Stderr).Done? {
      ReaderAdvances(dec, s, Stderr);
    } else {
      InvNoLoss(dec, s);
    }
  }

  /** Steps other than reading more, cancelling and expiring. */
  predicate IsQuiet(step: Step) { !step.Read? && !step.Cancel? && !step.Expire? }

  lemma QuietStepAdvances<D>(dec: Decoder<D>, s: State<D>, step: Step)
    requires IsQuiet(step) && Enabled(s, step)
    ensures Remaining(Next(dec, s, step)) < Remaining(s)
  {
    if !step.Take? {
      ReaderAdvances(dec, s, step.st);
    }
  }

  /** No continuation without further input, cancellation or expiry is longer than what remains. */
  lemma {:induction false} QuietRunsEnd<D>(dec: Decoder<D>, s: State<D>, steps: seq<Step>)
    requires Schedulable(dec, s, steps) && forall i :: 0 <= i < |steps| ==> IsQuiet(steps[i])
    ensures |steps| + Remaining(Run(dec, s, steps)) <= Remaining(s)
    decreases |steps|
  {
    if steps != [] {
      QuietStepAdvances(dec, s, steps[0]);
      QuietRunsEnd(dec, Next(dec, s, steps[0]), steps[1..]);
    }
  }

  /** A reachable state in which no such step is possible is one the consumer has left. */
  lemma StoppedIsFinished<D>(dec: Decoder<D>, steps: seq<Step>)
    requires Schedulable(dec, Init(dec), steps)
    requires forall step :: IsQuiet(step) ==> !Enabled(Run(dec, Init(dec), steps), step)
    ensures Run(dec, Init(dec), steps).completed == 2
  {
    var s := Run(dec, Init(dec), steps);
    RunKeepsInv(dec, Init(dec), steps);
    SentinelsSplit(s.taken, s.queue);
    assert IsQuiet(Move(s));
    if s.completed < 2 {
      MoveAdvances(dec, s);
    }
  }

  lemma {:induction false} CanFinish<D>(dec: Decoder<D>, s: State<D>) returns (steps: seq<Step>)
    requires Inv(dec, s) && s.completed <= 2
    ensures Schedulable(dec, s, steps) && Run(dec, s, steps).completed == 2 && |steps| <= Remaining(s)
    decreases Remaining(s)
  {
    if s.completed == 2 {
      steps := [];
    } else {
      MoveAdvances(dec, s);
      StepKeepsInv(dec, s, Move(s));
      var s' := Next(dec, s, Move(s));
      var rest := CanFinish(dec, s');
      steps := Before(dec, s, Move(s), rest, Run(dec, s', rest));
    }
  }

  /** From every reachable state some bounded continuation, with no further input, lets the consumer leave. */
  lemma NeverStuck<D>(dec: Decoder<D>, steps: seq<Step>) returns (more: seq<Step>)
    requires Schedulable(dec, Init(dec), steps)
    ensures var s := Run(dec, Init(dec), steps);
      Schedulable(dec, s, more) && Run(dec, s, more).completed == 2 && |more| <= Remaining(s)
  {
    var s := Run(dec, Init(dec), steps);
    RunKeepsInv(dec, Init(dec), steps);
    SentinelsSplit(s.taken, s.queue);
    more := CanFinish(dec, s);
  }

  // ----- the supervising loop

  datatype Status = Succeeded | Failed | Cancelled

  datatype ProcessResult = ProcessResult(
    status: Status, exitCode: int, stdout: string, stderr: string, timedOut: bool, cancelled: bool, chunks: seq<Item>)

  /** One turn of the scheduler: a thread step, or one pass of the consumer's loop. */
  datatype Turn = Thread(step: Step) | Pass(cancelSet: bool, expired: bool)

  predicate IsThreadStep(step: Step) { !(step.Take? || step.Cancel? || step.Expire?) }

  /** A thread that cannot move waits, as does a pass that finds the queue empty. */
  function Turned<D>(dec: Decoder<D>, s: State<D>, turn: Turn): State<D>
    requires s.completed < 2
  {
    match turn
    case Thread(step) => if IsThreadStep(step) && Enabled(s, step) then Next(dec, s, step) else s
    case Pass(cancelSet, expired) =>
      var s1 := if cancelSet then Next(dec, s, Cancel) else s;
      var s2 := if expired then Next(dec, s1, Expire) else s1;
      if s2.queue != [] then Next(dec, s2, Take) else s2
  }

  /** The state a schedule leads to; the turns after the second sentinel do not happen. */
  function Played<D>(dec: Decoder<D>, s: State<D>, turns: seq<Turn>): State<D>
    decreases |turns|
  {
    if turns == [] || s.completed >= 2 then s else Played(dec, Turned(dec, s, turns[0]), turns[1..])
  }

  lemma TurnIsSteps<D>(dec: Decoder<D>, s: State<D>, turn: Turn) returns (steps: seq<Step>)
    requires s.completed < 2
    ensures Schedulable(dec, s, steps) && Run(dec, s, steps) == Turned(dec, s, turn)
  {
    match turn
    case Thread(step) =>
      steps := [];
      if IsThreadStep(step) && Enabled(s, step) {
        steps := [step];
        Unroll(dec, s, steps, Turned(dec, s, turn));
      }
    case Pass(cancelSet, expired) =>
      var last := Turned(dec, s, turn);
      var s1 := if cancelSet then Next(dec, s, Cancel) else s;
      var s2 := if expired then Next(dec, s1, Expire) else s1;
      steps := [];
      if s2.queue != [] {
        steps := [Take];
        Unroll(dec, s2, steps, last);
      }
      if expired {
        steps := Before(dec, s1, Expire, steps, last);
      }
      if cancelSet {
        steps := Before(dec, s, Cancel, steps, last);
      }
  }

  lemma Before<D>(dec: Decoder<D>, s: State<D>, step: Step, rest: seq<Step>, last: State<D>) returns (steps: seq<Step>)
    requires Enabled(s, step) && Schedulable(dec, Next(dec, s, step), rest)
    requires Run(dec, Next(dec, s, step), rest) == last
    ensures |steps| == |rest| + 1 && Schedulable(dec, s, steps) && Run(dec, s, steps) == last
  {
    steps := [step] + rest;
    assert steps[1..] == rest;
    Unroll(dec, s, steps, last);
  }

  lemma {:induction false} Chain<D>(dec: Decoder<D>, s: State<D>, a: seq<Step>, b: seq<Step>) returns (steps: seq<Step>)
    requires Schedulable(dec, s, a) && Schedulable(dec, Run(dec, s, a), b)
    ensures Schedulable(dec, s, steps) && Run(dec, s, steps) == Run(dec, Run(dec, s, a), b)
    decreases |a|
  {
    if a == [] {
      steps := b;
    } else {
      var rest := Chain(dec, Next(dec, s, a[0]), a[1..], b);
      steps := Before(dec, s, a[0], rest, Run(dec, Run(dec, s, a), b));
    }
  }

  /** Every schedule of the loop is an interleaving of the protocol's steps. */
  lemma {:induction false} PlayedIsARun<D>(dec: Decoder<D>, s: State<D>, turns: seq<Turn>) returns (steps: seq<Step>)
    ensures Schedulable(dec, s, steps) && Run(dec, s, steps) == Played(dec, s, turns)
    decreases |turns|
  {
    steps := [];
    if turns != [] && s.completed < 2 {
      var first := TurnIsSteps(dec, s, turns[0]);
      var rest := PlayedIsARun(dec, Turned(dec, s, turns[0]), turns[1..]);
      steps := Chain(dec, s, first, rest);
    }
  }

  lemma InvAtExit<D>(dec: Decoder<D>, s: State<D>, st: Stream)
    requires Inv(dec, s) && s.completed == 2
    ensures Texts(st, s.chunks) == Decoded(dec, s.input(st)) == Texts(st, Items(s.taken))
  {
    InvNoLoss(dec, s);
    assert s.taken + s.queue == s.taken;
    assert StreamInv(dec, s, st);
  }

  lemma PlayedToTheEnd<D>(dec: Decoder<D>, turns: seq<Turn>, st: Stream)
    requires Played(dec, Init(dec), turns).completed == 2
    ensures var s := Played(dec, Init(dec), turns);
      Texts(st, s.chunks) == Decoded(dec, s.input(st)) == Texts(st, Items(s.taken)) && (s.timedOut ==> s.cancelled)
  {
    var steps := PlayedIsARun(dec, Init(dec), turns);
    ExitDeliversEverything(dec, steps, st);
  }

  /** One pass of the consumer: note a cancellation or an expired deadline, then take at most one message. */
  method ConsumerPass<D>(dec: Decoder<D>, s: State<D>, cancelSet: bool, expired: bool, callback: bool)
    returns (s': State<D>, called: seq<Item>)
    requires s.completed < 2
    ensures s' == Turned(dec, s, Pass(cancelSet, expired)) && s'.completed <= 2
    ensures s'.cancelled == (s.cancelled || cancelSet || expired) && s'.timedOut == (s.timedOut || expired)
    ensures callback ==> Items(s'.taken) == Items(s.taken) + called
    ensures !callback ==> called == []
  {
    s', called := s, [];
    if cancelSet {
      s' := Next(dec, s', Cancel);
    }
    if expired {
      s' := Next(dec, s', Expire);
    }
    if s'.queue != [] {
      var item := s'.queue[0];
      MessagesSnoc(s.taken, item);
      s' := Next(dec, s', Take);
      assert s'.taken == s.taken + [item];
      if item.Some? && callback {
        called := [item.value];
      }
    }
    assert Items(s.taken) + [] == Items(s.taken);
  }

  lemma PlayOne<D>(dec: Decoder<D>, s: State<D>, turns: seq<Turn>, i: nat)
    requires i < |turns| && s.completed < 2
    ensures Played(dec, s, turns[i..]) == Played(dec, Turned(dec, s, turns[i]), turns[i + 1..])
  {
    assert turns[i..][1..] == turns[i + 1..];
  }

  /** The loop: turns are taken until the second sentinel. */
  method Consume<D>(dec: Decoder<D>, callback: bool, turns: seq<Turn>) returns (s: State<D>, calls: seq<Item>)
    ensures s == Played(dec, Init(dec), turns) && s.completed <= 2
    ensures calls == if callback then Items(s.taken) else []
  {
    s, calls := Init(dec), [];
    var i := 0;
    assert turns[0..] == turns;
    while s.completed < 2 && i < |turns|
      invariant 0 <= i <= |turns| && s.completed <= 2
      invariant Played(dec, Init(dec), turns) == Played(dec, s, turns[i..])
      invariant calls == if callback then Items(s.taken) else []
    {
      PlayOne(dec, s, turns, i);
      match turns[i] {
        case Thread(step) =>
          if IsThreadStep(step) && Enabled(s, step) {
            s := Next(dec, s, step);
          }
        case Pass(cancelSet, expired) =>
          var called;
          s, called := ConsumerPass(dec, s, cancelSet, expired, callback);
          calls := calls + called;
      }
      i := i + 1;
    }
  }

  /**
   The whole supervised run under any scheduling. There is a result exactly when both
   streams have closed; then the result and the callback saw all of the output.
   */
  method Supervise<D>(dec: Decoder<D>, callback: bool, turns: seq<Turn>, returncode: int)
    returns (r: Option<ProcessResult>, calls: seq<Item>, input: Stream -> seq<Bytes>)
    ensures var last := Played(dec, Init(dec), turns);
      && input == last.input
      && (r.Some? <==> last.completed == 2)
      && (r.Some? ==>
            r.value.chunks == last.chunks && r.value.timedOut == last.timedOut && r.value.cancelled == last.cancelled)
    ensures r.Some? ==>
      && r.value.exitCode == returncode
      && Joins(r.value.stdout, Decoded(dec, input(Stdout)))
      && Joins(r.value.stderr, Decoded(dec, input(Stderr)))
      && (forall st :: Texts(st, r.value.chunks) == Decoded(dec, input(st)))
      && (callback ==> forall st :: Texts(st, calls) == Decoded(dec, input(st)))
      && (r.value.status.Cancelled? <==> r.value.cancelled)
      && (r.value.timedOut ==> r.value.status.Cancelled?)
      && (!r.value.cancelled ==> (r.value.status.Succeeded? <==> returncode == 0))
    ensures !callback ==> calls == []
  {
    var s;
    s, calls := Consume(dec, callback, turns);
    input := s.input;
    if s.completed < 2 {
      return None, calls, input;
    }
    forall st: Stream
      ensures Texts(st, s.chunks) == Decoded(dec, s.input(st)) == Texts(st, Items(s.taken))
      ensures s.timedOut ==> s.cancelled
    {
      PlayedToTheEnd(dec, turns, st);
    }
    ConcatJoins(Texts(Stdout, s.chunks));
    ConcatJoins(Texts(Stderr, s.chunks));
    var status := if s.cancelled then Cancelled else if returncode == 0 then Succeeded else Failed;
    r := Some(ProcessResult(status, returncode, Concat(Texts(Stdout, s.chunks)), Concat(Texts(Stderr, s.chunks)),
                            s.timedOut, s.cancelled, s.chunks));
  }

  /** The two logs may disagree across streams: appended out-err, queued err-out. */
  lemma CrossStreamOrderMayDiffer()
    ensures
      var dec := Decoder((), (d: (), raw: Bytes) => ((), "x"), (d: ()) => "");
      var steps := [Read(Stdout, [0]), Append(Stdout), Read(Stderr, [0]), Append(Stderr), Put(Stderr), Put(Stdout)];
      && Schedulable(dec, Init(dec), steps)
      && Run(dec, Init(dec), steps).chunks == [Item(Stdout, "x"), Item(Stderr, "x")]
      && Run(dec, Init(dec), steps).queue == [Some(Item(Stderr, "x")), Some(Item(Stdout, "x"))]
  {
    var dec := Decoder((), (d: (), raw: Bytes) => ((), "x"), (d: ()) => "");
    var steps := [Read(Stdout, [0]), Append(Stdout), Read(Stderr, [0]), Append(Stderr), Put(Stderr), Put(Stdout)];
    var s1 := Next(dec, Init(dec), steps[0]);
    var s2 := Next(dec, s1, steps[1]);
    var s3 := Next(dec, s2, steps[2]);
    var s4 := Next(dec, s3, steps[3]);
    var s5 := Next(dec, s4, steps[4]);
    var s6 := Next(dec, s5, steps[5]);
    assert steps[5..][1..] == [];
    Unroll(dec, s5, steps[5..], s6);
    assert steps[4..][1..] == steps[5..];
    Unroll(dec, s4, steps[4..], s6);
    assert steps[3..][1..] == steps[4..];
    Unroll(dec, s3, steps[3..], s6);
    assert steps[2..][1..] == steps[3..];
    Unroll(dec, s2, steps[2..], s6);
    assert steps[1..][1..] == steps[2..];
    Unroll(dec, s1, steps[1..], s6);
    Unroll(dec, Init(dec), steps, s6);
  }

  lemma Unroll<D>(dec: Decoder<D>, s: State<D>, steps: seq<Step>, last: State<D>)
    requires steps != [] && Enabled(s, steps[0])
    requires Schedulable(dec, Next(dec, s, steps[0]), steps[1..])
    requires Run(dec, Next(dec, s, steps[0]), steps[1..]) == last
    ensures Schedulable(dec, s, steps) && Run(dec, s, steps) == last
  {
  }
}
