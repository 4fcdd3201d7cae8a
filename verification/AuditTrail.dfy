/**
 The hash-chained execution audit trail. Hashing the canonical JSON of an entry is
 idealised as an injective function on its canonical content.
 */
module AuditTrail {
  import opened Wrappers
  import opened Orders

  /** A wall-clock time in microseconds, with or without a UTC offset. */
  datatype Instant = Naive(clock: int) | Aware(clock: int, offset: int)

  /** Aware times are converted to UTC, naive ones are taken as UTC. */
  function Utc(t: Instant): int {
    match t
    case Naive(clock) => clock
    case Aware(clock, offset) => clock - offset
  }

  datatype Fields = Fields(
    entryId: string, runId: string, stageId: Option<string>, executionId: Option<string>, commandId: string,
    commandClass: string, event: string, actor: Option<string>, executable: string, arguments: seq<string>,
    policyVersion: string, stateVersion: Option<int>, networkProfile: Option<string>, reason: string)

  datatype Entry = Entry(fields: Fields, occurredAt: Instant, prev: string, checksum: string)

  datatype Canonical = Canonical(fields: Fields, occurredUtc: int, prev: string)

  type Digest = Canonical -> string

  ghost predicate Injective(digest: Digest) {
    forall a, b :: digest(a) == digest(b) ==> a == b
  }

  const GENESIS := "GENESIS"
  const PREFIX := "sha256:"

  function CanonicalOf(e: Entry, prev: string): Canonical { Canonical(e.fields, Utc(e.occurredAt), prev) }

  function Sum(digest: Digest, c: Canonical): string { PREFIX + digest(c) }

  function Bind(digest: Digest, e: Entry, prev: string): Entry {
    e.(prev := prev, checksum := Sum(digest, CanonicalOf(e, prev)))
  }

  /** The same moment: an aware time is `offset` ahead of the naive one. */
  predicate SameInstant(a: Instant, b: Instant) {
    match (a, b)
    case (Naive(c), Naive(d)) => c == d
    case (Naive(c), Aware(d, o)) => c + o == d
    case (Aware(c, o), Naive(d)) => c == d + o
    case (Aware(c, o), Aware(d, p)) => c + p == d + o
  }

  /** Equal in everything, up to writing the same instant aware or naive. */
  predicate SameEntry(a: Entry, b: Entry) {
    a.fields == b.fields && SameInstant(a.occurredAt, b.occurredAt) && a.prev == b.prev && a.checksum == b.checksum
  }

  /** Binding covers exactly this much: two entries get one checksum if and only if they agree on it. */
  lemma BindIff(digest: Digest, a: Entry, b: Entry, prev: string, prev': string)
    requires Injective(digest)
    ensures Bind(digest, a, prev).checksum == Bind(digest, b, prev').checksum <==>
      a.fields == b.fields && SameInstant(a.occurredAt, b.occurredAt) && prev == prev'
  {
    if Bind(digest, a, prev).checksum == Bind(digest, b, prev').checksum {
      SumInjective(digest, CanonicalOf(a, prev), CanonicalOf(b, prev'));
    }
  }

  /** Binding sets the two checksums and nothing else; the new one carries the algorithm's name. */
  lemma BindShape(digest: Digest, a: Entry, prev: string)
    ensures var x := Bind(digest, a, prev);
      x.fields == a.fields && x.occurredAt == a.occurredAt && x.prev == prev && "sha256:" <= x.checksum
  {
  }

  /** The first entry of an intact trail is bound to the word GENESIS. */
  lemma FirstEntry(digest: Digest, rows: seq<Entry>)
    requires Chained(digest, rows) && rows != []
    ensures rows[0].prev == "GENESIS"
  {
    assert LinkHolds(digest, rows, 0);
  }

  function Tail(rows: seq<Entry>): string { if rows == [] then GENESIS else rows[|rows| - 1].checksum }

  predicate LinkHolds(digest: Digest, rows: seq<Entry>, i: nat)
    requires i < |rows|
  {
    rows[i].prev == Tail(rows[..i]) && rows[i].checksum == Sum(digest, CanonicalOf(rows[i], rows[i].prev))
  }

  ghost predicate Chained(digest: Digest, rows: seq<Entry>) {
    forall i :: 0 <= i < |rows| ==> LinkHolds(digest, rows, i)
  }

  ghost predicate HoldsBelow(digest: Digest, rows: seq<Entry>, n: nat)
    requires n <= |rows|
  {
    forall i :: 0 <= i < n ==> LinkHolds(digest, rows, i)
  }

  ghost predicate FirstBreak(digest: Digest, rows: seq<Entry>, i: nat)
    requires i < |rows|
  {
    !LinkHolds(digest, rows, i) && HoldsBelow(digest, rows, i)
  }

  /** How many of the first `n` links hold. */
  function LinksHeld(digest: Digest, rows: seq<Entry>, n: nat): (held: nat)
    requires n <= |rows|
    ensures held <= n
  {
    if n == 0 then 0 else LinksHeld(digest, rows, n - 1) + if LinkHolds(digest, rows, n - 1) then 1 else 0
  }

  /** The id of the first of `n` rows whose link fails. */
  function BreakBefore(digest: Digest, rows: seq<Entry>, n: nat): Option<string>
    requires n <= |rows|
  {
    if n == 0 then None
    else
      var earlier := BreakBefore(digest, rows, n - 1);
      if earlier.Some? then earlier
      else if LinkHolds(digest, rows, n - 1) then None else Some(rows[n - 1].fields.entryId)
  }

  lemma HoldsStep(digest: Digest, rows: seq<Entry>, n: nat)
    requires 0 < n <= |rows|
    ensures HoldsBelow(digest, rows, n) <==> HoldsBelow(digest, rows, n - 1) && LinkHolds(digest, rows, n - 1)
  {
  }

  /** Counting the links that hold tells whether all do. */
  lemma {:induction false} HeldIff(digest: Digest, rows: seq<Entry>, n: nat)
    requires n <= |rows|
    ensures LinksHeld(digest, rows, n) == n <==> HoldsBelow(digest, rows, n)
  {
    if n > 0 {
      HeldIff(digest, rows, n - 1);
      HoldsStep(digest, rows, n);
    }
  }

  lemma {:induction false} NoBreakIff(digest: Digest, rows: seq<Entry>, n: nat)
    requires n <= |rows|
    ensures BreakBefore(digest, rows, n).None? <==> HoldsBelow(digest, rows, n)
  {
    if n > 0 {
      NoBreakIff(digest, rows, n - 1);
      HoldsStep(digest, rows, n);
    }
  }

  /** The id remembered is that of the first row whose link fails. */
  lemma {:induction false} BreakIsFirst(digest: Digest, rows: seq<Entry>, n: nat)
    requires n <= |rows| && BreakBefore(digest, rows, n).Some?
    ensures BreaksFirst(digest, rows, n, BreakBefore(digest, rows, n).value)
  {
    if BreakBefore(digest, rows, n - 1).Some? {
      BreakIsFirst(digest, rows, n - 1);
      BreaksStill(digest, rows, n, BreakBefore(digest, rows, n - 1).value);
    } else {
      NoBreakIff(digest, rows, n - 1);
      BreaksHere(digest, rows, n - 1);
    }
  }

  lemma BreaksHere(digest: Digest, rows: seq<Entry>, i: nat)
    requires i < |rows| && HoldsBelow(digest, rows, i) && !LinkHolds(digest, rows, i)
    ensures BreaksFirst(digest, rows, i + 1, rows[i].fields.entryId)
  {
    assert FirstBreak(digest, rows, i);
  }

  /** The first of `n` rows to break has this id. */
  ghost predicate BreaksFirst(digest: Digest, rows: seq<Entry>, n: nat, id: string)
    requires n <= |rows|
  {
    exists i :: 0 <= i < n && FirstBreak(digest, rows, i) && rows[i].fields.entryId == id
  }

  lemma BreaksStill(digest: Digest, rows: seq<Entry>, n: nat, id: string)
    requires 0 < n <= |rows| && BreaksFirst(digest, rows, n - 1, id)
    ensures BreaksFirst(digest, rows, n, id)
  {
  }

  lemma BreakFacts(digest: Digest, rows: seq<Entry>, n: nat)
    requires n <= |rows|
    ensures LinksHeld(digest, rows, n) == n <==> HoldsBelow(digest, rows, n)
    ensures BreakBefore(digest, rows, n).None? <==> HoldsBelow(digest, rows, n)
    ensures BreakBefore(digest, rows, n).Some? ==> BreaksFirst(digest, rows, n, BreakBefore(digest, rows, n).value)
  {
    HeldIff(digest, rows, n);
    NoBreakIff(digest, rows, n);
    if BreakBefore(digest, rows, n).Some? {
      BreakIsFirst(digest, rows, n);
    }
  }

  /** What the verifying loop checks, given the checksum before row `i`. */
  lemma LinkAt(digest: Digest, rows: seq<Entry>, i: nat, expected: string)
    requires i < |rows| && expected == Tail(rows[..i])
    ensures LinkHolds(digest, rows, i) <==>
      !(rows[i].prev != expected || Sum(digest, CanonicalOf(rows[i], rows[i].prev)) != rows[i].checksum)
    ensures Tail(rows[..i + 1]) == rows[i].checksum
  {
  }

  lemma SumInjective(digest: Digest, a: Canonical, b: Canonical)
    requires Injective(digest) && Sum(digest, a) == Sum(digest, b)
    ensures a == b
  {
    assert digest(a) == Sum(digest, a)[|PREFIX|..] == Sum(digest, b)[|PREFIX|..] == digest(b);
  }

  lemma SumIsNotGenesis(digest: Digest, c: Canonical)
    ensures Sum(digest, c) != GENESIS
  {
    assert Sum(digest, c)[0] == 's' && GENESIS[0] == 'G';
  }

  lemma ChainedPrefix(digest: Digest, rows: seq<Entry>, n: nat)
    requires Chained(digest, rows) && n <= |rows|
    ensures Chained(digest, rows[..n])
  {
    forall i | 0 <= i < n ensures LinkHolds(digest, rows[..n], i) {
      assert LinkHolds(digest, rows, i);
      assert rows[..n][..i] == rows[..i];
    }
  }

  /** The tail checksum fixes the length and every entry of an intact trail. */
  lemma {:induction false} TailDeterminesTrail(digest: Digest, a: seq<Entry>, b: seq<Entry>)
    requires Injective(digest) && Chained(digest, a) && Chained(digest, b) && Tail(a) == Tail(b)
    ensures |a| == |b| && forall i :: 0 <= i < |a| ==> SameEntry(a[i], b[i])
  {
    if a != [] {
      var x := a[|a| - 1];
      assert LinkHolds(digest, a, |a| - 1);
      SumIsNotGenesis(digest, CanonicalOf(x, x.prev));
    }
    if b != [] {
      var y := b[|b| - 1];
      assert LinkHolds(digest, b, |b| - 1);
      SumIsNotGenesis(digest, CanonicalOf(y, y.prev));
    }
    if a != [] && b != [] {
      var m, n := |a| - 1, |b| - 1;
      SumInjective(digest, CanonicalOf(a[m], a[m].prev), CanonicalOf(b[n], b[n].prev));
      ChainedPrefix(digest, a, m);
      ChainedPrefix(digest, b, n);
      TailDeterminesTrail(digest, a[..m], b[..n]);
      forall i | 0 <= i < |a| ensures SameEntry(a[i], b[i]) {
        if i < m {
          assert a[..m][i] == a[i] && b[..n][i] == b[i];
        }
      }
    }
  }

  /** So an edit, deletion, insertion or reorder either breaks a link or changes the tail. */
  lemma TamperingShows(digest: Digest, rows: seq<Entry>, rows': seq<Entry>)
    requires Injective(digest) && Chained(digest, rows)
    requires |rows| != |rows'| || exists i :: 0 <= i < |rows| && !SameEntry(rows[i], rows'[i])
    ensures !Chained(digest, rows') || Tail(rows') != Tail(rows)
  {
    if Chained(digest, rows') && Tail(rows') == Tail(rows) {
      TailDeterminesTrail(digest, rows, rows');
    }
  }

  // ----- the trail in its database order

  predicate KeyLeq(a: Entry, b: Entry) {
    if Utc(a.occurredAt) == Utc(b.occurredAt) then StringLeq(a.fields.entryId, b.fields.entryId)
    else Utc(a.occurredAt) < Utc(b.occurredAt)
  }

  /** Storing a row keeps the (time, id) order. */
  function InsertRow(x: Entry, rows: seq<Entry>): seq<Entry> {
    if rows == [] || KeyLeq(x, rows[0]) then [x] + rows else [rows[0]] + InsertRow(x, rows[1..])
  }

  ghost predicate DistinctIds(rows: seq<Entry>) {
    forall i, j :: 0 <= i < j < |rows| ==> rows[i].fields.entryId != rows[j].fields.entryId
  }

  lemma {:induction false} InsertPosition(x: Entry, rows: seq<Entry>) returns (i: nat)
    ensures i <= |rows| && InsertRow(x, rows) == rows[..i] + [x] + rows[i..]
    ensures (forall j :: 0 <= j < i ==> !KeyLeq(x, rows[j])) && (i < |rows| ==> KeyLeq(x, rows[i]))
  {
    if rows == [] || KeyLeq(x, rows[0]) {
      i := 0;
    } else {
      var k := InsertPosition(x, rows[1..]);
      i := k + 1;
      assert rows[..i] == [rows[0]] + rows[1..][..k];
      assert rows[i..] == rows[1..][k..];
    }
  }

  lemma ChecksumsDiffer(digest: Digest, rows: seq<Entry>, i: nat, j: nat)
    requires Injective(digest) && Chained(digest, rows) && DistinctIds(rows) && i < j < |rows|
    ensures rows[i].checksum != rows[j].checksum
  {
    assert LinkHolds(digest, rows, i) && LinkHolds(digest, rows, j);
    if rows[i].checksum == rows[j].checksum {
      SumInjective(digest, CanonicalOf(rows[i], rows[i].prev), CanonicalOf(rows[j], rows[j].prev));
    }
  }

  lemma AppendAtEnd(digest: Digest, rows: seq<Entry>, e: Entry)
    requires Chained(digest, rows)
    ensures Chained(digest, rows + [Bind(digest, e, Tail(rows))])
  {
    var rows' := rows + [Bind(digest, e, Tail(rows))];
    forall k | 0 <= k < |rows'| ensures LinkHolds(digest, rows', k) {
      assert rows'[..k] == rows[..k];
      if k < |rows| {
        assert LinkHolds(digest, rows, k);
      } else {
        assert rows[..k] == rows;
      }
    }
  }

  lemma AppendInside(digest: Digest, rows: seq<Entry>, e: Entry, i: nat)
    requires Injective(digest) && Chained(digest, rows) && DistinctIds(rows) && i < |rows|
    ensures !Chained(digest, rows[..i] + [Bind(digest, e, Tail(rows))] + rows[i..])
  {
    var x, last := Bind(digest, e, Tail(rows)), |rows| - 1;
    var rows' := rows[..i] + [x] + rows[i..];
    assert rows'[i] == x && rows'[..i] == rows[..i];
    assert LinkHolds(digest, rows, last);
    if i == 0 {
      SumIsNotGenesis(digest, CanonicalOf(rows[last], rows[last].prev));
    } else {
      ChecksumsDiffer(digest, rows, i - 1, last);
    }
    assert !LinkHolds(digest, rows', i);
  }

  /**
   Binding to the last row and storing in (time, id) order keeps the trail intact
   exactly when the new entry sorts after every row.
   */
  lemma AppendIntactIff(digest: Digest, rows: seq<Entry>, e: Entry)
    requires Injective(digest) && Chained(digest, rows) && DistinctIds(rows)
    ensures Chained(digest, InsertRow(Bind(digest, e, Tail(rows)), rows)) <==>
      forall j :: 0 <= j < |rows| ==> !KeyLeq(e, rows[j])
  {
    var x := Bind(digest, e, Tail(rows));
    var i := InsertPosition(x, rows);
    if i == |rows| {
      assert rows[..i] + [x] + rows[i..] == rows + [x];
      AppendAtEnd(digest, rows, e);
    } else {
      assert KeyLeq(e, rows[i]);
      AppendInside(digest, rows, e, i);
    }
  }

  /** The trail after appending the entries one by one. */
  function Appended(digest: Digest, es: seq<Entry>): seq<Entry> {
    if es == [] then []
    else
      var rows := Appended(digest, es[..|es| - 1]);
      InsertRow(Bind(digest, es[|es| - 1], Tail(rows)), rows)
  }

  /** Appends in increasing (time, id) order always give an intact trail of exactly those entries. */
  lemma {:induction false} OrderedAppendsStayIntact(digest: Digest, es: seq<Entry>)
    requires Increasing(es)
    ensures Chained(digest, Appended(digest, es)) && |Appended(digest, es)| == |es|
    ensures forall i :: 0 <= i < |es| ==>
      Appended(digest, es)[i].fields == es[i].fields && Appended(digest, es)[i].occurredAt == es[i].occurredAt
  {
    if es != [] {
      var n := |es| - 1;
      var earlier, rows := es[..n], Appended(digest, es[..n]);
      var x := Bind(digest, es[n], Tail(rows));
      OrderedAppendsStayIntact(digest, earlier);
      forall j | 0 <= j < |rows| ensures !KeyLeq(x, rows[j]) {
        assert earlier[j] == es[j] && !KeyLeq(es[n], es[j]);
      }
      InsertLast(x, rows);
      AppendAtEnd(digest, rows, es[n]);
      AppendedLast(es, rows, x);
    }
  }

  lemma AppendedLast(es: seq<Entry>, rows: seq<Entry>, x: Entry)
    requires |es| == |rows| + 1 && x.fields == es[|rows|].fields && x.occurredAt == es[|rows|].occurredAt
    requires forall i :: 0 <= i < |rows| ==>
      rows[i].fields == es[..|rows|][i].fields && rows[i].occurredAt == es[..|rows|][i].occurredAt
    ensures forall i :: 0 <= i < |es| ==>
      (rows + [x])[i].fields == es[i].fields && (rows + [x])[i].occurredAt == es[i].occurredAt
  {
    assert forall i :: 0 <= i < |rows| ==> es[..|rows|][i] == es[i];
  }

  lemma InsertLast(x: Entry, rows: seq<Entry>)
    requires forall j :: 0 <= j < |rows| ==> !KeyLeq(x, rows[j])
    ensures InsertRow(x, rows) == rows + [x]
  {
    var i := InsertPosition(x, rows);
    assert rows[..i] + [x] + rows[i..] == rows + [x];
  }

  /** Strictly before, whether written aware or naive. */
  predicate Earlier(a: Instant, b: Instant) {
    match (a, b)
    case (Naive(c), Naive(d)) => c < d
    case (Naive(c), Aware(d, o)) => c + o < d
    case (Aware(c, o), Naive(d)) => c < d + o
    case (Aware(c, o), Aware(d, p)) => c + p < d + o
  }

  /** The order of the rows: by instant, then by id. */
  lemma KeyLeqIff(a: Entry, b: Entry)
    ensures KeyLeq(a, b) <==>
      || Earlier(a.occurredAt, b.occurredAt)
      || (SameInstant(a.occurredAt, b.occurredAt) && StringLeq(a.fields.entryId, b.fields.entryId))
  {
  }

  // ----- a trail once broken stays broken

  /** Some row is bound to the checksum of a row that comes after it. */
  ghost predicate Twisted(rows: seq<Entry>) {
    exists i, j :: 0 <= i < j < |rows| && rows[i].prev == rows[j].checksum
  }

  lemma LinkedTo(digest: Digest, rows: seq<Entry>, i: nat)
    requires Chained(digest, rows) && i < |rows|
    ensures rows[i].prev == (if i == 0 then GENESIS else rows[i - 1].checksum) && rows[i].checksum != GENESIS
  {
    assert LinkHolds(digest, rows, i);
    SumIsNotGenesis(digest, CanonicalOf(rows[i], rows[i].prev));
  }

  lemma TwistedIsBroken(digest: Digest, rows: seq<Entry>)
    requires Injective(digest) && DistinctIds(rows) && Twisted(rows)
    ensures !Chained(digest, rows)
  {
    var i, j :| 0 <= i < j < |rows| && rows[i].prev == rows[j].checksum;
    if Chained(digest, rows) {
      LinkedTo(digest, rows, i);
      LinkedTo(digest, rows, j);
      if i > 0 {
        ChecksumsDiffer(digest, rows, i - 1, j);
      }
    }
  }

  lemma InsertKeepsTwisted(x: Entry, rows: seq<Entry>)
    requires Twisted(rows)
    ensures Twisted(InsertRow(x, rows))
  {
    var i, j :| 0 <= i < j < |rows| && rows[i].prev == rows[j].checksum;
    var k := InsertPosition(x, rows);
    var rows' := rows[..k] + [x] + rows[k..];
    var i', j' := if i < k then i else i + 1, if j < k then j else j + 1;
    assert rows'[i'] == rows[i] && rows'[j'] == rows[j];
  }

  /** Binding to the last row and sorting before it twists the trail. */
  lemma InsertTwists(x: Entry, rows: seq<Entry>, j: nat)
    requires j < |rows| && x.prev == Tail(rows) && KeyLeq(x, rows[j])
    ensures Twisted(InsertRow(x, rows))
  {
    var k := InsertPosition(x, rows);
    InsideTwists(x, rows, k);
  }

  lemma InsideTwists(x: Entry, rows: seq<Entry>, k: nat)
    requires k < |rows| && x.prev == Tail(rows)
    ensures Twisted(rows[..k] + [x] + rows[k..])
  {
    var last, rows' := |rows| - 1, rows[..k] + [x] + rows[k..];
    assert rows'[k] == x && rows'[last + 1] == rows[k..][last - k] == rows[last];
  }

  lemma InsertedMembers(x: Entry, rows: seq<Entry>)
    ensures forall y :: y in InsertRow(x, rows) <==> y == x || y in rows
  {
    var k := InsertPosition(x, rows);
    assert rows == rows[..k] + rows[k..];
  }

  lemma InsertedIds(x: Entry, rows: seq<Entry>)
    requires DistinctIds(rows) && forall j :: 0 <= j < |rows| ==> rows[j].fields.entryId != x.fields.entryId
    ensures DistinctIds(InsertRow(x, rows))
  {
    var k := InsertPosition(x, rows);
    var rows' := InsertRow(x, rows);
    forall i, j | 0 <= i < j < |rows'| ensures rows'[i].fields.entryId != rows'[j].fields.entryId {
      assert rows'[i] == if i < k then rows[i] else if i == k then x else rows[i - 1];
      assert rows'[j] == if j < k then rows[j] else if j == k then x else rows[j - 1];
    }
  }

  ghost predicate IdFrom(es: seq<Entry>, y: Entry) {
    exists k :: 0 <= k < |es| && es[k].fields.entryId == y.fields.entryId
  }

  lemma {:induction false} AppendedIds(digest: Digest, es: seq<Entry>)
    requires DistinctIds(es)
    ensures DistinctIds(Appended(digest, es)) && forall y :: y in Appended(digest, es) ==> IdFrom(es, y)
  {
    if es != [] {
      var n := |es| - 1;
      var rows := Appended(digest, es[..n]);
      var x := Bind(digest, es[n], Tail(rows));
      AppendedIds(digest, es[..n]);
      forall j | 0 <= j < |rows| ensures rows[j].fields.entryId != x.fields.entryId {
        assert rows[j] in rows && IdFrom(es[..n], rows[j]);
      }
      InsertedIds(x, rows);
      InsertedMembers(x, rows);
      forall y | y in Appended(digest, es) ensures IdFrom(es, y) {
        if y != x {
          var k :| 0 <= k < |es[..n]| && es[..n][k].fields.entryId == y.fields.entryId;
          assert es[k].fields.entryId == y.fields.entryId;
        } else {
          assert es[n].fields.entryId == y.fields.entryId;
        }
      }
    }
  }

  /** Each entry comes strictly after all before it, by (time, id). */
  ghost predicate Increasing(es: seq<Entry>) {
    forall i, j :: 0 <= i < j < |es| ==> !KeyLeq(es[j], es[i])
  }

  /** The first entry out of order twists the trail. */
  lemma FirstDisorderTwists(digest: Digest, es: seq<Entry>, e: Entry, i: nat)
    requires Increasing(es) && i < |es| && KeyLeq(e, es[i])
    ensures var rows := Appended(digest, es); Twisted(InsertRow(Bind(digest, e, Tail(rows)), rows))
  {
    OrderedAppendsStayIntact(digest, es);
    var rows := Appended(digest, es);
    var x := Bind(digest, e, Tail(rows));
    assert KeyLeq(x, rows[i]);
    InsertTwists(x, rows, i);
  }

  lemma {:induction false} DisorderTwists(digest: Digest, es: seq<Entry>)
    requires !Increasing(es)
    ensures Twisted(Appended(digest, es))
  {
    var n := |es| - 1;
    var earlier := es[..n];
    if Increasing(earlier) {
      var i := LastIsOut(es);
      FirstDisorderTwists(digest, earlier, es[n], i);
    } else {
      var rows := Appended(digest, earlier);
      DisorderTwists(digest, earlier);
      InsertKeepsTwisted(Bind(digest, es[n], Tail(rows)), rows);
    }
  }

  lemma LastIsOut(es: seq<Entry>) returns (i: nat)
    requires es != [] && !Increasing(es) && Increasing(es[..|es| - 1])
    ensures i < |es| - 1 && KeyLeq(es[|es| - 1], es[..|es| - 1][i])
  {
    var earlier := es[..|es| - 1];
    var k, j :| 0 <= k < j < |es| && KeyLeq(es[j], es[k]);
    assert forall m :: 0 <= m < |earlier| ==> earlier[m] == es[m];
    i := k;
  }

  /**
   Over every sequence of appends with distinct ids: the trail is intact exactly when they came in
   (time, id) order.
   */
  lemma AppendsIntactIff(digest: Digest, es: seq<Entry>)
    requires Injective(digest) && DistinctIds(es)
    ensures Chained(digest, Appended(digest, es)) <==> Increasing(es)
  {
    if Increasing(es) {
      OrderedAppendsStayIntact(digest, es);
    } else {
      DisorderTwists(digest, es);
      AppendedIds(digest, es);
      TwistedIsBroken(digest, Appended(digest, es));
    }
  }

  /** Recompute the chain from the first row. */
  method VerifyTrail(digest: Digest, rows: seq<Entry>)
    returns (intact: bool, verified: nat, firstBroken: Option<string>, tail: string)
    ensures intact <==> Chained(digest, rows)
    ensures firstBroken.None? <==> intact
    ensures firstBroken.Some? ==> BreaksFirst(digest, rows, |rows|, firstBroken.value)
    ensures tail == Tail(rows) && verified == LinksHeld(digest, rows, |rows|)
  {
    var expected := GENESIS;
    verified := 0;
    firstBroken := None;
    var i := 0;
    while i < |rows|
      invariant 0 <= i <= |rows| && expected == Tail(rows[..i])
      invariant verified == LinksHeld(digest, rows, i)
      invariant firstBroken == BreakBefore(digest, rows, i)
    {
      var row := rows[i];
      LinkAt(digest, rows, i, expected);
      if row.prev != expected || Sum(digest, CanonicalOf(row, row.prev)) != row.checksum {
        if firstBroken.None? {
          firstBroken := Some(row.fields.entryId);
        }
      } else {
        verified := verified + 1;
      }
      expected := row.checksum;
      i := i + 1;
    }
    intact, tail := |rows| == verified, expected;
    assert rows[..|rows|] == rows;
    BreakFacts(digest, rows, |rows|);
  }

  class Trail {
    const digest: Digest
    var rows: seq<Entry>

    constructor (digest: Digest)
      ensures this.digest == digest && rows == []
    {
      this.digest := digest;
      rows := [];
    }

    method Append(e: Entry) returns (entry: Entry)
      modifies this`rows
      ensures entry == Bind(digest, e, Tail(old(rows)))
      ensures rows == InsertRow(entry, old(rows))
      ensures Injective(digest) && Chained(digest, old(rows)) && DistinctIds(old(rows)) ==>
        (Chained(digest, rows) <==> forall j :: 0 <= j < |old(rows)| ==> !KeyLeq(e, old(rows)[j]))
    {
      var prev := if rows == [] then GENESIS else rows[|rows| - 1].checksum;
      entry := Bind(digest, e, prev);
      if Injective(digest) && Chained(digest, rows) && DistinctIds(rows) {
        AppendIntactIff(digest, rows, e);
      }
      rows := InsertRow(entry, rows);
    }
  }
}
