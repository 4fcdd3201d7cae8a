/** Version triples: the searching parser, the printer and the order. Digits are ASCII. */
module Versions {
  import opened Wrappers
  import opened Decimals
  import opened Orders

  datatype Version = Version(major: nat, minor: nat, patch: nat)

  function Str(v: Version): string { Print(v.major) + "." + Print(v.minor) + "." + Print(v.patch) }

  predicate AtLeast(a: Version, b: Version) {
    a.major > b.major || (a.major == b.major && (a.minor > b.minor || (a.minor == b.minor && a.patch >= b.patch)))
  }

  /** Digits and a dot at the start of the text, and what follows. */
  function DottedRun(t: string): Option<(string, string)> {
    var a := DigitRun(t);
    if a == [] || |a| == |t| || t[|a|] != '.' then None else Some((a, t[|a| + 1..]))
  }

  /** Three runs of digits separated by dots at the start of the text. */
  function TripleAt(t: string): Option<Version> {
    var first := DottedRun(t);
    if first.None? then None
    else
      var second := DottedRun(first.value.1);
      if second.None? then None
      else
        var c := DigitRun(second.value.1);
        if c == [] then None
        else
          assert first.value.0 == DigitRun(t) && second.value.0 == DigitRun(first.value.1);
          Some(Version(Read(first.value.0), Read(second.value.0), Read(c)))
  }

  /** Leftmost triple that does not start inside a run of digits. */
  function Search(s: string, afterDigit: bool): Option<Version> {
    if s == [] then None
    else if !afterDigit && TripleAt(s).Some? then TripleAt(s)
    else Search(s[1..], IsDigit(s[0]))
  }

  function Parse(s: string): Option<Version> { Search(s, false) }

  lemma DottedRunOf(x: string, u: string)
    requires x != [] && AllDigits(x)
    ensures DottedRun(x + ("." + u)) == Some((x, u))
  {
    DigitRunOf(x, "." + u);
    assert (x + ("." + u))[|x| + 1..] == u;
  }

  lemma TripleOfStr(v: Version, rest: string)
    requires rest != [] ==> !IsDigit(rest[0])
    ensures TripleAt(Str(v) + rest) == Some(v)
  {
    var x, y, z := Print(v.major), Print(v.minor), Print(v.patch);
    assert Str(v) + rest == x + ("." + (y + ("." + (z + rest))));
    DottedRunOf(x, y + ("." + (z + rest)));
    DottedRunOf(y, z + rest);
    DigitRunOf(z, rest);
    ReadPrint(v.major);
    ReadPrint(v.minor);
    ReadPrint(v.patch);
  }

  // ----- what the parser finds

  /** The text begins with this version, and no digit follows it. */
  ghost predicate Spells(t: string, v: Version) {
    exists x, y, z, rest :: SpelledBy(t, v, x, y, z, rest)
  }

  predicate SpelledBy(t: string, v: Version, x: string, y: string, z: string, rest: string) {
    && t == x + ("." + (y + ("." + (z + rest))))
    && x != "" && y != "" && z != "" && AllDigits(x) && AllDigits(y) && AllDigits(z)
    && (rest != "" ==> !IsDigit(rest[0]))
    && v == Version(Read(x), Read(y), Read(z))
  }

  lemma TripleOf(t: string, x: string, u: string, y: string, w: string)
    requires DottedRun(t) == Some((x, u)) && DottedRun(u) == Some((y, w)) && DigitRun(w) != ""
    ensures AllDigits(x) && AllDigits(y)
    ensures TripleAt(t) == Some(Version(Read(x), Read(y), Read(DigitRun(w))))
  {
  }

  lemma SpelledTriple(t: string, v: Version, x: string, y: string, z: string, rest: string)
    requires SpelledBy(t, v, x, y, z, rest)
    ensures TripleAt(t) == Some(v)
  {
    var w := z + rest;
    var u := y + ("." + w);
    DottedRunOf(x, u);
    DottedRunOf(y, w);
    DigitRunOf(z, rest);
    TripleOf(t, x, u, y, w);
  }

  lemma DottedRunIs(t: string)
    requires DottedRun(t).Some?
    ensures var (x, u) := DottedRun(t).value; x != "" && AllDigits(x) && t == x + ("." + u)
  {
  }

  lemma TripleParts(t: string) returns (x: string, u: string, y: string, w: string)
    requires TripleAt(t).Some?
    ensures DottedRun(t) == Some((x, u)) && DottedRun(u) == Some((y, w)) && DigitRun(w) != ""
  {
    x, u := DottedRun(t).value.0, DottedRun(t).value.1;
    y, w := DottedRun(u).value.0, DottedRun(u).value.1;
  }

  lemma TripleIsSpelled(t: string)
    requires TripleAt(t).Some?
    ensures Spells(t, TripleAt(t).value)
  {
    var x, u, y, w := TripleParts(t);
    TripleOf(t, x, u, y, w);
    DottedRunIs(t);
    DottedRunIs(u);
    var z := DigitRun(w);
    assert w == z + w[|z|..];
    assert SpelledBy(t, TripleAt(t).value, x, y, z, w[|z|..]);
  }

  lemma TripleIff(t: string, v: Version)
    ensures TripleAt(t) == Some(v) <==> Spells(t, v)
  {
    if TripleAt(t) == Some(v) {
      TripleIsSpelled(t);
    }
    if Spells(t, v) {
      var x, y, z, rest :| SpelledBy(t, v, x, y, z, rest);
      SpelledTriple(t, v, x, y, z, rest);
    }
  }

  /** A version stands at `i`, not inside a longer number. */
  ghost predicate StandsAt(s: string, afterDigit: bool, i: int, v: Version) {
    0 <= i <= |s| && (if i == 0 then !afterDigit else !IsDigit(s[i - 1])) && Spells(s[i..], v)
  }

  lemma StandsLater(s: string, afterDigit: bool, i: int, v: Version)
    requires s != []
    ensures StandsAt(s[1..], IsDigit(s[0]), i, v) <==> i >= 0 && StandsAt(s, afterDigit, i + 1, v)
  {
    if 0 <= i < |s| {
      assert s[1..][i..] == s[i + 1..];
    }
  }

  lemma {:induction false} SearchIff(s: string, afterDigit: bool)
    ensures Search(s, afterDigit).None? ==> forall i, v :: !StandsAt(s, afterDigit, i, v)
    ensures Search(s, afterDigit).Some? ==>
      exists i :: StandsAt(s, afterDigit, i, Search(s, afterDigit).value) && NoneBefore(s, afterDigit, i)
  {
    var found := Search(s, afterDigit);
    assert s[0..] == s;
    if s == [] {
      forall v ensures !Spells(s, v) {
        TripleIff(s, v);
      }
    } else if !afterDigit && TripleAt(s).Some? {
      TripleIff(s, found.value);
      assert StandsAt(s, afterDigit, 0, found.value) && NoneBefore(s, afterDigit, 0);
    } else {
      SearchIff(s[1..], IsDigit(s[0]));
      NotHere(s, afterDigit);
      if found.Some? {
        var i :| StandsAt(s[1..], IsDigit(s[0]), i, found.value) && NoneBefore(s[1..], IsDigit(s[0]), i);
        StandsLater(s, afterDigit, i, found.value);
        NoneBeforeNext(s, afterDigit, i);
      } else {
        forall i, v ensures !StandsAt(s, afterDigit, i, v) {
          StandsLater(s, afterDigit, i - 1, v);
        }
      }
    }
  }

  /** No version stands before `i`. */
  ghost predicate NoneBefore(s: string, afterDigit: bool, i: int) {
    forall j, v :: j < i ==> !StandsAt(s, afterDigit, j, v)
  }

  lemma NotHere(s: string, afterDigit: bool)
    requires afterDigit || TripleAt(s).None?
    ensures forall v :: !StandsAt(s, afterDigit, 0, v)
  {
    assert s[0..] == s;
    forall v ensures !StandsAt(s, afterDigit, 0, v) {
      TripleIff(s, v);
    }
  }

  lemma NoneBeforeNext(s: string, afterDigit: bool, i: int)
    requires s != [] && NoneBefore(s[1..], IsDigit(s[0]), i) && forall v :: !StandsAt(s, afterDigit, 0, v)
    ensures NoneBefore(s, afterDigit, i + 1)
  {
    forall j, v | j < i + 1 ensures !StandsAt(s, afterDigit, j, v) {
      StandsLater(s, afterDigit, j - 1, v);
    }
  }

  /** Parsing finds the leftmost version that is not part of a longer number, and fails only if there is none. */
  lemma ParseFinds(s: string)
    ensures Parse(s).None? <==> forall i, v :: !StandsAt(s, false, i, v)
    ensures Parse(s).Some? ==> exists i :: StandsAt(s, false, i, Parse(s).value) && NoneBefore(s, false, i)
  {
    SearchIff(s, false);
  }

  /** Text without digits before a version and no digit right after it does not disturb parsing. */
  lemma {:induction false} ParseStr(prefix: string, v: Version, rest: string)
    requires forall c :: c in prefix ==> !IsDigit(c)
    requires rest != [] ==> !IsDigit(rest[0])
    ensures Parse(prefix + Str(v) + rest) == Some(v)
  {
    var s := prefix + Str(v) + rest;
    if prefix == [] {
      assert s == Str(v) + rest;
      TripleOfStr(v, rest);
    } else {
      assert prefix[0] in prefix;
      assert s[0] == prefix[0] && s[1..] == prefix[1..] + Str(v) + rest;
      ParseStr(prefix[1..], v, rest);
    }
  }

  lemma StrRoundTrip(v: Version)
    ensures Parse(Str(v)) == Some(v)
  {
    ParseStr("", v, "");
    assert "" + Str(v) + "" == Str(v);
  }

  lemma AtLeastIsTotalOrder()
    ensures TotalOrder(AtLeast)
  {
  }

  // ----- caret ranges

  predicate SatisfiesCaret(v: Version, range: string) {
    && range != [] && range[0] == '^'
    && var minimum := Parse(range[1..]); minimum.Some? && AtLeast(v, minimum.value) && v.major == minimum.value.major
  }

  predicate SatisfiesAny(v: Version, ranges: seq<string>) {
    exists i :: 0 <= i < |ranges| && SatisfiesCaret(v, ranges[i])
  }

  type Minimums = map<nat, Version>

  predicate Meets(v: Version, m: Minimums) { v.major in m && AtLeast(v, m[v.major]) }

  /** The least minimum of each major. */
  function MinimumsOf(ranges: seq<string>): Minimums {
    if ranges == [] then map[]
    else
      var rest, range := MinimumsOf(ranges[1..]), ranges[0];
      var minimum := if range != [] && range[0] == '^' then Parse(range[1..]) else None;
      if minimum.None? then rest
      else
        var v := minimum.value;
        if v.major in rest && AtLeast(v, rest[v.major]) then rest else rest[v.major := v]
  }

  function Intersection(a: Minimums, b: Minimums): Minimums {
    map major | major in a && major in b :: if AtLeast(a[major], b[major]) then a[major] else b[major]
  }

  lemma {:induction false} MinimumsAreOfTheirMajor(ranges: seq<string>)
    ensures forall k :: k in MinimumsOf(ranges) ==> MinimumsOf(ranges)[k].major == k
  {
    if ranges != [] {
      MinimumsAreOfTheirMajor(ranges[1..]);
    }
  }

  /** A list of caret ranges is the map from each major to its least minimum. */
  lemma {:induction false} AnyIff(v: Version, ranges: seq<string>)
    ensures SatisfiesAny(v, ranges) <==> Meets(v, MinimumsOf(ranges))
  {
    if ranges != [] {
      AnyIff(v, ranges[1..]);
      MinimumsAreOfTheirMajor(ranges[1..]);
      assert SatisfiesAny(v, ranges) <==> SatisfiesCaret(v, ranges[0]) || SatisfiesAny(v, ranges[1..]) by {
        assert forall i :: 0 <= i < |ranges[1..]| ==> ranges[1..][i] == ranges[i + 1];
        if SatisfiesAny(v, ranges[1..]) {
          var i :| 0 <= i < |ranges[1..]| && SatisfiesCaret(v, ranges[1..][i]);
          assert SatisfiesCaret(v, ranges[i + 1]);
        }
        if SatisfiesAny(v, ranges) && !SatisfiesCaret(v, ranges[0]) {
          var i :| 0 <= i < |ranges| && SatisfiesCaret(v, ranges[i]);
          assert SatisfiesCaret(v, ranges[1..][i - 1]);
        }
      }
    }
  }

  /** Satisfying both lists is meeting, per major, the larger of the two minimums. */
  lemma BothIff(v: Version, sources: seq<string>, targets: seq<string>)
    ensures SatisfiesAny(v, sources) && SatisfiesAny(v, targets) <==>
      Meets(v, Intersection(MinimumsOf(sources), MinimumsOf(targets)))
  {
    AnyIff(v, sources);
    AnyIff(v, targets);
  }
}
