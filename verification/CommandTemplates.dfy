/**
 Command templates: a renderer that substitutes `{name}` placeholders and a matcher
 that turns the same pattern into a regular expression. The two read the pattern
 differently: the renderer scans it as it is, the matcher scans its escaped form.
 */
module CommandTemplates {
  import opened Wrappers
  import opened Text

  predicate IsLower(c: char) { 'a' <= c <= 'z' }

  predicate IsNameChar(c: char) { IsLower(c) || '0' <= c <= '9' || c == '_' }

  /** Length of the longest prefix of name characters. */
  function NameLength(s: string): (n: nat)
    ensures n <= |s| && (n < |s| ==> !IsNameChar(s[n]))
    ensures forall i :: 0 <= i < n ==> IsNameChar(s[i])
  {
    if s != [] && IsNameChar(s[0]) then 1 + NameLength(s[1..]) else 0
  }

  // ----- the renderer's reading of a pattern

  datatype Token = Lit(c: char) | Hole(name: string)

  /** The text starts with `{name}`. */
  predicate StartsHole(p: string) {
    && |p| >= 2 && p[0] == '{' && IsLower(p[1])
    && var n := NameLength(p[1..]); 1 + n < |p| && p[1 + n] == '}'
  }

  function Tokens(p: string): seq<Token> {
    if p == [] then []
    else if StartsHole(p) then
      var n := NameLength(p[1..]);
      [Hole(p[1..1 + n])] + Tokens(p[n + 2..])
    else [Lit(p[0])] + Tokens(p[1..])
  }

  // ----- the matcher's reading: escape, replace escaped placeholders, parse

  /** The characters that regular-expression escaping protects. */
  predicate IsSpecial(c: char) {
    '\t' <= c <= '\r' || c == ' ' || c == '#' || c == '$' || c == '&' || '(' <= c <= '+' || '-' <= c <= '.' ||
    c == '?' || '[' <= c <= '^' || '{' <= c <= '~'
  }

  function Escape(p: string): string {
    if p == [] then [] else (if IsSpecial(p[0]) then ['\\', p[0]] else [p[0]]) + Escape(p[1..])
  }

  /** The text starts with `\{name\}`. */
  predicate StartsEscapedHole(e: string) {
    && |e| >= 3 && e[0] == '\\' && e[1] == '{' && IsLower(e[2])
    && var n := NameLength(e[2..]); 3 + n < |e| && e[2 + n] == '\\' && e[3 + n] == '}'
  }

  /** A piece of the expression after substitution: a character, or the placeholder class. */
  datatype Piece = Ch(c: char) | Class

  function Substitute(e: string): seq<Piece> {
    if e == [] then []
    else if StartsEscapedHole(e) then [Class] + Substitute(e[NameLength(e[2..]) + 4..])
    else [Ch(e[0])] + Substitute(e[1..])
  }

  /** What the expression matches, piece by piece. */
  datatype Atom = Exact(c: char) | Fill | Operator(c: char)

  /** Characters that mean something else in an expression unless escaped. */
  predicate IsOperator(c: char) {
    c == '.' || c == '^' || c == '$' || c == '*' || c == '+' || c == '?' || c == '{' || c == '}' || c == '[' ||
    c == ']' || c == '\\' || c == '|' || c == '(' || c == ')'
  }

  /** Characters that mean something else when escaped. */
  predicate IsAlphanumeric(c: char) { 'a' <= c <= 'z' || 'A' <= c <= 'Z' || '0' <= c <= '9' }

  function Parse(pieces: seq<Piece>): seq<Atom> {
    if pieces == [] then []
    else if pieces[0].Class? then [Fill] + Parse(pieces[1..])
    else if pieces[0].c == '\\' && |pieces| > 1 && pieces[1].Ch? then
      [if IsAlphanumeric(pieces[1].c) then Operator(pieces[1].c) else Exact(pieces[1].c)] + Parse(pieces[2..])
    else [if IsOperator(pieces[0].c) then Operator(pieces[0].c) else Exact(pieces[0].c)] + Parse(pieces[1..])
  }

  function Expression(p: string): seq<Atom> { Parse(Substitute(Escape(p))) }

  function AtomOf(t: Token): Atom {
    match t
    case Lit(c) => Exact(c)
    case Hole(_) => Fill
  }

  function Atoms(tokens: seq<Token>): seq<Atom> {
    if tokens == [] then [] else [AtomOf(tokens[0])] + Atoms(tokens[1..])
  }

  lemma {:induction false} EscapedNameLength(q: string)
    ensures NameLength(Escape(q)) == NameLength(q)
  {
    if q != [] && IsNameChar(q[0]) {
      EscapedNameLength(q[1..]);
      assert Escape(q)[1..] == Escape(q[1..]);
    }
  }

  /** Characters that need no protection are left alone. */
  lemma {:induction false} EscapedPlain(a: string, b: string)
    requires forall c :: c in a ==> !IsSpecial(c)
    ensures Escape(a + b) == a + Escape(b)
  {
    if a == [] {
      assert a + b == b;
    } else {
      assert (a + b)[1..] == a[1..] + b;
      EscapedPlain(a[1..], b);
      assert a == [a[0]] + a[1..];
    }
  }

  lemma NameIsPlain(q: string)
    ensures forall c :: c in q[..NameLength(q)] ==> !IsSpecial(c)
  {
    forall c | c in q[..NameLength(q)] ensures !IsSpecial(c) {
      assert IsNameChar(c);
    }
  }

  lemma EscapedName(q: string)
    ensures NameLength(Escape(q)) == NameLength(q)
    ensures Escape(q) == q[..NameLength(q)] + Escape(q[NameLength(q)..])
  {
    EscapedNameLength(q);
    var n := NameLength(q);
    NameIsPlain(q);
    EscapedPlain(q[..n], q[n..]);
    assert q == q[..n] + q[n..];
  }

  lemma BraceEscaped(p: string)
    requires p != [] && p[0] == '{'
    ensures |Escape(p)| >= 2 && Escape(p)[0] == '\\' && Escape(p)[1] == '{' && Escape(p)[2..] == Escape(p[1..])
  {
    EscapeCons(p);
  }

  /** The first character of an escaped text tells whether the text starts with a closing brace. */
  lemma EscapedBrace(t: string)
    ensures t != [] && t[0] == '}' <==> |Escape(t)| >= 2 && Escape(t)[0] == '\\' && Escape(t)[1] == '}'
  {
    if t != [] {
      EscapeCons(t);
    }
  }

  /** What follows the opening brace of a placeholder. */
  predicate OpensHole(q: string) {
    var n := NameLength(q); q != [] && IsLower(q[0]) && n < |q| && q[n] == '}'
  }

  /** The same in escaped text. */
  predicate OpensEscaped(e: string) {
    var n := NameLength(e); e != [] && IsLower(e[0]) && ClosesEscaped(e, n)
  }

  predicate ClosesEscaped(e: string, n: nat) { n + 1 < |e| && e[n] == '\\' && e[n + 1] == '}' }

  lemma HoleOpens(p: string)
    ensures StartsHole(p) <==> p != [] && p[0] == '{' && OpensHole(p[1..])
  {
  }

  lemma EscapedHoleOpens(e: string)
    ensures StartsEscapedHole(e) <==> |e| >= 2 && e[0] == '\\' && e[1] == '{' && OpensEscaped(e[2..])
  {
  }

  lemma ClosesAfter(a: string, u: string)
    ensures ClosesEscaped(a + u, |a|) <==> ClosesEscaped(u, 0)
  {
  }

  lemma EscapedCloses(q: string)
    ensures ClosesEscaped(Escape(q), NameLength(q)) <==> NameLength(q) < |q| && q[NameLength(q)] == '}'
  {
    var n := NameLength(q);
    EscapedName(q);
    ClosesAfter(q[..n], Escape(q[n..]));
    EscapedBrace(q[n..]);
  }

  lemma EscapedOpens(q: string)
    ensures OpensEscaped(Escape(q)) <==> OpensHole(q)
  {
    EscapedNameLength(q);
    EscapedStart(q);
    EscapedCloses(q);
  }

  lemma EscapedStart(q: string)
    ensures q != [] && IsLower(q[0]) <==> Escape(q) != [] && IsLower(Escape(q)[0])
  {
    if q != [] {
      EscapeCons(q);
    }
  }

  lemma NotEscapedHole(p: string)
    requires p == [] || p[0] != '{'
    ensures !StartsEscapedHole(Escape(p))
  {
    if p != [] {
      EscapeCons(p);
    }
  }

  lemma EscapedHoleIff(p: string)
    ensures StartsEscapedHole(Escape(p)) <==> StartsHole(p)
  {
    HoleOpens(p);
    if p != [] && p[0] == '{' {
      BraceEscaped(p);
      EscapedHoleOpens(Escape(p));
      EscapedOpens(p[1..]);
    } else {
      NotEscapedHole(p);
    }
  }

  /** Both readings take the same piece off the front. */
  lemma ReadingStep(p: string) returns (atom: Atom, rest: string)
    requires p != []
    ensures |rest| < |p|
    ensures Expression(p) == [atom] + Expression(rest) && Atoms(Tokens(p)) == [atom] + Atoms(Tokens(rest))
  {
    if StartsHole(p) {
      atom, rest := Fill, p[NameLength(p[1..]) + 2..];
      HoleReading(p);
    } else {
      atom, rest := Exact(p[0]), p[1..];
      LiteralAtoms(p);
      if IsSpecial(p[0]) {
        SpecialSubstituted(p);
      } else {
        PlainSubstituted(p);
      }
    }
  }

  lemma NothingToRead()
    ensures Expression("") == Atoms(Tokens(""))
  {
  }

  lemma {:induction false} ReadingsAgree(p: string)
    ensures Expression(p) == Atoms(Tokens(p))
    decreases |p|
  {
    if p == [] {
      NothingToRead();
    } else {
      var atom, rest := ReadingStep(p);
      ReadingsAgree(rest);
    }
  }

  lemma HoleReading(p: string)
    requires StartsHole(p)
    ensures var rest := p[NameLength(p[1..]) + 2..];
      Expression(p) == [Fill] + Expression(rest) && Atoms(Tokens(p)) == [Fill] + Atoms(Tokens(rest))
  {
    var rest, e := p[NameLength(p[1..]) + 2..], Escape(p);
    HoleEscaped(p);
    assert Substitute(e) == [Class] + Substitute(Escape(rest));
    assert Substitute(e)[1..] == Substitute(Escape(rest));
    assert Tokens(p)[1..] == Tokens(rest);
  }

  lemma LiteralAtoms(p: string)
    requires p != [] && !StartsHole(p)
    ensures Atoms(Tokens(p)) == [Exact(p[0])] + Atoms(Tokens(p[1..]))
  {
    assert Tokens(p)[1..] == Tokens(p[1..]);
  }

  lemma PlainSubstituted(p: string)
    requires p != [] && !StartsHole(p) && !IsSpecial(p[0])
    ensures Expression(p) == [Exact(p[0])] + Expression(p[1..])
  {
    EscapedHoleIff(p);
    EscapeCons(p);
    SubstituteOne(p[0], Escape(p[1..]));
    var pieces := [Ch(p[0])] + Substitute(Escape(p[1..]));
    assert pieces[1..] == Substitute(Escape(p[1..]));
  }

  lemma HoleEscaped(p: string)
    requires StartsHole(p)
    ensures var n := NameLength(p[1..]); var e := Escape(p);
      StartsEscapedHole(e) && NameLength(e[2..]) == n && e[n + 4..] == Escape(p[n + 2..])
  {
    var q := p[1..];
    var n := NameLength(q);
    EscapedHoleIff(p);
    BraceEscaped(p);
    EscapedNameLength(q);
    AfterHole(q);
    assert Escape(p)[n + 4..] == Escape(p)[2..][n + 2..] && q[n + 1..] == p[n + 2..];
  }

  lemma AfterHole(q: string)
    requires NameLength(q) < |q| && q[NameLength(q)] == '}'
    ensures NameLength(q) + 2 <= |Escape(q)| && Escape(q)[NameLength(q) + 2..] == Escape(q[NameLength(q) + 1..])
  {
    var n := NameLength(q);
    EscapedName(q);
    EscapedBrace(q[n..]);
    AfterName(q[..n], q[n..]);
    assert q[n..][1..] == q[n + 1..];
  }

  lemma AfterName(name: string, t: string)
    requires t != [] && t[0] == '}'
    ensures (name + Escape(t))[|name| + 2..] == Escape(t[1..])
  {
    EscapeCons(t);
  }

  lemma SubstituteOne(c: char, rest: string)
    requires !StartsEscapedHole([c] + rest)
    ensures Substitute([c] + rest) == [Ch(c)] + Substitute(rest)
  {
    assert ([c] + rest)[1..] == rest;
  }

  lemma ParseEscaped(c: char, rest: seq<Piece>)
    requires !IsAlphanumeric(c)
    ensures Parse([Ch('\\')] + ([Ch(c)] + rest)) == [Exact(c)] + Parse(rest)
  {
    assert ([Ch('\\')] + ([Ch(c)] + rest))[2..] == rest;
  }

  lemma NotHoleAfter(c: char, q: string)
    ensures !StartsEscapedHole([c] + Escape(q))
  {
    if q != [] {
      assert Escape(q)[0] != '{';
      assert ([c] + Escape(q))[1] == Escape(q)[0];
    }
  }

  /** The escape character and the character it protects are never the start of a placeholder. */
  lemma SpecialSubstituted(p: string)
    requires p != [] && !StartsHole(p) && IsSpecial(p[0])
    ensures Parse(Substitute(Escape(p))) == [Exact(p[0])] + Parse(Substitute(Escape(p[1..])))
  {
    EscapedHoleIff(p);
    EscapeCons(p);
    SubstituteOne('\\', [p[0]] + Escape(p[1..]));
    NotHoleAfter(p[0], p[1..]);
    SubstituteOne(p[0], Escape(p[1..]));
    ParseEscaped(p[0], Substitute(Escape(p[1..])));
  }

  lemma EscapeCons(p: string)
    requires p != []
    ensures Escape(p) == if IsSpecial(p[0]) then ['\\'] + ([p[0]] + Escape(p[1..])) else [p[0]] + Escape(p[1..])
  {
  }

  // ----- matching

  /** Characters a placeholder may match. */
  predicate Fits(c: char) {
    !IsSpace(c) && c != ';' && c != '|' && c != '&' &&
    c != '<' && c != '>' && c != '`' && c != '$' && c != '(' && c != ')'
  }

  predicate Filling(s: string) { s != "" && forall c | c in s :: Fits(c) }

  /** Whole-text match of an expression. */
  predicate FullMatch(atoms: seq<Atom>, s: string) {
    if atoms == [] then s == []
    else match atoms[0]
      case Exact(c) => s != [] && s[0] == c && FullMatch(atoms[1..], s[1..])
      case Operator(_) => false
      case Fill => exists k :: 1 <= k <= |s| && Filling(s[..k]) && FullMatch(atoms[1..], s[k..])
  }

  function Holes(tokens: seq<Token>): nat {
    if tokens == [] then 0 else (if tokens[0].Hole? then 1 else 0) + Holes(tokens[1..])
  }

  /** The pattern with each placeholder occurrence replaced by its own text. */
  function Filled(tokens: seq<Token>, fills: seq<string>): string
    requires |fills| == Holes(tokens)
  {
    if tokens == [] then ""
    else match tokens[0]
      case Lit(c) => [c] + Filled(tokens[1..], fills)
      case Hole(_) => fills[0] + Filled(tokens[1..], fills[1..])
  }

  ghost predicate Fillings(tokens: seq<Token>, fills: seq<string>) {
    |fills| == Holes(tokens) && forall i :: 0 <= i < |fills| ==> Filling(fills[i])
  }

  lemma {:induction false} MatchGivesFillings(tokens: seq<Token>, s: string) returns (fills: seq<string>)
    requires FullMatch(Atoms(tokens), s)
    ensures Fillings(tokens, fills) && s == Filled(tokens, fills)
  {
    if tokens == [] {
      fills := [];
    } else {
      var rest := tokens[1..];
      assert Atoms(tokens)[1..] == Atoms(rest);
      match tokens[0]
      case Lit(c) =>
        fills := MatchGivesFillings(rest, s[1..]);
        assert s == [s[0]] + s[1..];
      case Hole(_) =>
        var k :| 1 <= k <= |s| && Filling(s[..k]) && FullMatch(Atoms(rest), s[k..]);
        var fills' := MatchGivesFillings(rest, s[k..]);
        fills := [s[..k]] + fills';
        assert fills[1..] == fills' && s == s[..k] + s[k..];
    }
  }

  lemma {:induction false} FillingsMatch(tokens: seq<Token>, fills: seq<string>)
    requires Fillings(tokens, fills)
    ensures FullMatch(Atoms(tokens), Filled(tokens, fills))
  {
    if tokens != [] {
      var rest, s := tokens[1..], Filled(tokens, fills);
      assert Atoms(tokens)[1..] == Atoms(rest);
      match tokens[0]
      case Lit(c) =>
        FillingsMatch(rest, fills);
        assert s[1..] == Filled(rest, fills);
      case Hole(_) =>
        FillingsMatch(rest, fills[1..]);
        var k := |fills[0]|;
        assert s[..k] == fills[0] && s[k..] == Filled(rest, fills[1..]);
    }
  }

  ghost predicate IsFilledIn(pattern: string, argument: string) {
    exists fills :: Fillings(Tokens(pattern), fills) && argument == Filled(Tokens(pattern), fills)
  }

  /** One argument matches its pattern exactly when independent fillings of the placeholders give it. */
  lemma MatchIff(pattern: string, argument: string)
    ensures FullMatch(Expression(pattern), argument) <==> IsFilledIn(pattern, argument)
  {
    ReadingsAgree(pattern);
    if FullMatch(Expression(pattern), argument) {
      var fills := MatchGivesFillings(Tokens(pattern), argument);
    }
    if IsFilledIn(pattern, argument) {
      var fills :| Fillings(Tokens(pattern), fills) && argument == Filled(Tokens(pattern), fills);
      FillingsMatch(Tokens(pattern), fills);
    }
  }

  method ArgumentsMatch(patterns: seq<string>, arguments: seq<string>) returns (matched: bool)
    ensures matched <==>
      |arguments| == |patterns| && forall i :: 0 <= i < |patterns| ==> IsFilledIn(patterns[i], arguments[i])
  {
    if |arguments| != |patterns| {
      return false;
    }
    for i := 0 to |patterns|
      invariant forall j :: 0 <= j < i ==> IsFilledIn(patterns[j], arguments[j])
    {
      MatchIff(patterns[i], arguments[i]);
      if !FullMatch(Expression(patterns[i]), arguments[i]) {
        return false;
      }
    }
    return true;
  }

  // ----- rendering

  type Bindings = map<string, string>

  datatype Error = InvalidBinding(name: string) | InvalidResult

  predicate Refused(c: char) {
    c == '\r' || c == '\n' || c == ';' || c == '|' || c == '&' || c == '<' || c == '>' || c == '`' || c == '$' ||
    c == '(' || c == ')' || c == '\'' || c == '"'
  }

  predicate GoodValue(v: string) { v != "" && forall c | c in v :: !Refused(c) && !IsSpace(c) }

  predicate Bound(b: Bindings, name: string) { name in b && GoodValue(b[name]) }

  /** Substitute left to right; the first unusable binding stops the rendering. */
  function RenderTokens(tokens: seq<Token>, b: Bindings): Result<string, Error> {
    if tokens == [] then Ok("")
    else
      var first :- match tokens[0]
        case Lit(c) => Ok([c])
        case Hole(name) => if Bound(b, name) then Ok(b[name]) else Err(InvalidBinding(name));
      var rest :- RenderTokens(tokens[1..], b);
      Ok(first + rest)
  }

  ghost predicate AllBound(tokens: seq<Token>, b: Bindings) {
    forall t :: t in tokens && t.Hole? ==> Bound(b, t.name)
  }

  function FillsOf(tokens: seq<Token>, b: Bindings): (fills: seq<string>)
    requires AllBound(tokens, b)
    ensures |fills| == Holes(tokens)
  {
    if tokens == [] then []
    else if tokens[0].Hole? then
      assert tokens[0] in tokens;
      [b[tokens[0].name]] + FillsOf(tokens[1..], b)
    else FillsOf(tokens[1..], b)
  }

  lemma {:induction false} RenderIff(tokens: seq<Token>, b: Bindings)
    ensures RenderTokens(tokens, b).Ok? <==> AllBound(tokens, b)
    ensures RenderTokens(tokens, b).Err? ==> RenderTokens(tokens, b).error.InvalidBinding?
    ensures AllBound(tokens, b) ==>
      && Fillings(tokens, FillsOf(tokens, b))
      && RenderTokens(tokens, b) == Ok(Filled(tokens, FillsOf(tokens, b)))
  {
    if tokens != [] {
      RenderIff(tokens[1..], b);
      assert tokens == [tokens[0]] + tokens[1..];
      if AllBound(tokens, b) {
        assert AllBound(tokens[1..], b);
        assert tokens[0].Hole? ==> FillsOf(tokens, b)[1..] == FillsOf(tokens[1..], b);
      }
    }
  }

  lemma RenderedOne(pattern: string, b: Bindings)
    ensures RenderTokens(Tokens(pattern), b).Ok? <==> AllBound(Tokens(pattern), b)
    ensures RenderTokens(Tokens(pattern), b).Ok? ==> IsFilledIn(pattern, RenderTokens(Tokens(pattern), b).value)
    ensures RenderTokens(Tokens(pattern), b).Err? ==> RenderTokens(Tokens(pattern), b).error.InvalidBinding?
  {
    RenderIff(Tokens(pattern), b);
  }

  /**
   Rendering succeeds exactly when every placeholder has a usable value; the result is
   then the patterns with those values, and it always matches its patterns.
   */
  method RenderArguments(patterns: seq<string>, b: Bindings) returns (r: Result<seq<string>, Error>)
    ensures r.Ok? <==> forall i :: 0 <= i < |patterns| ==> AllBound(Tokens(patterns[i]), b)
    ensures r.Ok? ==> |r.value| == |patterns| && forall i :: 0 <= i < |patterns| ==>
      && RenderTokens(Tokens(patterns[i]), b) == Ok(r.value[i])
      && IsFilledIn(patterns[i], r.value[i])
    ensures r != Err(InvalidResult)
    ensures r.Err? ==> exists i :: 0 <= i < |patterns| && RenderTokens(Tokens(patterns[i]), b) == Err(r.error)
  {
    var rendered: seq<string> := [];
    for i := 0 to |patterns|
      invariant |rendered| == i
      invariant forall j :: 0 <= j < i ==> AllBound(Tokens(patterns[j]), b)
      invariant forall j :: 0 <= j < i ==>
        RenderTokens(Tokens(patterns[j]), b) == Ok(rendered[j]) && IsFilledIn(patterns[j], rendered[j])
    {
      var argument := RenderTokens(Tokens(patterns[i]), b);
      RenderedOne(patterns[i], b);
      if argument.Err? {
        return Err(argument.error);
      }
      rendered := rendered + [argument.value];
    }
    var matched := ArgumentsMatch(patterns, rendered);
    if !matched {
      return Err(InvalidResult);
    }
    return Ok(rendered);
  }

  // ----- the planning validator's shell check

  predicate ShellToken(c: char) {
    c == ';' || c == '&' || c == '|' || c == '<' || c == '>' || c == '`' ||
    c == '$' || c == '(' || c == ')' || c == '\r' || c == '\n'
  }

  predicate ShellFree(s: string) { forall c | c in s :: !ShellToken(c) }

  ghost predicate LiteralsShellFree(tokens: seq<Token>) {
    forall t :: t in tokens && t.Lit? ==> !ShellToken(t.c)
  }

  lemma HoleIsShellFree(p: string)
    requires StartsHole(p)
    ensures ShellFree(p[..NameLength(p[1..]) + 2])
  {
    var q := p[1..];
    var n := NameLength(q);
    forall c | c in p[..n + 2] ensures !ShellToken(c) {
      var i :| 0 <= i < n + 2 && p[i] == c;
      if 0 < i < n + 1 {
        assert q[i - 1] == c;
      }
    }
  }

  lemma {:induction false} PatternShellFree(p: string)
    ensures ShellFree(p) <==> LiteralsShellFree(Tokens(p))
    decreases |p|
  {
    if p != [] {
      if StartsHole(p) {
        var n := NameLength(p[1..]);
        PatternShellFree(p[n + 2..]);
        HoleIsShellFree(p);
        assert p == p[..n + 2] + p[n + 2..];
      } else {
        PatternShellFree(p[1..]);
        assert p == [p[0]] + p[1..];
      }
    }
  }

  lemma {:induction false} RenderedShellFree(tokens: seq<Token>, b: Bindings)
    requires RenderTokens(tokens, b).Ok?
    ensures ShellFree(RenderTokens(tokens, b).value) <==> LiteralsShellFree(tokens)
  {
    if tokens != [] {
      RenderedShellFree(tokens[1..], b);
      assert tokens == [tokens[0]] + tokens[1..];
    }
  }

  /** A rendering passes the shell check exactly when its pattern does. */
  lemma RenderingIsShellFreeIff(pattern: string, b: Bindings)
    requires RenderTokens(Tokens(pattern), b).Ok?
    ensures ShellFree(RenderTokens(Tokens(pattern), b).value) <==> ShellFree(pattern)
  {
    PatternShellFree(pattern);
    RenderedShellFree(Tokens(pattern), b);
  }

  // ----- which matched argument lists can be rendered

  /** The placeholder names of a pattern, one per occurrence. */
  function Names(tokens: seq<Token>): (names: seq<string>)
    ensures |names| == Holes(tokens)
  {
    if tokens == [] then []
    else (if tokens[0].Hole? then [tokens[0].name] else []) + Names(tokens[1..])
  }

  function AllNames(patterns: seq<string>): seq<string> {
    if patterns == [] then [] else Names(Tokens(patterns[0])) + AllNames(patterns[1..])
  }

  /** The patterns with the placeholder occurrences, in order, replaced by these texts. */
  function AllFilled(patterns: seq<string>, fills: seq<string>): seq<string>
    requires |fills| == |AllNames(patterns)|
  {
    if patterns == [] then []
    else
      var h := Holes(Tokens(patterns[0]));
      [Filled(Tokens(patterns[0]), fills[..h])] + AllFilled(patterns[1..], fills[h..])
  }

  predicate Renders(patterns: seq<string>, b: Bindings, arguments: seq<string>) {
    && |arguments| == |patterns|
    && forall i :: 0 <= i < |patterns| ==> RenderTokens(Tokens(patterns[i]), b) == Ok(arguments[i])
  }

  /** Some bindings render the patterns to these arguments. */
  ghost predicate Renderable(patterns: seq<string>, arguments: seq<string>) {
    exists b :: Renders(patterns, b, arguments)
  }

  /** The arguments are the patterns filled with these texts, each of which satisfies `ok`. */
  ghost predicate FilledWith(patterns: seq<string>, arguments: seq<string>, fills: seq<string>, ok: string -> bool) {
    && |fills| == |AllNames(patterns)|
    && arguments == AllFilled(patterns, fills)
    && forall i :: 0 <= i < |fills| ==> ok(fills[i])
  }

  /** Occurrences of one name have one text. */
  ghost predicate Agree(names: seq<string>, fills: seq<string>) {
    |names| == |fills| &&
    forall i, j :: 0 <= i < |names| && 0 <= j < |names| && names[i] == names[j] ==> fills[i] == fills[j]
  }

  // ----- bindings give fillings

  lemma {:induction false} FillsAreBindings(tokens: seq<Token>, b: Bindings)
    requires AllBound(tokens, b)
    ensures forall i :: 0 <= i < Holes(tokens) ==>
      Bound(b, Names(tokens)[i]) && FillsOf(tokens, b)[i] == b[Names(tokens)[i]]
  {
    if tokens != [] {
      assert tokens[0] in tokens && AllBound(tokens[1..], b);
      FillsAreBindings(tokens[1..], b);
    }
  }

  ghost predicate AllBoundTo(names: seq<string>, b: Bindings, fills: seq<string>) {
    |fills| == |names| && forall i :: 0 <= i < |names| ==> Bound(b, names[i]) && fills[i] == b[names[i]]
  }

  lemma AllBoundJoin(a: seq<string>, z: seq<string>, b: Bindings, first: seq<string>, rest: seq<string>)
    requires AllBoundTo(a, b, first) && AllBoundTo(z, b, rest)
    ensures AllBoundTo(a + z, b, first + rest)
  {
  }

  lemma FilledCons(patterns: seq<string>, first: seq<string>, rest: seq<string>)
    requires patterns != [] && |first| == Holes(Tokens(patterns[0])) && |rest| == |AllNames(patterns[1..])|
    ensures |AllNames(patterns)| == |first + rest|
    ensures AllFilled(patterns, first + rest) == [Filled(Tokens(patterns[0]), first)] + AllFilled(patterns[1..], rest)
  {
    assert (first + rest)[..|first|] == first && (first + rest)[|first|..] == rest;
  }

  lemma {:induction false} RenderedIsFilled(patterns: seq<string>, b: Bindings, arguments: seq<string>)
    returns (fills: seq<string>)
    requires Renders(patterns, b, arguments)
    ensures AllBoundTo(AllNames(patterns), b, fills) && arguments == AllFilled(patterns, fills)
  {
    if patterns == [] {
      fills := [];
    } else {
      RendersRest(patterns, b, arguments);
      var first := RenderedFirst(Tokens(patterns[0]), b, arguments[0]);
      var rest := RenderedIsFilled(patterns[1..], b, arguments[1..]);
      fills := first + rest;
      AllBoundJoin(Names(Tokens(patterns[0])), AllNames(patterns[1..]), b, first, rest);
      FilledCons(patterns, first, rest);
      assert arguments == [arguments[0]] + arguments[1..];
    }
  }

  lemma RenderedFirst(tokens: seq<Token>, b: Bindings, argument: string) returns (fills: seq<string>)
    requires RenderTokens(tokens, b) == Ok(argument)
    ensures AllBoundTo(Names(tokens), b, fills) && argument == Filled(tokens, fills)
  {
    RenderIff(tokens, b);
    FillsAreBindings(tokens, b);
    fills := FillsOf(tokens, b);
  }

  lemma RendersRest(patterns: seq<string>, b: Bindings, arguments: seq<string>)
    requires Renders(patterns, b, arguments) && patterns != []
    ensures Renders(patterns[1..], b, arguments[1..]) && RenderTokens(Tokens(patterns[0]), b) == Ok(arguments[0])
  {
    forall i | 0 <= i < |patterns[1..]| ensures RenderTokens(Tokens(patterns[1..][i]), b) == Ok(arguments[1..][i]) {
      assert patterns[1..][i] == patterns[i + 1] && arguments[1..][i] == arguments[i + 1];
    }
  }

  // ----- fillings that agree give bindings

  function Bind(names: seq<string>, fills: seq<string>): Bindings
    requires |names| == |fills|
  {
    if names == [] then map[] else Bind(names[1..], fills[1..])[names[0] := fills[0]]
  }

  lemma {:induction false} BindBinds(names: seq<string>, fills: seq<string>, i: nat)
    requires Agree(names, fills) && i < |names|
    ensures names[i] in Bind(names, fills) && Bind(names, fills)[names[i]] == fills[i]
  {
    if i > 0 {
      assert Agree(names[1..], fills[1..]) by {
        assert forall k :: 0 <= k < |names[1..]| ==> names[1..][k] == names[k + 1] && fills[1..][k] == fills[k + 1];
      }
      BindBinds(names[1..], fills[1..], i - 1);
    }
  }

  lemma {:induction false} BoundRenders(tokens: seq<Token>, b: Bindings, fills: seq<string>)
    requires AllBoundTo(Names(tokens), b, fills)
    ensures |fills| == Holes(tokens) && RenderTokens(tokens, b) == Ok(Filled(tokens, fills))
  {
    if tokens != [] {
      var rest := tokens[1..];
      if tokens[0].Hole? {
        assert Names(tokens)[1..] == Names(rest) && Names(tokens)[0] == tokens[0].name;
        assert forall k :: 0 <= k < |Names(rest)| ==> Names(rest)[k] == Names(tokens)[k + 1];
        BoundRenders(rest, b, fills[1..]);
      } else {
        assert Names(tokens) == Names(rest);
        BoundRenders(rest, b, fills);
      }
    }
  }

  lemma RendersCons(patterns: seq<string>, b: Bindings, first: string, rest: seq<string>)
    requires patterns != [] && RenderTokens(Tokens(patterns[0]), b) == Ok(first) && Renders(patterns[1..], b, rest)
    ensures Renders(patterns, b, [first] + rest)
  {
    forall i | 0 <= i < |patterns| ensures RenderTokens(Tokens(patterns[i]), b) == Ok(([first] + rest)[i]) {
      if i > 0 {
        assert patterns[1..][i - 1] == patterns[i];
      }
    }
  }

  lemma AllBoundSplit(a: seq<string>, z: seq<string>, b: Bindings, fills: seq<string>)
    requires AllBoundTo(a + z, b, fills)
    ensures AllBoundTo(a, b, fills[..|a|]) && AllBoundTo(z, b, fills[|a|..])
  {
    assert forall k :: 0 <= k < |a| ==> a[k] == (a + z)[k];
    assert forall k :: 0 <= k < |z| ==> z[k] == (a + z)[|a| + k];
  }

  lemma {:induction false} AllBoundRender(patterns: seq<string>, b: Bindings, fills: seq<string>)
    requires AllBoundTo(AllNames(patterns), b, fills)
    ensures Renders(patterns, b, AllFilled(patterns, fills))
  {
    if patterns != [] {
      var tokens := Tokens(patterns[0]);
      var h := Holes(tokens);
      AllBoundSplit(Names(tokens), AllNames(patterns[1..]), b, fills);
      BoundRenders(tokens, b, fills[..h]);
      AllBoundRender(patterns[1..], b, fills[h..]);
      RendersCons(patterns, b, Filled(tokens, fills[..h]), AllFilled(patterns[1..], fills[h..]));
    }
  }

  /** Arguments can be rendered exactly when admissible texts that agree on equal names fill the patterns to them. */
  lemma RenderableIff(patterns: seq<string>, arguments: seq<string>)
    ensures Renderable(patterns, arguments) <==>
      exists fills :: FilledWith(patterns, arguments, fills, GoodValue) && Agree(AllNames(patterns), fills)
  {
    if Renderable(patterns, arguments) {
      var b :| Renders(patterns, b, arguments);
      var fills := RenderedIsFilled(patterns, b, arguments);
      assert FilledWith(patterns, arguments, fills, GoodValue) && Agree(AllNames(patterns), fills);
    }
    if fills :| FilledWith(patterns, arguments, fills, GoodValue) && Agree(AllNames(patterns), fills) {
      FilledIsRenderable(patterns, arguments, fills);
    }
  }

  lemma FilledIsRenderable(patterns: seq<string>, arguments: seq<string>, fills: seq<string>)
    requires FilledWith(patterns, arguments, fills, GoodValue) && Agree(AllNames(patterns), fills)
    ensures Renderable(patterns, arguments)
  {
    var names := AllNames(patterns);
    var b := Bind(names, fills);
    forall i | 0 <= i < |names| ensures Bound(b, names[i]) && fills[i] == b[names[i]] {
      BindBinds(names, fills, i);
    }
    AllBoundRender(patterns, b, fills);
  }

  // ----- the same description of matching

  ghost predicate Matches(patterns: seq<string>, arguments: seq<string>) {
    |arguments| == |patterns| && forall i :: 0 <= i < |patterns| ==> IsFilledIn(patterns[i], arguments[i])
  }

  /** Arguments match exactly when texts over the match alphabet, agreeing or not, fill the patterns to them. */
  lemma {:induction false} MatchesIff(patterns: seq<string>, arguments: seq<string>)
    ensures Matches(patterns, arguments) <==> exists fills :: FilledWith(patterns, arguments, fills, Filling)
  {
    if Matches(patterns, arguments) {
      var fills := MatchedIsFilled(patterns, arguments);
    }
    if fills :| FilledWith(patterns, arguments, fills, Filling) {
      FilledIsMatched(patterns, arguments, fills);
    }
  }

  lemma {:induction false} MatchedIsFilled(patterns: seq<string>, arguments: seq<string>) returns (fills: seq<string>)
    requires Matches(patterns, arguments)
    ensures FilledWith(patterns, arguments, fills, Filling)
  {
    if patterns == [] {
      fills := [];
    } else {
      var tokens := Tokens(patterns[0]);
      assert IsFilledIn(patterns[0], arguments[0]);
      var first :| Fillings(tokens, first) && arguments[0] == Filled(tokens, first);
      forall i | 0 <= i < |patterns[1..]| ensures IsFilledIn(patterns[1..][i], arguments[1..][i]) {
        assert IsFilledIn(patterns[i + 1], arguments[i + 1]);
      }
      var rest := MatchedIsFilled(patterns[1..], arguments[1..]);
      fills := first + rest;
      assert fills[..Holes(tokens)] == first && fills[Holes(tokens)..] == rest;
      assert arguments == [arguments[0]] + arguments[1..];
    }
  }

  lemma {:induction false} FilledIsMatched(patterns: seq<string>, arguments: seq<string>, fills: seq<string>)
    requires FilledWith(patterns, arguments, fills, Filling)
    ensures Matches(patterns, arguments)
  {
    if patterns != [] {
      var tokens := Tokens(patterns[0]);
      var h := Holes(tokens);
      assert Fillings(tokens, fills[..h]) && arguments[0] == Filled(tokens, fills[..h]);
      assert arguments[1..] == AllFilled(patterns[1..], fills[h..]);
      FilledIsMatched(patterns[1..], arguments[1..], fills[h..]);
      forall i | 0 <= i < |patterns| ensures IsFilledIn(patterns[i], arguments[i]) {
        if i > 0 {
          assert patterns[1..][i - 1] == patterns[i] && arguments[1..][i - 1] == arguments[i];
        }
      }
    }
  }

  predicate QuoteFree(s: string) { '\'' !in s && '"' !in s }

  predicate Quotable(s: string) { Filling(s) && QuoteFree(s) }

  /** What a binding may hold is what a placeholder may match, except for quotes. */
  lemma GoodValueIff(v: string)
    ensures GoodValue(v) <==> Quotable(v)
  {
  }

  /** Without repeated names, only quotes keep a matched list from being rendered. */
  lemma RenderableWithoutRepeats(patterns: seq<string>, arguments: seq<string>)
    requires forall i, j :: 0 <= i < j < |AllNames(patterns)| ==> AllNames(patterns)[i] != AllNames(patterns)[j]
    ensures Renderable(patterns, arguments) <==> exists fills :: FilledWith(patterns, arguments, fills, Quotable)
  {
    RenderableIff(patterns, arguments);
    if fills :| FilledWith(patterns, arguments, fills, GoodValue) && Agree(AllNames(patterns), fills) {
      forall i | 0 <= i < |fills| ensures Quotable(fills[i]) {
        GoodValueIff(fills[i]);
      }
      assert FilledWith(patterns, arguments, fills, Quotable);
    }
    if fills :| FilledWith(patterns, arguments, fills, Quotable) {
      forall i | 0 <= i < |fills| ensures GoodValue(fills[i]) {
        GoodValueIff(fills[i]);
      }
      assert FilledWith(patterns, arguments, fills, GoodValue) && Agree(AllNames(patterns), fills);
    }
  }

  /** A placeholder may match anything but white space and what the planning validator takes for shell syntax. */
  lemma FitsIff(c: char)
    ensures Fits(c) <==> c !in SPACES && !ShellToken(c)
  {
    IsSpaceIff(c);
  }

  /** Nothing that fills a placeholder, in matching or in rendering, has white space in it. */
  lemma FillingHasNoSpace(s: string)
    requires Filling(s) || GoodValue(s)
    ensures s != "" && forall c :: c in s ==> c !in SPACES && c != ' ' && c != '\t' && c != '\n' && c != '\r'
  {
    forall c | c in s ensures c !in SPACES {
      IsSpaceIff(c);
    }
  }

  /** A placeholder is a lower-case letter and further letters, digits and underscores, in braces. */
  lemma HoleIsRead(name: string, rest: string)
    requires name != "" && 'a' <= name[0] <= 'z'
    requires forall i :: 0 <= i < |name| ==> 'a' <= name[i] <= 'z' || '0' <= name[i] <= '9' || name[i] == '_'
    ensures Tokens("{" + name + "}" + rest) == [Hole(name)] + Tokens(rest)
  {
    var p := "{" + name + "}" + rest;
    NameRun(name, "}" + rest);
    assert p[1..] == name + ("}" + rest);
    assert p[1..1 + |name|] == name && p[|name| + 2..] == rest;
  }

  lemma {:induction false} NameRun(name: string, rest: string)
    requires forall i :: 0 <= i < |name| ==> IsNameChar(name[i])
    requires rest != [] ==> !IsNameChar(rest[0])
    ensures NameLength(name + rest) == |name|
  {
    if name == [] {
      assert name + rest == rest;
    } else {
      assert (name + rest)[1..] == name[1..] + rest;
      NameRun(name[1..], rest);
    }
  }

  // ----- where the matcher accepts more than the renderer can produce

  lemma OneHole()
    ensures Tokens("{a}") == [Hole("a")]
  {
    var p := "{a}";
    assert p[1..][1..] == "}" && NameLength("}") == 0 && NameLength(p[1..]) == 1;
    assert p[1..2] == "a" && p[3..] == [];
  }

  lemma OneHoleFilled(v: string)
    requires Filling(v)
    ensures IsFilledIn("{a}", v)
  {
    OneHole();
    assert Fillings([Hole("a")], [v]);
    assert Filled([Hole("a")], [v]) == v + "" == v;
  }

  lemma OneHoleRendered(b: Bindings, v: string)
    ensures RenderTokens(Tokens("{a}"), b) == Ok(v) ==> Bound(b, "a") && b["a"] == v
  {
    OneHole();
    var tokens := [Hole("a")];
    assert tokens[1..] == [] && RenderTokens(tokens[1..], b) == Ok("");
    if Bound(b, "a") {
      assert b["a"] + "" == b["a"];
      assert RenderTokens(tokens, b) == Ok(b["a"]);
    }
  }

  /**
   Two occurrences of one placeholder match different texts, and one matches a quote; neither list
   can be rendered.
   */
  lemma MatcherIsLaxer()
    ensures Matches(["{a}", "{a}"], ["x", "y"]) && !Renderable(["{a}", "{a}"], ["x", "y"])
    ensures Matches(["{a}"], ["'"]) && !Renderable(["{a}"], ["'"])
  {
    OneHoleFilled("x");
    OneHoleFilled("y");
    OneHoleFilled("'");
    var patterns, arguments := ["{a}", "{a}"], ["x", "y"];
    forall b ensures !Renders(patterns, b, arguments) {
      OneHoleRendered(b, "x");
      OneHoleRendered(b, "y");
      assert patterns[0] == patterns[1] && arguments[0] == "x" &&
        arguments[1] == "y" && arguments[0][0] != arguments[1][0];
    }
    forall b ensures !Renders(["{a}"], b, ["'"]) {
      OneHoleRendered(b, "'");
      assert "'"[0] == '\'' && Refused('\'') && "'"[0] in "'";
      assert !GoodValue("'");
      assert ["{a}"][0] == "{a}" && ["'"][0] == "'";
    }
  }
}
