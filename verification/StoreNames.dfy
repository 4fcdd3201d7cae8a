/**
 Names in the artifact store: the metadata sidecar of a payload, the numbered
 variants of a taken name, and the search for a free one.
 */
module StoreNames {
  import Decimals
  import opened Orders

  type Bytes = seq<bv8>

  /** A path below the run root: directory parts and a final name. */
  datatype Path = Path(parent: seq<string>, name: string)

  type Files = map<Path, Bytes>

  function Parts(p: Path): seq<string> { p.parent + [p.name] }

  predicate Leq(a: Path, b: Path) { PathLeq(Parts(a), Parts(b)) }

  lemma PathsAreOrdered()
    ensures TotalOrder(Leq)
  {
    PathOrder();
    forall a, b | Parts(a) == Parts(b) ensures a == b {
      assert a.parent == Parts(a)[..|a.parent|] && b.parent == Parts(b)[..|b.parent|];
    }
  }

  const META := ".meta.json"

  function Sidecar(p: Path): Path { Path(p.parent, p.name + META) }

  predicate EndsMeta(p: Path) {
    |p.name| >= |META| && p.name[|p.name| - |META|..] == META
  }

  function Base(p: Path): Path
    requires EndsMeta(p)
  {
    Path(p.parent, p.name[..|p.name| - |META|])
  }

  /** Both the payload name and its sidecar name are unused. */
  predicate Free(fs: Files, p: Path) { p !in fs && Sidecar(p) !in fs }

  lemma SidecarBase(p: Path)
    ensures EndsMeta(Sidecar(p)) && Base(Sidecar(p)) == p && Sidecar(p) != p
    ensures EndsMeta(p) ==> Sidecar(Base(p)) == p
  {
    assert Sidecar(p).name[|p.name|..] == META;
    assert Sidecar(p).name[..|p.name|] == p.name;
    if EndsMeta(p) {
      assert p.name == p.name[..|p.name| - |META|] + p.name[|p.name| - |META|..];
    }
  }

  // ----- numbered variants

  /** Index of the last '.', or -1. */
  function LastDot(s: string): (i: int)
    ensures -1 <= i < |s|
    ensures i >= 0 ==> s[i] == '.'
    ensures forall j :: i < j < |s| ==> s[j] != '.'
  {
    if s == [] then -1
    else if s[|s| - 1] == '.' then |s| - 1
    else LastDot(s[..|s| - 1])
  }

  function Suffix(name: string): (s: string)
    ensures |s| <= |name| && name[|name| - |s|..] == s
    ensures s != "" ==> |s| > 1 && s[0] == '.'
    ensures forall i :: 0 < i < |s| ==> s[i] != '.'
  {
    var i := LastDot(name);
    if 0 < i < |name| - 1 then name[i..] else ""
  }

  function Stem(name: string): string { name[..|name| - |Suffix(name)|] }

  function Versioned(p: Path, v: nat): Path {
    Path(p.parent, Stem(p.name) + "__v" + Decimals.Print(v) + Suffix(p.name))
  }

  /** The number goes before the last extension. */
  lemma VersionedName(parent: seq<string>, base: string, extension: string, v: nat)
    requires base != "" && extension != "" && '.' !in extension
    ensures Versioned(Path(parent, base + "." + extension), v) ==
      Path(parent, base + "__v" + Decimals.Print(v) + "." + extension)
  {
    var name := base + "." + extension;
    assert LastDot(name) == |base| by {
      assert forall j :: |base| < j < |name| ==> name[j] in extension;
      assert name[|base|] == '.';
    }
    assert Suffix(name) == "." + extension && Stem(name) == base;
    assert base + "__v" + Decimals.Print(v) + ("." + extension) == base + "__v" + Decimals.Print(v) + "." + extension;
  }

  /** A name without an extension gets it at the end. */
  lemma VersionedBare(parent: seq<string>, name: string, v: nat)
    requires (forall i :: 0 < i < |name| ==> name[i] != '.') || name[|name| - 1] == '.'
    ensures Versioned(Path(parent, name), v) == Path(parent, name + "__v" + Decimals.Print(v))
  {
    var i := LastDot(name);
    assert Suffix(name) == "" && Stem(name) == name;
  }

  /** A sidecar's name. */
  lemma SidecarName(p: Path)
    ensures Sidecar(p).name == p.name + ".meta.json" && Sidecar(p).parent == p.parent
  {
  }

  predicate Blocks(f: Path, p: Path, v: nat) {
    f == Versioned(p, v) || f == Sidecar(Versioned(p, v))
  }

  /** The name of a blocker, after the common stem. */
  lemma BlockerName(f: Path, p: Path, v: nat) returns (rest: string)
    requires Blocks(f, p, v)
    ensures rest != "" ==> !Decimals.IsDigit(rest[0])
    ensures |f.name| >= |Stem(p.name)| + 3 && f.name[|Stem(p.name)| + 3..] == Decimals.Print(v) + rest
  {
    var s := Suffix(p.name);
    rest := if f == Versioned(p, v) then s else s + META;
    var head := Stem(p.name) + "__v";
    assert f.name == head + (Decimals.Print(v) + rest) by {
      if f != Versioned(p, v) {
        assert f.name == (head + Decimals.Print(v) + s) + META;
      }
    }
  }

  /** One file stands in the way of at most one version. */
  lemma BlocksOne(f: Path, p: Path, v: nat, w: nat)
    requires Blocks(f, p, v) && Blocks(f, p, w)
    ensures v == w
  {
    var a := BlockerName(f, p, v);
    var b := BlockerName(f, p, w);
    Decimals.DigitRunOf(Decimals.Print(v), a);
    Decimals.DigitRunOf(Decimals.Print(w), b);
    Decimals.PrintInjective(v, w);
  }

  /** The name the search hands out: the candidate if free, otherwise its least free version. */
  ghost predicate IsAvailable(fs: Files, candidate: Path, p: Path) {
    && Free(fs, p)
    && (Free(fs, candidate) ==> p == candidate)
    && (!Free(fs, candidate) ==>
          exists v: nat :: v <= |fs| + 2 && p == Versioned(candidate, v) && TakenBelow(fs, candidate, v))
  }

  ghost predicate TakenBelow(fs: Files, candidate: Path, version: nat) {
    version >= 2 && forall w: nat :: 2 <= w < version ==> !Free(fs, Versioned(candidate, w))
  }

  /** The search determines the name. */
  lemma AvailableUnique(fs: Files, candidate: Path, p: Path, q: Path)
    requires IsAvailable(fs, candidate, p) && IsAvailable(fs, candidate, q)
    ensures p == q
  {
    if !Free(fs, candidate) {
      var v: nat :| v <= |fs| + 2 && p == Versioned(candidate, v) && TakenBelow(fs, candidate, v);
      var u: nat :| u <= |fs| + 2 && q == Versioned(candidate, u) && TakenBelow(fs, candidate, u);
      assert v == u;
    }
  }

  lemma EndChars(s: string, end: string)
    requires |s| >= |end| == 10 && s[|s| - |end|..] == end
    requires end[4] == 'a' && end[5] == '.' && end[9] == 'n' && forall j :: 5 < j < 10 ==> end[j] != '.'
    ensures var n := |s|; s[n - 1] == 'n' && s[n - 5] == '.' && s[n - 6] == 'a'
    ensures var n := |s|; forall i :: n - 5 < i < n ==> s[i] != '.'
  {
    var k := |s| - 10;
    assert forall j :: 0 <= j < 10 ==> s[k + j] == s[k..][j] == end[j];
    assert s[k + 4] == 'a' && s[k + 5] == '.' && s[k + 9] == 'n';
    forall i | |s| - 5 < i < |s| ensures s[i] != '.' {
      assert s[i] == s[k + (i - k)];
    }
  }

  lemma MetaChars(p: Path)
    requires EndsMeta(p)
    ensures var n := |p.name|; p.name[n - 1] == 'n' && p.name[n - 5] == '.' && p.name[n - 6] == 'a'
    ensures var n := |p.name|; forall i :: n - 5 < i < n ==> p.name[i] != '.'
  {
    EndChars(p.name, META);
  }

  /** A numbered name never looks like a sidecar: what precedes its suffix is a digit. */
  lemma VersionedIsPlain(p: Path, v: nat)
    ensures !EndsMeta(Versioned(p, v))
  {
    var name, digits, s := Versioned(p, v).name, Decimals.Print(v), Suffix(p.name);
    var last := |name| - |s| - 1;
    assert name[last] == digits[|digits| - 1];
    assert Decimals.IsDigit(digits[|digits| - 1]);
    assert name[last + 1..] == s;
    assert forall i :: 0 <= i < |s| ==> name[last + 1 + i] == s[i];
    if EndsMeta(Versioned(p, v)) {
      MetaChars(Versioned(p, v));
    }
  }

  /** One file per version tried so far. */
  ghost predicate Blockers(fs: Files, candidate: Path, version: nat, blockers: set<Path>) {
    && version >= 2 && |blockers| == version - 2 && blockers <= fs.Keys
    && forall f :: f in blockers ==> exists w: nat :: w < version && Blocks(f, candidate, w)
  }

  lemma AnotherBlocker(fs: Files, candidate: Path, version: nat, blockers: set<Path>) returns (f: Path)
    requires Blockers(fs, candidate, version, blockers) && !Free(fs, Versioned(candidate, version))
    ensures Blockers(fs, candidate, version + 1, blockers + {f}) && version <= |fs| + 1
  {
    var t := Versioned(candidate, version);
    f := if t in fs then t else Sidecar(t);
    assert Blocks(f, candidate, version);
    if f in blockers {
      var w: nat :| w < version && Blocks(f, candidate, w);
      BlocksOne(f, candidate, version, w);
    }
    forall g | g in blockers + {f} ensures exists w: nat :: w < version + 1 && Blocks(g, candidate, w) {
      if g in blockers {
        var w: nat :| w < version && Blocks(g, candidate, w);
      }
    }
    SubsetSize(blockers + {f}, fs.Keys);
    assert |fs.Keys| == |fs|;
  }

  method ResolveAvailable(fs: Files, candidate: Path) returns (p: Path)
    ensures IsAvailable(fs, candidate, p)
  {
    if Free(fs, candidate) {
      return candidate;
    }
    var version: nat := 2;
    ghost var blockers: set<Path> := {};
    while !Free(fs, Versioned(candidate, version))
      invariant version <= |fs| + 2 && TakenBelow(fs, candidate, version)
      invariant Blockers(fs, candidate, version, blockers)
      decreases |fs| + 2 - version
    {
      ghost var f := AnotherBlocker(fs, candidate, version, blockers);
      blockers := blockers + {f};
      version := version + 1;
    }
    p := Versioned(candidate, version);
  }

  lemma {:induction false} SubsetSize<T>(a: set<T>, b: set<T>)
    requires a <= b
    ensures |a| <= |b|
  {
    if a != {} {
      var x :| x in a;
      SubsetSize(a - {x}, b - {x});
    }
  }
}
