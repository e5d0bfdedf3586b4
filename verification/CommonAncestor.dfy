/** Two upward searches over paths (scripts/load-channel-config-surface.ts): the package root
    of a module and the common ancestor of a set of paths. */
module CommonAncestor {
  import opened JsText
  import opened PosixPaths

  // ---------- the package root ----------

  /** A directory that directly holds package.json. */
  predicate IsPackage(dir: Path, present: set<Path>) { dir + ["package.json"] in present }

  /** The nearest directory above the module that holds package.json. */
  method ResolvePackageRoot(modulePath: Path, present: set<Path>) returns (r: Option<Path>)
    ensures r.Some? ==>
              && r.value <= Dirname(modulePath) && IsPackage(r.value, present)
              && forall d: Path :: d <= Dirname(modulePath) && IsPackage(d, present) ==> d <= r.value
    ensures r.None? ==> forall d: Path :: d <= Dirname(modulePath) ==> !IsPackage(d, present)
  {
    var cursor := Dirname(modulePath);
    while true
      invariant cursor <= Dirname(modulePath)
      invariant forall d: Path :: d <= Dirname(modulePath) && IsPackage(d, present) ==> d <= cursor
      decreases |cursor|
    {
      if IsPackage(cursor, present) {
        return Some(cursor);
      }
      var parent := Dirname(cursor);
      if parent == cursor {
        return None;
      }
      forall d: Path | d <= Dirname(modulePath) && IsPackage(d, present) ensures d <= parent {
        assert d != cursor;
      }
      cursor := parent;
    }
    return None;
  }

  // ---------- the common ancestor ----------

  /** The inner loop: climb until the candidate no longer lies above or beside. */
  function Climb(ancestor: Path, candidate: Path): Path
    decreases |ancestor|
  {
    if StartsAbove(Relative(ancestor, candidate)) && ancestor != [] then Climb(Dirname(ancestor), candidate)
    else ancestor
  }

  /** Where climbing from `first` to meet one candidate can end. */
  function Cut(first: Path, b: Path): (n: nat)
    ensures n <= |first|
  {
    var c := CommonLength(first, b);
    if c == |b| && c < |first| then c + 1 else c
  }

  function Depth(first: Path, rest: seq<Path>): (n: nat)
    ensures n <= |first|
  {
    if rest == [] then |first|
    else
      var n := Depth(first, rest[..|rest| - 1]);
      if Cut(first, rest[|rest| - 1]) < n then Cut(first, rest[|rest| - 1]) else n
  }

  /** The loop's guard, in terms of lengths. */
  lemma {:induction false} GuardByLengths(a: Path, b: Path)
    requires Resolved(b)
    ensures StartsAbove(Relative(a, b)) <==>
              CommonLength(a, b) < |a| && (CommonLength(a, b) < |b| || CommonLength(a, b) + 1 < |a|)
  {
    var c := CommonLength(a, b);
    UpsLength(|a| - c);
    if c == |a| {
      assert Relative(a, b) == b[c..] by { assert [] + b[c..] == b[c..]; }
      assert c < |b| ==> Plain(b[c]);
    } else {
      assert Relative(a, b)[0] == "..";
    }
  }

  lemma {:induction false} CommonOfPrefix(first: Path, n: nat, b: Path)
    requires n <= |first|
    ensures CommonLength(first[..n], b) == if CommonLength(first, b) < n then CommonLength(first, b) else n
  {
    if n > 0 && b != [] && first[0] == b[0] {
      CommonOfPrefix(first[1..], n - 1, b[1..]);
      assert first[..n][1..] == first[1..][..n - 1];
    }
  }

  /** One inner loop, started at a prefix of `first`, ends at a prefix of known length. */
  lemma {:induction false} ClimbEnds(first: Path, n: nat, b: Path)
    requires n <= |first| && Resolved(b)
    ensures Climb(first[..n], b) == first[..if Cut(first, b) < n then Cut(first, b) else n]
    decreases n
  {
    hide Relative, StartsAbove, CommonLength;
    var a := first[..n];
    GuardByLengths(a, b);
    CommonOfPrefix(first, n, b);
    if StartsAbove(Relative(a, b)) && a != [] {
      assert Dirname(a) == first[..n - 1];
      ClimbEnds(first, n - 1, b);
    }
  }

  /** At the root the guard never holds, so the loop's early return is never taken. */
  lemma {:induction false} GuardAtRoot(b: Path)
    requires Resolved(b)
    ensures !StartsAbove(Relative([], b))
  {}

  method ResolveCommonAncestor(paths: seq<Path>) returns (r: Option<Path>)
    requires forall p :: p in paths ==> Resolved(p)
    ensures r == if paths == [] then None else Some(paths[0][..Depth(paths[0], paths[1..])])
  {
    if paths == [] {
      return None;
    }
    hide Relative, StartsAbove, CommonLength, Resolved;
    var first, rest := paths[0], paths[1..];
    var ancestor := first;
    assert first[..|first|] == first;
    for i := 0 to |rest|
      invariant ancestor == first[..Depth(first, rest[..i])]
    {
      var candidate := rest[i];
      assert candidate in paths;
      ghost var n := Depth(first, rest[..i]);
      ClimbEnds(first, n, candidate);
      while StartsAbove(Relative(ancestor, candidate))
        invariant Climb(ancestor, candidate) == Climb(first[..n], candidate)
        decreases |ancestor|
      {
        assert ancestor != [] by { GuardAtRoot(candidate); }
        var parent := Dirname(ancestor);
        assert parent != ancestor;
        ancestor := parent;
      }
      assert rest[..i + 1][..i] == rest[..i];
    }
    assert rest[..|rest|] == rest;
    return Some(ancestor);
  }

  // ---------- what it finds ----------

  ghost predicate CommonAncestorOf(d: Path, first: Path, rest: seq<Path>) {
    d <= first && forall b :: b in rest ==> d <= b
  }

  /** Some path lies strictly above `first` while every other one shares more of `first`. */
  ghost predicate TopIsListed(first: Path, rest: seq<Path>) {
    exists b :: b in rest && b < first && forall x :: x in rest ==> x == b || first[..|b| + 1] <= x
  }

  lemma {:induction false} DepthIsLeast(first: Path, rest: seq<Path>)
    ensures forall b :: b in rest ==> Depth(first, rest) <= Cut(first, b)
    ensures Depth(first, rest) == |first| || exists b :: b in rest && Depth(first, rest) == Cut(first, b)
  {
    if rest != [] {
      hide Cut;
      var n := |rest| - 1;
      DepthIsLeast(first, rest[..n]);
      assert rest == rest[..n] + [rest[n]];
      assert rest[n] in rest && forall b :: b in rest[..n] ==> b in rest;
    }
  }

  lemma {:induction false} CutFacts(first: Path, b: Path)
    ensures first[..CommonLength(first, b)] <= b
    ensures Cut(first, b) >= CommonLength(first, b)
    ensures Cut(first, b) > CommonLength(first, b) <==> b < first
    ensures b < first ==> Cut(first, b) == |b| + 1 && CommonLength(first, b) == |b|
    ensures forall n: nat :: n <= |first| ==> (first[..n] <= b <==> n <= CommonLength(first, b))
  {
    var c := CommonLength(first, b);
    CommonIsLongest(first, b);
    if b < first {
      assert first[..|b|] == b;
    }
    if c == |b| && c < |first| {
      assert b == first[..c];
    }
    forall n: nat | n <= |first| && n <= c ensures first[..n] <= b {
      assert first[..n] == first[..c][..n];
    }
  }

  lemma {:induction false} TopIsMissed(first: Path, rest: seq<Path>, b: Path)
    requires b in rest && b < first && forall x :: x in rest ==> x == b || first[..|b| + 1] <= x
    ensures Depth(first, rest) == |b| + 1 && !(first[..Depth(first, rest)] <= b)
  {
    hide Cut, CommonLength, Depth;
    DepthIsLeast(first, rest);
    CutFacts(first, b);
    forall x | x in rest ensures Cut(first, x) >= |b| + 1 {
      CutFacts(first, x);
    }
  }

  lemma {:induction false} TopWasListed(first: Path, rest: seq<Path>, b: Path)
    requires b in rest
    ensures Depth(first, rest) > CommonLength(first, b) ==> TopIsListed(first, rest)
  {
    hide Cut, CommonLength, Depth;
    DepthIsLeast(first, rest);
    CutFacts(first, b);
    if Depth(first, rest) > CommonLength(first, b) {
      forall x | x in rest ensures x == b || first[..|b| + 1] <= x {
        CutFacts(first, x);
        assert first[..|b|] == b;
      }
    }
  }

  /** The result is the deepest common ancestor unless the topmost path is itself listed below
      which the first one lies; then it is one level too deep, and no common ancestor. */
  lemma {:induction false} AncestorIsDeepestExactly(first: Path, rest: seq<Path>)
    ensures var r := first[..Depth(first, rest)];
            && (CommonAncestorOf(r, first, rest) <==> !TopIsListed(first, rest))
            && (forall d :: CommonAncestorOf(d, first, rest) ==> d <= r)
  {
    hide Cut, CommonLength, Depth;
    var n := Depth(first, rest);
    var r := first[..n];
    DepthIsLeast(first, rest);
    forall b | b in rest
      ensures (b < first ==> Cut(first, b) == |b| + 1) && (r <= b <==> n <= CommonLength(first, b))
    {
      CutFacts(first, b);
    }
    if TopIsListed(first, rest) {
      var b :| b in rest && b < first && forall x :: x in rest ==> x == b || first[..|b| + 1] <= x;
      TopIsMissed(first, rest, b);
    } else {
      forall b | b in rest ensures r <= b {
        CutFacts(first, b);
        TopWasListed(first, rest, b);
      }
    }
    forall d | CommonAncestorOf(d, first, rest) ensures d <= r {
      assert first[..|d|] == d;
      forall b | b in rest ensures |d| <= Cut(first, b) { CutFacts(first, b); }
    }
  }
}
