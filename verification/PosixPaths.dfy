/** Absolute POSIX paths as their segments, and the parts of node:path that the import-graph
    copier relies on (scripts/load-channel-config-surface.ts). */
module PosixPaths {

  type Path = seq<string>

  /** A segment as it occurs in a resolved path. */
  predicate Plain(s: string) { s != "" && s != "." && s != ".." }

  ghost predicate Resolved(p: Path) {
    forall i :: 0 <= i < |p| ==> Plain(p[i])
  }

  function Dirname(p: Path): Path { if p == [] then [] else p[..|p| - 1] }

  function Step(cursor: Path, s: string): Path {
    if s == "" || s == "." then cursor else if s == ".." then Dirname(cursor) else cursor + [s]
  }

  /** path.resolve and path.join of an absolute path with the segments of a relative one. */
  function Resolve(cursor: Path, segments: seq<string>): Path
    decreases |segments|
  {
    if segments == [] then cursor else Resolve(Step(cursor, segments[0]), segments[1..])
  }

  function CommonLength(a: Path, b: Path): (n: nat)
    ensures n <= |a| && n <= |b|
  {
    if a == [] || b == [] || a[0] != b[0] then 0 else 1 + CommonLength(a[1..], b[1..])
  }

  lemma {:induction false} CommonIsLongest(a: Path, b: Path)
    ensures a[..CommonLength(a, b)] == b[..CommonLength(a, b)]
    ensures forall n: nat :: n <= |a| && a[..n] <= b ==> n <= CommonLength(a, b)
  {
    if a != [] && b != [] && a[0] == b[0] {
      CommonIsLongest(a[1..], b[1..]);
      var c := CommonLength(a[1..], b[1..]);
      assert a[..c + 1] == [a[0]] + a[1..][..c] && b[..c + 1] == [b[0]] + b[1..][..c];
      forall n: nat | 0 < n <= |a| && a[..n] <= b ensures n <= c + 1 {
        assert a[1..][..n - 1] == a[..n][1..];
        assert b[1..][..n - 1] == b[..n][1..];
      }
    } else {
      assert forall n: nat :: 0 < n <= |a| && a[..n] <= b ==> a[..n][0] == b[0];
    }
  }

  function Ups(n: nat): seq<string> { if n == 0 then [] else [".."] + Ups(n - 1) }

  /** path.relative: climb to the common ancestor, then descend. */
  function Relative(a: Path, b: Path): seq<string> {
    var c := CommonLength(a, b);
    Ups(|a| - c) + b[c..]
  }

  /** The relative path, written out, starts with "../". */
  predicate StartsAbove(relative: seq<string>) { |relative| >= 2 && relative[0] == ".." }

  lemma {:induction false} UpsLength(n: nat)
    ensures |Ups(n)| == n && (n > 0 ==> Ups(n)[0] == "..")
  {
    if n > 0 { UpsLength(n - 1); }
  }

  lemma {:induction false} PrefixFacts(r: Path, p: Path)
    requires r <= p
    ensures CommonLength(r, p) == |r| && Relative(r, p) == p[|r|..]
  {
    CommonIsLongest(r, p);
    assert r[..|r|] == r;
    UpsLength(0);
    assert [] + p[|r|..] == p[|r|..];
  }

  lemma {:induction false} ResolvePlain(cursor: Path, segments: seq<string>)
    requires forall i :: 0 <= i < |segments| ==> Plain(segments[i])
    ensures Resolve(cursor, segments) == cursor + segments
    decreases |segments|
  {
    if segments != [] {
      assert forall i :: 0 <= i < |segments| - 1 ==> segments[1..][i] == segments[i + 1];
      ResolvePlain(cursor + [segments[0]], segments[1..]);
      assert cursor + [segments[0]] + segments[1..] == cursor + segments;
    } else {
      assert cursor + segments == cursor;
    }
  }

  lemma {:induction false} ResolveAppend(cursor: Path, a: seq<string>, b: seq<string>)
    ensures Resolve(cursor, a + b) == Resolve(Resolve(cursor, a), b)
    decreases |a|
  {
    if a == [] {
      assert a + b == b;
    } else {
      ResolveAppend(Step(cursor, a[0]), a[1..], b);
      assert (a + b)[1..] == a[1..] + b;
    }
  }

  /** Segments "." and "" change nothing, ".." takes one back, any other one is appended. */
  lemma {:induction false} ResolveOneMore(cursor: Path, segments: seq<string>, s: string)
    ensures var p := Resolve(cursor, segments);
            Resolve(cursor, segments + [s]) ==
              if s == "" || s == "." then p else if s != ".." then p + [s]
              else if p == [] then [] else p[..|p| - 1]
  {
    ResolveAppend(cursor, segments, [s]);
    assert [s][1..] == [];
    assert Resolve(Step(Resolve(cursor, segments), s), []) == Step(Resolve(cursor, segments), s);
  }

  lemma {:induction false} ResolveUps(p: Path, n: nat)
    requires n <= |p|
    ensures Resolve(p, Ups(n)) == p[..|p| - n]
  {
    if n > 0 {
      ResolveUps(Dirname(p), n - 1);
      assert Dirname(p)[..|p| - n] == p[..|p| - n];
      assert Ups(n)[1..] == Ups(n - 1);
    } else {
      assert p[..|p|] == p;
    }
  }

  /** path.relative and path.resolve are inverse. */
  lemma {:induction false} RelativeLeadsBack(a: Path, b: Path)
    requires Resolved(b)
    ensures Resolve(a, Relative(a, b)) == b
  {
    hide Resolve, CommonLength, Ups;
    var c := CommonLength(a, b);
    CommonIsLongest(a, b);
    ResolveAppend(a, Ups(|a| - c), b[c..]);
    ResolveUps(a, |a| - c);
    assert forall i :: 0 <= i < |b| - c ==> b[c..][i] == b[i + c];
    ResolvePlain(a[..c], b[c..]);
    assert b[..c] + b[c..] == b;
  }
}
