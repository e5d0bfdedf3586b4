/** The isolated copy of an import graph (scripts/load-channel-config-surface.ts): files move
    below a fresh root and relative imports keep their meaning. */
module ModuleCopy {
  import opened JsText
  import opened PosixPaths
  import opened CommonAncestor
  import opened ImportGraph

  /** Where the copier puts a file: its path relative to the common root, below the new one. */
  function Target(root: Path, iso: Path, p: Path): Path { Resolve(iso, Relative(root, p)) }

  /** The disk after copying the files in order. */
  function CopyAll(tree: Tree, files: seq<Path>, root: Path, iso: Path): Tree
    requires forall f :: f in files ==> f in tree
    ensures forall p :: p in tree ==> p in CopyAll(tree, files, root, iso)
  {
    if files == [] then tree
    else
      var n := |files| - 1;
      var before := CopyAll(tree, files[..n], root, iso);
      before[Target(root, iso, files[n]) := before[files[n]]]
  }

  datatype Copy = Copy(copiedModulePath: Path, tree: Tree, files: seq<Path>, root: Path)

  lemma {:induction false} ChainIsFiles(tree: Tree, ps: seq<Path>)
    requires Chain(tree, ps)
    ensures forall p :: p in ps ==> p in tree
  {
    forall i | 0 <= i < |ps| ensures ps[i] in tree {
      if i > 0 && ps[i - 1] in tree {
        TargetsAreFiles(tree, ps[i - 1], tree[ps[i - 1]]);
      }
    }
  }

  lemma {:induction false} GraphIsFiles(tree: Tree, entry: Path, files: seq<Path>)
    requires IsGraph(tree, entry, files)
    ensures forall f :: f in files ==> f in tree
  {
    hide Imports;
    forall f | f in files ensures f in tree {
      var ps :| Chain(tree, ps) && ps[0] == entry && ps[|ps| - 1] == f;
      ChainIsFiles(tree, ps);
    }
  }

  lemma {:induction false} PackageRootIsResolved(tree: Tree, d: Path)
    requires GoodTree(tree) && IsPackage(d, tree.Keys)
    ensures Resolved(d)
  {
    var p := d + ["package.json"];
    assert forall i :: 0 <= i < |d| ==> d[i] == p[i];
  }

  method CopyModuleImportGraph(tree: Tree, modulePath: Path, iso: Path) returns (r: Option<Copy>)
    requires GoodTree(tree)
    ensures r.None? <==>
              modulePath !in tree || forall d: Path :: d <= Dirname(modulePath) ==> !IsPackage(d, tree.Keys)
    ensures r.Some? ==>
              && modulePath in tree && IsGraph(tree, modulePath, r.value.files)
              && (forall f :: f in r.value.files ==> f in tree)
              && (exists packageRoot: Path ::
                    && packageRoot <= Dirname(modulePath) && IsPackage(packageRoot, tree.Keys)
                    && r.value.root == packageRoot[..Depth(packageRoot, r.value.files)])
              && r.value.tree == CopyAll(tree, r.value.files, r.value.root, iso)
              && r.value.copiedModulePath == Target(r.value.root, iso, modulePath)
  {
    hide Depth, Reaches, IsGraph, Relative, Resolve;
    var packageRoot := ResolvePackageRoot(modulePath, tree.Keys);
    if packageRoot.None? {
      return None;
    }
    var relativeFiles := CollectRelativeImportGraph(tree, modulePath);
    if relativeFiles.None? {
      return None;
    }
    var files := relativeFiles.value;
    GraphIsFiles(tree, modulePath, files);
    PackageRootIsResolved(tree, packageRoot.value);
    var copyRoot := ResolveCommonAncestor([packageRoot.value] + files);
    assert ([packageRoot.value] + files)[1..] == files;
    var root := copyRoot.value;
    var relativeModulePath := Relative(root, modulePath);
    var out := tree;
    for i := 0 to |files|
      invariant out == CopyAll(tree, files[..i], root, iso)
    {
      assert files[..i + 1][..i] == files[..i];
      assert files[i] in files;
      var targetPath := Resolve(iso, Relative(root, files[i]));
      out := out[targetPath := out[files[i]]];
    }
    assert files[..|files|] == files;
    return Some(Copy(Resolve(iso, relativeModulePath), out, files, root));
  }

  // ---------- where files go ----------

  /** The same place below another root. */
  function Move(root: Path, iso: Path, p: Path): Path {
    if root <= p then iso + p[|root|..] else p
  }

  /** The root holds every file of the graph strictly below it. */
  ghost predicate RootHolds(root: Path, files: seq<Path>) {
    forall f :: f in files ==> root <= Dirname(f) && f != []
  }

  /** The ancestor of a package root and of files on a good disk lies above them all: a file
      is never on the way to the package's own package.json. */
  lemma {:induction false} CopyRootHoldsAll(tree: Tree, packageRoot: Path, files: seq<Path>)
    requires GoodTree(tree) && IsPackage(packageRoot, tree.Keys)
    requires forall f :: f in files ==> f in tree
    ensures var root := packageRoot[..Depth(packageRoot, files)];
            && RootHolds(root, files)
            && forall d :: CommonAncestorOf(d, packageRoot, files) ==> d <= root
  {
    hide Depth, CommonLength;
    var root := packageRoot[..Depth(packageRoot, files)];
    var manifest := packageRoot + ["package.json"];
    AncestorIsDeepestExactly(packageRoot, files);
    forall f | f in files ensures !(f <= packageRoot) {
      assert f <= packageRoot ==> f < manifest;
    }
    assert !TopIsListed(packageRoot, files);
    forall f | f in files ensures root <= Dirname(f) && f != [] {
      assert root <= f && root != f;
    }
  }

  lemma {:induction false} TargetIsMove(root: Path, iso: Path, p: Path)
    requires root <= p && Resolved(p)
    ensures Target(root, iso, p) == Move(root, iso, p)
  {
    hide Relative, Resolve, CommonLength;
    PrefixFacts(root, p);
    ResolvePlain(iso, p[|root|..]);
  }

  /** Copies stay below the new root and never share a path. */
  lemma {:induction false} MoveIsInjective(root: Path, iso: Path, p: Path, q: Path)
    requires root <= p && root <= q
    ensures iso <= Move(root, iso, p)
    ensures Move(root, iso, p) == Move(root, iso, q) <==> p == q
  {
    assert p == root + p[|root|..] && q == root + q[|root|..];
    assert Move(root, iso, p)[|iso|..] == p[|root|..];
    assert Move(root, iso, q)[|iso|..] == q[|root|..];
  }

  // ---------- what a specifier means after the move ----------

  /** Following the segments never leaves the root. */
  ghost predicate Within(root: Path, cursor: Path, segments: seq<string>)
    decreases |segments|
  {
    && root <= cursor
    && (segments != [] ==>
          && (segments[0] == ".." ==> |cursor| > |root|)
          && Within(root, Step(cursor, segments[0]), segments[1..]))
  }

  lemma {:induction false} StepMoves(root: Path, iso: Path, cursor: Path, s: string)
    requires root <= cursor && (s == ".." ==> |cursor| > |root|)
    ensures root <= Step(cursor, s) && Step(Move(root, iso, cursor), s) == Move(root, iso, Step(cursor, s))
  {}

  /** A specifier that stays within the root means, from the copy, the copy of what it meant. */
  lemma {:induction false} ResolveMoves(root: Path, iso: Path, cursor: Path, segments: seq<string>)
    requires Within(root, cursor, segments)
    ensures root <= Resolve(cursor, segments)
    ensures Resolve(Move(root, iso, cursor), segments) == Move(root, iso, Resolve(cursor, segments))
    decreases |segments|
  {
    if segments != [] {
      hide Move;
      StepMoves(root, iso, cursor, segments[0]);
      ResolveMoves(root, iso, Step(cursor, segments[0]), segments[1..]);
    }
  }

  lemma {:induction false} NeverEnters(iso: Path, cursor: Path, segments: seq<string>)
    requires iso != [] && Name(iso) !in segments && Plain(Name(iso)) && !(iso <= cursor)
    ensures !(iso <= Resolve(cursor, segments))
    decreases |segments|
  {
    if segments != [] {
      var s := segments[0];
      var next := Step(cursor, s);
      assert s in segments;
      assert next <= cursor || next == cursor + [s];
      assert iso <= cursor + [s] ==> iso <= cursor || iso == cursor + [s];
      assert iso == cursor + [s] ==> Name(iso) == s;
      NeverEnters(iso, next, segments[1..]);
    }
  }

  lemma {:induction false} MoveOfRoot(root: Path, iso: Path)
    ensures Move(root, iso, root) == iso
  {}

  /** One that climbs above the root finds no way into the copy, since no specifier names a
      fresh directory. */
  lemma {:induction false} LeavingStaysOutside(root: Path, iso: Path, cursor: Path, segments: seq<string>)
    requires root <= cursor && iso != [] && Plain(Name(iso)) && Name(iso) !in segments
    requires !Within(root, cursor, segments)
    ensures !(iso <= Resolve(Move(root, iso, cursor), segments))
    decreases |segments|
  {
    hide Move;
    var s := segments[0];
    if s == ".." && |cursor| == |root| {
      assert cursor == root;
      MoveOfRoot(root, iso);
      NeverEnters(iso, Dirname(iso), segments[1..]);
    } else {
      StepMoves(root, iso, cursor, s);
      LeavingStaysOutside(root, iso, Step(cursor, s), segments[1..]);
    }
  }

  /** Staying within the root is also necessary. */
  lemma {:induction false} RelocatesExactly(root: Path, iso: Path, cursor: Path, segments: seq<string>)
    requires root <= cursor && iso != [] && Plain(Name(iso)) && Name(iso) !in segments
    ensures Within(root, cursor, segments) <==>
              && root <= Resolve(cursor, segments)
              && Resolve(Move(root, iso, cursor), segments) == Move(root, iso, Resolve(cursor, segments))
  {
    if Within(root, cursor, segments) {
      ResolveMoves(root, iso, cursor, segments);
    } else {
      hide Move;
      LeavingStaysOutside(root, iso, cursor, segments);
      if root <= Resolve(cursor, segments) {
        MoveIsInjective(root, iso, Resolve(cursor, segments), root);
      }
    }
  }

  // ---------- the copied graph ----------

  /** The disk holds what it held and the moved files, and nothing else. */
  ghost predicate Copied(tree: Tree, out: Tree, files: seq<Path>, root: Path, iso: Path) {
    && (forall p :: p in out <==> p in tree || exists f :: f in files && p == Move(root, iso, f))
    && (forall f :: f in files ==> f in tree && Move(root, iso, f) in out && out[Move(root, iso, f)] == tree[f])
    && (forall p :: p in tree ==> p in out && out[p] == tree[p])
  }

  /** A directory just made: nothing is in it, and no file is a candidate for its own name. */
  ghost predicate Fresh(tree: Tree, iso: Path) {
    && iso != [] && Plain(Name(iso))
    && (forall p :: p in tree ==> !(iso <= p))
    && forall c :: c in ResolveImportCandidates(iso) ==> c !in tree
  }

  ghost predicate Below(root: Path, files: seq<Path>) { forall f :: f in files ==> root <= f }

  lemma {:induction false} CopyOneMore(tree: Tree, before: Tree, files: seq<Path>, root: Path, iso: Path, f: Path)
    requires Fresh(tree, iso) && Copied(tree, before, files, root, iso)
    requires Below(root, files) && f in tree && root <= f && f in before
    ensures Copied(tree, before[Move(root, iso, f) := before[f]], files + [f], root, iso)
  {
    hide Move, ResolveImportCandidates;
    var out := before[Move(root, iso, f) := before[f]];
    MoveIsInjective(root, iso, f, f);
    assert Move(root, iso, f) !in tree;
    forall g | g in files + [f]
      ensures g in tree && Move(root, iso, g) in out && out[Move(root, iso, g)] == tree[g]
    {
      if g in files { MoveIsInjective(root, iso, g, f); }
    }
    assert f in files + [f] && forall g :: g in files ==> g in files + [f];
  }

  lemma {:induction false} CopiedNone(tree: Tree, root: Path, iso: Path)
    ensures Copied(tree, CopyAll(tree, [], root, iso), [], root, iso)
  {}

  lemma {:induction false} TreeIsResolved(tree: Tree, f: Path)
    requires GoodTree(tree) && f in tree
    ensures Resolved(f)
  {}

  lemma {:induction false} CopyAllCopies(tree: Tree, files: seq<Path>, root: Path, iso: Path)
    requires GoodTree(tree) && Fresh(tree, iso)
    requires forall f :: f in files ==> f in tree && root <= f
    ensures Copied(tree, CopyAll(tree, files, root, iso), files, root, iso)
  {
    hide Copied, Fresh, Target, Move, GoodTree;
    if files == [] {
      CopiedNone(tree, root, iso);
    } else {
      var n := |files| - 1;
      var f := files[n];
      assert files == files[..n] + [f] && f in files;
      CopyAllCopies(tree, files[..n], root, iso);
      TreeIsResolved(tree, f);
      TargetIsMove(root, iso, f);
      CopyOneMore(tree, CopyAll(tree, files[..n], root, iso), files[..n], root, iso, f);
    }
  }

  // ---------- which file a specifier finds after the move ----------

  /** Candidates below the root, and the same ones below the new root. */
  ghost predicate AllMoved(root: Path, iso: Path, cs: seq<Path>, ds: seq<Path>) {
    |cs| == |ds| && forall i :: 0 <= i < |cs| ==> root <= cs[i] && ds[i] == Move(root, iso, cs[i])
  }

  lemma {:induction false} MovedTail(root: Path, iso: Path, cs: seq<Path>, ds: seq<Path>)
    requires AllMoved(root, iso, cs, ds) && cs != []
    ensures AllMoved(root, iso, cs[1..], ds[1..])
  {}

  lemma {:induction false} MovedJoin(root: Path, iso: Path, a: seq<Path>, b: seq<Path>, c: seq<Path>, d: seq<Path>)
    requires AllMoved(root, iso, a, b) && AllMoved(root, iso, c, d)
    ensures AllMoved(root, iso, a + c, b + d)
  {
    hide Move;
    forall i | 0 <= i < |a + c| ensures root <= (a + c)[i] && (b + d)[i] == Move(root, iso, (a + c)[i]) {
      assert (a + c)[i] == if i < |a| then a[i] else c[i - |a|];
      assert (b + d)[i] == if i < |a| then b[i] else d[i - |a|];
    }
  }

  /** A path below the root under another last name. */
  lemma {:induction false} RenameMoves(root: Path, iso: Path, base: Path, name: string)
    requires root <= base && |base| > |root|
    ensures Name(Move(root, iso, base)) == Name(base)
    ensures root <= WithName(base, name)
    ensures WithName(Move(root, iso, base), name) == Move(root, iso, WithName(base, name))
  {}

  lemma {:induction false} ExtendMoves(root: Path, iso: Path, base: Path, name: string)
    requires root <= base
    ensures root <= base + [name] && Move(root, iso, base) + [name] == Move(root, iso, base + [name])
  {}

  lemma {:induction false} SwappedMove(root: Path, iso: Path, base: Path, exts: seq<string>)
    requires root < base
    ensures AllMoved(root, iso, Swapped(base, exts), Swapped(Move(root, iso, base), exts))
  {
    if exts != [] {
      hide Move, WithName, Stem;
      SwappedMove(root, iso, base, exts[1..]);
      RenameMoves(root, iso, base, Stem(Name(base)) + exts[0]);
      MovedJoin(root, iso, [WithName(base, Stem(Name(base)) + exts[0])],
                [WithName(Move(root, iso, base), Stem(Name(base)) + exts[0])],
                Swapped(base, exts[1..]), Swapped(Move(root, iso, base), exts[1..]));
    }
  }

  lemma {:induction false} AddedMove(root: Path, iso: Path, base: Path, exts: seq<string>)
    requires root < base
    ensures AllMoved(root, iso, Added(base, exts), Added(Move(root, iso, base), exts))
  {
    if exts != [] {
      hide Move, WithName;
      AddedMove(root, iso, base, exts[1..]);
      var m := Move(root, iso, base);
      RenameMoves(root, iso, base, Name(base) + exts[0]);
      ExtendMoves(root, iso, base, "index" + exts[0]);
      MovedJoin(root, iso, [WithName(base, Name(base) + exts[0]), base + ["index" + exts[0]]],
                [WithName(m, Name(m) + exts[0]), m + ["index" + exts[0]]],
                Added(base, exts[1..]), Added(m, exts[1..]));
    }
  }

  /** Below the root the same candidates are tried, in the same order. */
  lemma {:induction false} CandidatesMove(root: Path, iso: Path, base: Path)
    requires root < base
    ensures AllMoved(root, iso, ResolveImportCandidates(base), ResolveImportCandidates(Move(root, iso, base)))
  {
    hide Move, Extension, EXTENSIONS, Swapped, Added;
    var m := Move(root, iso, base);
    RenameMoves(root, iso, base, "");
    SwappedMove(root, iso, base, EXTENSIONS);
    AddedMove(root, iso, base, EXTENSIONS);
    MovedJoin(root, iso, [base], [m], Swapped(base, EXTENSIONS), Swapped(m, EXTENSIONS));
    MovedJoin(root, iso, [base], [m], Added(base, EXTENSIONS), Added(m, EXTENSIONS));
  }

  lemma {:induction false} HoldsIsBelow(root: Path, files: seq<Path>)
    requires RootHolds(root, files)
    ensures Below(root, files)
  {}

  /** Below the new root the disk holds exactly the copies; elsewhere it is as before. */
  lemma {:induction false} CopiedAt(
      tree: Tree, out: Tree, files: seq<Path>, root: Path, iso: Path, c: Path)
    requires RootHolds(root, files) && Copied(tree, out, files, root, iso) && Fresh(tree, iso)
    ensures root <= c ==> (Move(root, iso, c) in out <==> c in files)
    ensures !(iso < c) ==> (c in out <==> c in tree)
    ensures forall f :: f in files ==> iso < Move(root, iso, f)
  {
    hide Move, ResolveImportCandidates;
    HoldsIsBelow(root, files);
    forall f | f in files ensures iso < Move(root, iso, f) {
      MoveIsInjective(root, iso, f, root);
      MoveOfRoot(root, iso);
    }
    if root <= c {
      MoveIsInjective(root, iso, c, c);
      forall f | f in files ensures Move(root, iso, f) == Move(root, iso, c) <==> f == c {
        MoveIsInjective(root, iso, f, c);
      }
    }
  }

  lemma {:induction false} CopiedAreFiles(tree: Tree, out: Tree, files: seq<Path>, root: Path, iso: Path)
    requires Copied(tree, out, files, root, iso)
    ensures forall f :: f in files ==> f in tree
  {}

  /** Where the copy of what was found is. */
  function Moved(root: Path, iso: Path, found: Option<Path>): Option<Path> {
    if found.None? then None else Some(Move(root, iso, found.value))
  }

  /** Trying the candidates in order finds the copy of what was found before the move. */
  lemma {:induction false} FirstFileMoves(
      tree: Tree, out: Tree, files: seq<Path>, root: Path, iso: Path, cs: seq<Path>, ds: seq<Path>)
    requires RootHolds(root, files) && Copied(tree, out, files, root, iso) && Fresh(tree, iso)
    requires AllMoved(root, iso, cs, ds)
    requires FirstFile(cs, tree).Some? ==> FirstFile(cs, tree).value in files
    ensures FirstFile(ds, out) == Moved(root, iso, FirstFile(cs, tree))
  {
    if cs != [] {
      hide Move, Copied, Fresh, RootHolds;
      CopiedAt(tree, out, files, root, iso, cs[0]);
      if cs[0] !in tree {
        MovedTail(root, iso, cs, ds);
        CopiedAreFiles(tree, out, files, root, iso);
        FirstFileMoves(tree, out, files, root, iso, cs[1..], ds[1..]);
      }
    }
  }

  lemma {:induction false} FoundIsListed(cs: seq<Path>, tree: Tree)
    ensures FirstFile(cs, tree).Some? ==> FirstFile(cs, tree).value in cs
    ensures FirstFile(cs, tree).None? <==> forall c :: c in cs ==> c !in tree
  {
    if cs != [] {
      FoundIsListed(cs[1..], tree);
      assert cs == [cs[0]] + cs[1..];
    }
  }

  lemma {:induction false} SameFilesSameFind(cs: seq<Path>, tree: Tree, out: Tree)
    requires forall c :: c in cs ==> (c in tree <==> c in out)
    ensures FirstFile(cs, tree) == FirstFile(cs, out)
  {
    if cs != [] { SameFilesSameFind(cs[1..], tree, out); }
  }

  lemma {:induction false} SwappedAreSiblings(base: Path, exts: seq<string>)
    ensures forall c :: c in Swapped(base, exts) ==> |c| == |Dirname(base)| + 1 && Dirname(c) == Dirname(base)
  {
    if exts != [] { SwappedAreSiblings(base, exts[1..]); }
  }

  /** A name in place of the last segment, or below it. */
  ghost predicate Near(base: Path, exts: seq<string>, c: Path) {
    || (c != [] && Dirname(c) == Dirname(base) && (base < c ==> base == [] && c[0] in exts))
    || exists e :: e in exts && c == base + ["index" + e]
  }

  lemma {:induction false} AddedName(base: Path, exts: seq<string>, e: string)
    requires e in exts
    ensures Near(base, exts, WithName(base, Name(base) + e))
  {
    assert "" + e == e;
  }

  lemma {:induction false} NearMore(base: Path, exts: seq<string>, c: Path)
    requires exts != [] && Near(base, exts[1..], c)
    ensures Near(base, exts, c)
  {}

  lemma {:induction false} AddedAreNear(base: Path, exts: seq<string>)
    ensures forall c :: c in Added(base, exts) ==> Near(base, exts, c)
    ensures forall e :: e in exts ==> base + ["index" + e] in Added(base, exts)
  {
    if exts != [] {
      hide WithName;
      AddedAreNear(base, exts[1..]);
      var a, b := WithName(base, Name(base) + exts[0]), base + ["index" + exts[0]];
      var rest := Added(base, exts[1..]);
      forall c | c in Added(base, exts) ensures Near(base, exts, c) {
        if c == a {
          AddedName(base, exts, exts[0]);
        } else if c == b {
          assert exts[0] in exts;
        } else {
          assert c in rest;
          NearMore(base, exts, c);
        }
      }
      forall e | e in exts ensures base + ["index" + e] in Added(base, exts) {
        assert e == exts[0] || e in exts[1..];
      }
    }
  }

  lemma {:induction false} NoExtension()
    ensures Extension("") == ""
  {}

  /** Candidates lie beside the path they are for, or directly below it. Below it they are its
      index files, tried exactly when its name does not look like a file name. */
  lemma {:induction false} CandidatesAreNear(base: Path)
    ensures forall c :: c in ResolveImportCandidates(base) ==>
              c == base || (c != [] && (Dirname(c) == Dirname(base) || Dirname(c) == base))
    ensures forall c :: c in ResolveImportCandidates(base) && base < c ==>
              && Extension(Name(base)) == ""
              && exists e :: e in EXTENSIONS && (c == base + ["index" + e] || (base == [] && c == [e]))
    ensures forall e :: e in EXTENSIONS ==>
              (base + ["index" + e] in ResolveImportCandidates(base) <==> Extension(Name(base)) == "")
  {
    hide EXTENSIONS, Extension, Swapped, Added;
    SwappedAreSiblings(base, EXTENSIONS);
    AddedAreNear(base, EXTENSIONS);
    NoExtension();
    assert Extension(Name(base)) != "" ==> base != [];
  }

  /** A path outside the new root has no candidate inside it. */
  lemma {:induction false} OutsideStaysOutside(iso: Path, base: Path)
    requires !(iso <= base)
    ensures forall c :: c in ResolveImportCandidates(base) ==> !(iso < c)
  {
    hide ResolveImportCandidates, EXTENSIONS;
    CandidatesAreNear(base);
    forall c | c in ResolveImportCandidates(base) ensures !(iso < c) {
      assert iso < c ==> iso <= Dirname(c);
      assert Dirname(base) <= base;
    }
  }

  lemma {:induction false} DirnameMoves(root: Path, iso: Path, f: Path)
    requires root <= Dirname(f) && f != []
    ensures root <= f && Dirname(Move(root, iso, f)) == Move(root, iso, Dirname(f))
  {}

  /** From the copy, a specifier that leaves the root finds what it would find if nothing had
      been copied, and never a copy. */
  lemma {:induction false} LeavingIgnoresTheCopy(
      tree: Tree, out: Tree, files: seq<Path>, root: Path, iso: Path, f: Path, s: Specifier)
    requires RootHolds(root, files) && Copied(tree, out, files, root, iso) && Fresh(tree, iso)
    requires f in files && Name(iso) !in s && !Within(root, Dirname(f), s)
    ensures var r := ResolveRelativeImportPath(out, Move(root, iso, f), s);
            && r == ResolveRelativeImportPath(tree, Move(root, iso, f), s)
            && (r.Some? ==> !(iso < r.value))
  {
    hide Move, ResolveImportCandidates, Within, Resolve, Copied;
    DirnameMoves(root, iso, f);
    LeavingStaysOutside(root, iso, Dirname(f), s);
    var base := Resolve(Dirname(Move(root, iso, f)), s);
    var cs := ResolveImportCandidates(base);
    OutsideStaysOutside(iso, base);
    forall c | c in cs ensures c in tree <==> c in out {
      CopiedAt(tree, out, files, root, iso, c);
    }
    SameFilesSameFind(cs, tree, out);
    FoundIsListed(cs, out);
  }

  /** A file directly below the file-system root whose whole name is an extension. */
  predicate Nameless(g: Path) { exists e :: e in EXTENSIONS && g == [e] }

  /** What the root's own name finds from the copy: index files, if the new root's name lets
      them be tried. */
  lemma {:induction false} RootFinds(tree: Tree, out: Tree, files: seq<Path>, root: Path, iso: Path)
    requires RootHolds(root, files) && Copied(tree, out, files, root, iso) && Fresh(tree, iso)
    ensures var r := FirstFile(ResolveImportCandidates(iso), out);
            && (r.None? <==>
                  Extension(Name(iso)) != "" || forall e :: e in EXTENSIONS ==> root + ["index" + e] !in files)
            && (r.Some? ==> exists e :: e in EXTENSIONS && r.value == iso + ["index" + e])
  {
    hide Move, ResolveImportCandidates, EXTENSIONS, Extension, Copied;
    var cs := ResolveImportCandidates(iso);
    FoundIsListed(cs, out);
    CandidatesAreNear(iso);
    forall c | c in cs && c in out ensures iso < c {
      CopiedAt(tree, out, files, root, iso, c);
    }
    forall e | e in EXTENSIONS ensures iso + ["index" + e] in out <==> root + ["index" + e] in files {
      CopiedAt(tree, out, files, root, iso, root + ["index" + e]);
      MoveOfRoot(root, iso);
      ExtendMoves(root, iso, root, "index" + e);
    }
  }

  /** What makes a specifier of a copied file keep its meaning, told from the disk before the
      copy. One that finds a file must stay within the root; and where it names the root itself,
      the new root's name must let index files be tried. One that finds nothing must not find
      one of those index files, nor, when it leaves the root, something near the new root. */
  ghost predicate KeepsMeaning(
      tree: Tree, files: seq<Path>, root: Path, iso: Path, f: Path, s: Specifier)
  {
    var found, base := ResolveRelativeImportPath(tree, f, s), Resolve(Dirname(f), s);
    if !Within(root, Dirname(f), s) then
      found.None? && Name(iso) !in s && ResolveRelativeImportPath(tree, Move(root, iso, f), s).None?
    else if base != root then true
    else if found.Some? then Extension(Name(iso)) == "" && !Nameless(found.value)
    else Extension(Name(iso)) != "" || forall e :: e in EXTENSIONS ==> root + ["index" + e] !in files
  }

  /** A specifier of a copied file finds, from the copy, the copy of what it found before. */
  ghost predicate FindsTheCopy(
      tree: Tree, out: Tree, root: Path, iso: Path, f: Path, s: Specifier)
  {
    ResolveRelativeImportPath(out, Move(root, iso, f), s) == Moved(root, iso, ResolveRelativeImportPath(tree, f, s))
  }

  /** Staying within the root, and below it, is enough. */
  lemma {:induction false} BelowRootFindsTheCopy(
      tree: Tree, out: Tree, files: seq<Path>, root: Path, iso: Path, f: Path, s: Specifier)
    requires RootHolds(root, files) && Copied(tree, out, files, root, iso) && Fresh(tree, iso)
    requires f in files && Within(root, Dirname(f), s) && Resolve(Dirname(f), s) != root
    requires var r := ResolveRelativeImportPath(tree, f, s); r.Some? ==> r.value in files
    ensures FindsTheCopy(tree, out, root, iso, f, s)
  {
    hide ResolveImportCandidates, Copied, Fresh, Move, Within, Resolve;
    DirnameMoves(root, iso, f);
    ResolveMoves(root, iso, Dirname(f), s);
    var base := Resolve(Dirname(f), s);
    CandidatesMove(root, iso, base);
    FirstFileMoves(tree, out, files, root, iso, ResolveImportCandidates(base),
                   ResolveImportCandidates(Move(root, iso, base)));
  }

  lemma {:induction false} AddedFirst(base: Path, exts: seq<string>, tree: Tree)
    requires exts != []
    ensures var a, b := WithName(base, Name(base) + exts[0]), base + ["index" + exts[0]];
            FirstFile(Added(base, exts), tree) ==
              if a in tree then Some(a) else if b in tree then Some(b) else FirstFile(Added(base, exts[1..]), tree)
  {
    hide WithName;
    var a, b := WithName(base, Name(base) + exts[0]), base + ["index" + exts[0]];
    var rest := Added(base, exts[1..]);
    assert Added(base, exts) == [a, b] + rest;
    assert ([a, b] + rest)[1..] == [b] + rest && ([b] + rest)[1..] == rest;
  }

  lemma {:induction false} SiblingNotHeld(root: Path, files: seq<Path>, e: string)
    requires RootHolds(root, files) && e in EXTENSIONS
    ensures WithName(root, Name(root) + e) in files ==> Nameless(WithName(root, Name(root) + e))
  {
    var a := WithName(root, Name(root) + e);
    if a in files {
      assert root <= Dirname(a) && Dirname(a) == Dirname(root);
      assert root == [];
      assert "" + e == e;
    }
  }

  /** The index files of two roots are tried in the same order. */
  lemma {:induction false} IndexMoves(
      tree: Tree, out: Tree, files: seq<Path>, root: Path, iso: Path, exts: seq<string>)
    requires RootHolds(root, files) && Copied(tree, out, files, root, iso)
    requires forall e :: e in exts ==> e in EXTENSIONS && WithName(iso, Name(iso) + e) !in out
    requires var r := FirstFile(Added(root, exts), tree); r.Some? ==> r.value in files && !Nameless(r.value)
    requires forall e :: e in exts ==> (iso + ["index" + e] in out <==> root + ["index" + e] in files)
    ensures var r := FirstFile(Added(root, exts), tree);
            r.Some? ==> FirstFile(Added(iso, exts), out) == Moved(root, iso, r)
  {
    if exts != [] {
      hide WithName, EXTENSIONS, Copied, Nameless;
      var e := exts[0];
      var a, b := WithName(root, Name(root) + e), root + ["index" + e];
      var c, d := WithName(iso, Name(iso) + e), iso + ["index" + e];
      assert e in exts && forall x :: x in exts[1..] ==> x in exts;
      ExtendMoves(root, iso, root, "index" + e);
      MoveOfRoot(root, iso);
      AddedFirst(root, exts, tree);
      AddedFirst(iso, exts, out);
      SiblingNotHeld(root, files, e);
      CopiedAreFiles(tree, out, files, root, iso);
      if a !in tree && b !in tree {
        IndexMoves(tree, out, files, root, iso, exts[1..]);
      }
    }
  }

  lemma {:induction false} FoundBelowRoot(tree: Tree, files: seq<Path>, root: Path, g: Path)
    requires RootHolds(root, files) && g in files && FirstFile(ResolveImportCandidates(root), tree) == Some(g)
    ensures Extension(Name(root)) == ""
    ensures FirstFile(ResolveImportCandidates(root), tree) == FirstFile(Added(root, EXTENSIONS), tree)
    ensures exists e :: e in EXTENSIONS && (g == root + ["index" + e] || (root == [] && g == [e]))
  {
    hide EXTENSIONS, Extension, Added, Swapped;
    FoundIsListed(ResolveImportCandidates(root), tree);
    CandidatesAreNear(root);
    assert root <= Dirname(g) && root < g;
    assert ResolveImportCandidates(root) == [root] + Added(root, EXTENSIONS);
  }

  /** An index file is not called by an extension alone. */
  lemma {:induction false} NamelessIsNoIndex(root: Path, iso: Path, g: Path)
    requires root < g && Nameless(g)
    ensures forall e :: e in EXTENSIONS ==> iso + ["index" + e] != Move(root, iso, g)
  {
    assert Move(root, iso, g) == iso + g;
    assert forall x :: x in EXTENSIONS ==> x[0] == '.';
    forall e | e in EXTENSIONS ensures iso + ["index" + e] != iso + g {
      assert (iso + ["index" + e])[|iso|] == "index" + e && ("index" + e)[0] == 'i';
      assert (iso + g)[|iso|] == g[0];
    }
  }

  lemma {:induction false} AddedSibling(base: Path, exts: seq<string>, e: string)
    requires e in exts && base != []
    ensures WithName(base, Name(base) + e) in Added(base, exts) && !(base < WithName(base, Name(base) + e))
  {
    if e != exts[0] { AddedSibling(base, exts[1..], e); }
  }

  lemma {:induction false} RootIndexMoves(tree: Tree, out: Tree, files: seq<Path>, root: Path, iso: Path)
    requires RootHolds(root, files) && Copied(tree, out, files, root, iso) && Fresh(tree, iso)
    requires Extension(Name(iso)) == ""
    requires var r := FirstFile(Added(root, EXTENSIONS), tree); r.Some? && r.value in files && !Nameless(r.value)
    ensures FirstFile(ResolveImportCandidates(iso), out) == Moved(root, iso, FirstFile(Added(root, EXTENSIONS), tree))
  {
    hide EXTENSIONS, Extension, Copied, Move, Nameless, WithName;
    CandidatesAreNear(iso);
    assert ResolveImportCandidates(iso) == [iso] + Added(iso, EXTENSIONS);
    CopiedAt(tree, out, files, root, iso, iso);
    forall e | e in EXTENSIONS
      ensures WithName(iso, Name(iso) + e) !in out && (iso + ["index" + e] in out <==> root + ["index" + e] in files)
    {
      AddedSibling(iso, EXTENSIONS, e);
      CopiedAt(tree, out, files, root, iso, WithName(iso, Name(iso) + e));
      CopiedAt(tree, out, files, root, iso, root + ["index" + e]);
      ExtendMoves(root, iso, root, "index" + e);
      MoveOfRoot(root, iso);
    }
    IndexMoves(tree, out, files, root, iso, EXTENSIONS);
  }

  /** A specifier that names the root itself. */
  lemma {:induction false} RootFindsTheCopyExactly(
      tree: Tree, out: Tree, files: seq<Path>, root: Path, iso: Path, f: Path, s: Specifier)
    requires RootHolds(root, files) && Copied(tree, out, files, root, iso) && Fresh(tree, iso)
    requires f in files && Within(root, Dirname(f), s) && Resolve(Dirname(f), s) == root
    requires var r := ResolveRelativeImportPath(tree, f, s); r.Some? ==> r.value in files
    ensures FindsTheCopy(tree, out, root, iso, f, s) <==> KeepsMeaning(tree, files, root, iso, f, s)
  {
    hide ResolveImportCandidates, Copied, Fresh, Move, Within, Resolve, Extension, EXTENSIONS, Nameless;
    DirnameMoves(root, iso, f);
    ResolveMoves(root, iso, Dirname(f), s);
    MoveOfRoot(root, iso);
    RootFinds(tree, out, files, root, iso);
    var r := FirstFile(ResolveImportCandidates(root), tree);
    if r.Some? {
      FoundBelowRoot(tree, files, root, r.value);
      if Extension(Name(iso)) == "" {
        if Nameless(r.value) {
          NamelessIsNoIndex(root, iso, r.value);
        } else {
          RootIndexMoves(tree, out, files, root, iso);
        }
      }
    }
  }

  /** Any specifier of a copied file: the copy means the copy of what it meant exactly when
      KeepsMeaning says so. */
  lemma {:induction false} SpecifierMovesExactly(
      tree: Tree, out: Tree, files: seq<Path>, root: Path, iso: Path, f: Path, s: Specifier)
    requires RootHolds(root, files) && Copied(tree, out, files, root, iso) && Fresh(tree, iso)
    requires f in files && Name(iso) !in s
    requires var r := ResolveRelativeImportPath(tree, f, s); r.Some? ==> r.value in files
    ensures FindsTheCopy(tree, out, root, iso, f, s) <==> KeepsMeaning(tree, files, root, iso, f, s)
  {
    if !Within(root, Dirname(f), s) {
      hide ResolveImportCandidates, Copied, Fresh, Within, Resolve, ResolveRelativeImportPath;
      LeavingIgnoresTheCopy(tree, out, files, root, iso, f, s);
      var r := ResolveRelativeImportPath(tree, f, s);
      if r.Some? { CopiedAt(tree, out, files, root, iso, r.value); }
    } else if Resolve(Dirname(f), s) != root {
      BelowRootFindsTheCopy(tree, out, files, root, iso, f, s);
    } else {
      RootFindsTheCopyExactly(tree, out, files, root, iso, f, s);
    }
  }

  /** A specifier that found a file, in particular: it finds its copy exactly when it stays
      within the root and, where it names the root itself, the new root's name does not look
      like a file name. The root's own name does not matter. */
  lemma {:induction false} ResolvedMovesExactly(
      tree: Tree, out: Tree, files: seq<Path>, root: Path, iso: Path, f: Path, s: Specifier, g: Path)
    requires RootHolds(root, files) && Copied(tree, out, files, root, iso) && Fresh(tree, iso)
    requires f in files && g in files && Name(iso) !in s && ResolveRelativeImportPath(tree, f, s) == Some(g)
    ensures ResolveRelativeImportPath(out, Move(root, iso, f), s) == Some(Move(root, iso, g)) <==>
              && Within(root, Dirname(f), s)
              && (Resolve(Dirname(f), s) != root || (Extension(Name(iso)) == "" && !Nameless(g)))
    ensures root != [] ==> !Nameless(g)
  {
    hide ResolveRelativeImportPath, Copied, Fresh, Within, Resolve;
    SpecifierMovesExactly(tree, out, files, root, iso, f, s);
    assert root <= Dirname(g);
  }

  // ---------- the whole graph ----------

  function MoveAll(root: Path, iso: Path, ps: seq<Path>): seq<Path> {
    if ps == [] then [] else [Move(root, iso, ps[0])] + MoveAll(root, iso, ps[1..])
  }

  lemma {:induction false} MoveAllMembers(root: Path, iso: Path, ps: seq<Path>)
    ensures forall q :: q in MoveAll(root, iso, ps) <==> exists p :: p in ps && q == Move(root, iso, p)
  {
    if ps != [] {
      hide Move;
      MoveAllMembers(root, iso, ps[1..]);
      assert ps == [ps[0]] + ps[1..];
    }
  }

  /** What a closed set of copied files rests on. */
  ghost predicate GoodCopy(tree: Tree, out: Tree, files: seq<Path>, root: Path, iso: Path) {
    && RootHolds(root, files) && Below(root, files) && Fresh(tree, iso)
    && Copied(tree, out, files, root, iso)
    && (forall f, g :: f in files && g in Imports(tree, f) ==> g in files)
    && forall f, s :: f in files && s in tree[f] ==> KeepsMeaning(tree, files, root, iso, f, s)
  }

  lemma {:induction false} SpecifierMoves(
      tree: Tree, out: Tree, files: seq<Path>, root: Path, iso: Path, f: Path, s: Specifier)
    requires GoodCopy(tree, out, files, root, iso) && f in files && s in tree[f]
    requires var r := ResolveRelativeImportPath(tree, f, s); r.Some? ==> r.value in files
    ensures FindsTheCopy(tree, out, root, iso, f, s)
  {
    assert KeepsMeaning(tree, files, root, iso, f, s);
    hide ResolveRelativeImportPath, Copied, Fresh, Move, Within, Resolve;
    if !Within(root, Dirname(f), s) {
      LeavingIgnoresTheCopy(tree, out, files, root, iso, f, s);
    } else if Resolve(Dirname(f), s) != root {
      BelowRootFindsTheCopy(tree, out, files, root, iso, f, s);
    } else {
      RootFindsTheCopyExactly(tree, out, files, root, iso, f, s);
    }
  }

  lemma {:induction false} FirstTarget(tree: Tree, f: Path, specifiers: seq<Specifier>)
    requires specifiers != []
    ensures var r := ResolveRelativeImportPath(tree, f, specifiers[0]);
            var rest := Targets(tree, f, specifiers[1..]);
            && Targets(tree, f, specifiers) == (if r.Some? then [r.value] + rest else rest)
            && (r.Some? ==> r.value in Targets(tree, f, specifiers))
            && forall g :: g in rest ==> g in Targets(tree, f, specifiers)
  {}

  lemma {:induction false} MoveAllCons(root: Path, iso: Path, p: Path, ps: seq<Path>)
    ensures MoveAll(root, iso, [p] + ps) == [Move(root, iso, p)] + MoveAll(root, iso, ps)
  {}

  lemma {:induction false} TargetsMove(
      tree: Tree, out: Tree, root: Path, iso: Path, f: Path, specifiers: seq<Specifier>)
    requires forall s :: s in specifiers ==> FindsTheCopy(tree, out, root, iso, f, s)
    ensures Targets(out, Move(root, iso, f), specifiers) == MoveAll(root, iso, Targets(tree, f, specifiers))
  {
    if specifiers != [] {
      hide ResolveRelativeImportPath, Move;
      var s := specifiers[0];
      var r := ResolveRelativeImportPath(tree, f, s);
      var rest := Targets(tree, f, specifiers[1..]);
      FirstTarget(tree, f, specifiers);
      FirstTarget(out, Move(root, iso, f), specifiers);
      assert FindsTheCopy(tree, out, root, iso, f, s);
      TargetsMove(tree, out, root, iso, f, specifiers[1..]);
      if r.Some? { MoveAllCons(root, iso, r.value, rest); }
    }
  }

  lemma {:induction false} CountForcesHead(r: Option<Path>, rest: seq<Path>, p: Path, ps: seq<Path>)
    requires (if r.Some? then [r.value] + rest else rest) == [p] + ps && |rest| <= |ps|
    ensures r == Some(p) && rest == ps
  {
    assert |[p] + ps| == 1 + |ps|;
    assert ([p] + ps)[0] == p && ([p] + ps)[1..] == ps;
    assert r.Some? ==> ([r.value] + rest)[0] == r.value && ([r.value] + rest)[1..] == rest;
  }

  lemma {:induction false} TargetsCount(tree: Tree, f: Path, specifiers: seq<Specifier>)
    ensures |Targets(tree, f, specifiers)| <= |specifiers|
    ensures (forall s :: s in specifiers ==> ResolveRelativeImportPath(tree, f, s).Some?) ==>
              |Targets(tree, f, specifiers)| == |specifiers|
  {
    if specifiers != [] {
      hide ResolveRelativeImportPath;
      TargetsCount(tree, f, specifiers[1..]);
    }
  }

  lemma {:induction false} MoveAllCount(root: Path, iso: Path, ps: seq<Path>)
    ensures |MoveAll(root, iso, ps)| == |ps|
  {
    if ps != [] { MoveAllCount(root, iso, ps[1..]); }
  }

  lemma {:induction false} HeadFindsTheCopy(
      tree: Tree, out: Tree, root: Path, iso: Path, f: Path, s: Specifier, rest: seq<Specifier>)
    requires ResolveRelativeImportPath(tree, f, s).Some?
    requires forall x :: x in rest ==> ResolveRelativeImportPath(tree, f, x).Some?
    requires Targets(out, Move(root, iso, f), [s] + rest) == MoveAll(root, iso, Targets(tree, f, [s] + rest))
    ensures FindsTheCopy(tree, out, root, iso, f, s)
    ensures Targets(out, Move(root, iso, f), rest) == MoveAll(root, iso, Targets(tree, f, rest))
  {
    hide ResolveRelativeImportPath, Move, Targets, MoveAll;
    var m := Move(root, iso, f);
    FirstTarget(tree, f, [s] + rest);
    FirstTarget(out, m, [s] + rest);
    TargetsCount(tree, f, rest);
    TargetsCount(out, m, rest);
    var was, now := ResolveRelativeImportPath(tree, f, s), ResolveRelativeImportPath(out, m, s);
    MoveAllCount(root, iso, Targets(tree, f, rest));
    MoveAllCons(root, iso, was.value, Targets(tree, f, rest));
    CountForcesHead(now, Targets(out, m, rest),
                    Move(root, iso, was.value), MoveAll(root, iso, Targets(tree, f, rest)));
  }

  /** Where every specifier found a file, the lists agree only if each one finds its copy. */
  lemma {:induction false} TargetsMoveOnlyIf(
      tree: Tree, out: Tree, root: Path, iso: Path, f: Path, specifiers: seq<Specifier>)
    requires forall s :: s in specifiers ==> ResolveRelativeImportPath(tree, f, s).Some?
    requires Targets(out, Move(root, iso, f), specifiers) == MoveAll(root, iso, Targets(tree, f, specifiers))
    ensures forall s :: s in specifiers ==> FindsTheCopy(tree, out, root, iso, f, s)
  {
    hide *;
    if specifiers != [] {
      var s, rest := specifiers[0], specifiers[1..];
      assert specifiers == [s] + rest;
      HeadFindsTheCopy(tree, out, root, iso, f, s, rest);
      TargetsMoveOnlyIf(tree, out, root, iso, f, rest);
    }
  }

  lemma {:induction false} SpecifierListed(tree: Tree, f: Path, specifiers: seq<Specifier>, s: Specifier)
    requires s in specifiers
    ensures var r := ResolveRelativeImportPath(tree, f, s); r.Some? ==> r.value in Targets(tree, f, specifiers)
  {
    hide ResolveRelativeImportPath;
    if s != specifiers[0] { SpecifierListed(tree, f, specifiers[1..], s); }
  }

  lemma {:induction false} CopiedContents(tree: Tree, out: Tree, files: seq<Path>, root: Path, iso: Path, f: Path)
    requires GoodCopy(tree, out, files, root, iso) && f in files
    ensures f in tree && Move(root, iso, f) in out && out[Move(root, iso, f)] == tree[f]
    ensures forall g :: g in Imports(tree, f) ==> g in files
  {
    hide Move, Fresh, Imports;
  }

  /** In the copy, each file imports exactly the copies of what it imported. */
  lemma {:induction false} ImportsMove(tree: Tree, out: Tree, files: seq<Path>, root: Path, iso: Path, f: Path)
    requires GoodCopy(tree, out, files, root, iso) && f in files
    ensures Imports(out, Move(root, iso, f)) == MoveAll(root, iso, Imports(tree, f))
  {
    CopiedContents(tree, out, files, root, iso, f);
    hide Move, GoodCopy, ResolveRelativeImportPath;
    forall s | s in tree[f] ensures FindsTheCopy(tree, out, root, iso, f, s) {
      SpecifierListed(tree, f, tree[f], s);
      SpecifierMoves(tree, out, files, root, iso, f, s);
    }
    TargetsMove(tree, out, root, iso, f, tree[f]);
  }

  /** A copied file all of whose specifiers find files imports the copies of what it imported,
      in order, exactly when each of its specifiers keeps its meaning. */
  lemma {:induction false} ImportsMoveExactly(
      tree: Tree, out: Tree, files: seq<Path>, root: Path, iso: Path, f: Path)
    requires RootHolds(root, files) && Copied(tree, out, files, root, iso) && Fresh(tree, iso)
    requires f in files && f in tree
    requires forall s :: s in tree[f] ==>
      && Name(iso) !in s && ResolveRelativeImportPath(tree, f, s).Some?
      && ResolveRelativeImportPath(tree, f, s).value in files
    ensures Imports(out, Move(root, iso, f)) == MoveAll(root, iso, Imports(tree, f)) <==>
              forall s :: s in tree[f] ==> KeepsMeaning(tree, files, root, iso, f, s)
  {
    CopiedAreFiles(tree, out, files, root, iso);
    assert Move(root, iso, f) in out && out[Move(root, iso, f)] == tree[f];
    hide Move, ResolveRelativeImportPath, RootHolds, Copied, Fresh, KeepsMeaning, FindsTheCopy;
    forall s | s in tree[f]
      ensures FindsTheCopy(tree, out, root, iso, f, s) <==> KeepsMeaning(tree, files, root, iso, f, s)
    {
      SpecifierMovesExactly(tree, out, files, root, iso, f, s);
    }
    if forall s :: s in tree[f] ==> FindsTheCopy(tree, out, root, iso, f, s) {
      TargetsMove(tree, out, root, iso, f, tree[f]);
    }
    if Imports(out, Move(root, iso, f)) == MoveAll(root, iso, Imports(tree, f)) {
      TargetsMoveOnlyIf(tree, out, root, iso, f, tree[f]);
    }
  }

  lemma {:induction false} ImportsMoveMember(
      tree: Tree, out: Tree, files: seq<Path>, root: Path, iso: Path, f: Path, q: Path)
    requires GoodCopy(tree, out, files, root, iso) && f in files
    ensures q in Imports(out, Move(root, iso, f)) <==>
              exists g :: g in files && g in Imports(tree, f) && q == Move(root, iso, g)
  {
    hide Move, GoodCopy, Imports;
    ImportsMove(tree, out, files, root, iso, f);
    CopiedContents(tree, out, files, root, iso, f);
    MoveAllMembers(root, iso, Imports(tree, f));
  }

  lemma {:induction false} ChainMoves(
      tree: Tree, out: Tree, files: seq<Path>, root: Path, iso: Path, ps: seq<Path>)
    requires GoodCopy(tree, out, files, root, iso) && Chain(tree, ps) && ps[0] in files
    ensures ps[|ps| - 1] in files
    ensures Reaches(out, Move(root, iso, ps[0]), Move(root, iso, ps[|ps| - 1]))
  {
    hide Move, GoodCopy, Imports, Reaches;
    var n := |ps| - 1;
    if n == 0 {
      CopiedContents(tree, out, files, root, iso, ps[0]);
      ReachesItself(out, Move(root, iso, ps[0]));
    } else {
      var qs := ps[..n];
      assert forall i :: 0 <= i < |qs| ==> qs[i] == ps[i];
      assert Chain(tree, qs);
      ChainMoves(tree, out, files, root, iso, qs);
      CopiedContents(tree, out, files, root, iso, ps[n - 1]);
      ImportsMoveMember(tree, out, files, root, iso, ps[n - 1], Move(root, iso, ps[n]));
      ReachesStep(out, Move(root, iso, ps[0]), Move(root, iso, ps[n - 1]), Move(root, iso, ps[n]));
    }
  }

  lemma {:induction false} GoodCopyIsBelow(tree: Tree, out: Tree, files: seq<Path>, root: Path, iso: Path)
    requires GoodCopy(tree, out, files, root, iso)
    ensures Below(root, files)
  {}

  lemma {:induction false} MoveAllDistinct(root: Path, iso: Path, ps: seq<Path>)
    requires Distinct(ps) && Below(root, ps)
    ensures Distinct(MoveAll(root, iso, ps)) && |MoveAll(root, iso, ps)| == |ps|
  {
    if ps != [] {
      hide Move;
      assert forall i :: 0 <= i < |ps| - 1 ==> ps[1..][i] == ps[i + 1];
      assert ps[0] in ps && forall p :: p in ps[1..] ==> p in ps;
      MoveAllDistinct(root, iso, ps[1..]);
      MoveAllMembers(root, iso, ps[1..]);
      forall p | p in ps[1..] ensures Move(root, iso, p) != Move(root, iso, ps[0]) {
        MoveIsInjective(root, iso, p, ps[0]);
      }
      var rest := MoveAll(root, iso, ps[1..]);
      forall j | 0 <= j < |rest| ensures rest[j] != Move(root, iso, ps[0]) {
        assert rest[j] in rest;
      }
    }
  }

  /** The copy has the same import graph: from the copied entry one reaches exactly the copies
      of the files reached from the entry. */
  lemma {:induction false} CopiedGraphIsTheGraphCopied(
      tree: Tree, out: Tree, files: seq<Path>, root: Path, iso: Path, entry: Path)
    requires GoodCopy(tree, out, files, root, iso) && IsGraph(tree, entry, files) && entry in tree
    ensures IsGraph(out, Move(root, iso, entry), MoveAll(root, iso, files))
  {
    hide Move, GoodCopy, Imports;
    var e, all := Move(root, iso, entry), MoveAll(root, iso, files);
    ReachesItself(tree, entry);
    MoveAllMembers(root, iso, files);
    forall q | q in all ensures Reaches(out, e, q) {
      var f :| f in files && q == Move(root, iso, f);
      var ps :| Chain(tree, ps) && ps[0] == entry && ps[|ps| - 1] == f;
      ChainMoves(tree, out, files, root, iso, ps);
    }
    forall m, q | m in all && q in Imports(out, m) ensures q in all {
      var f :| f in files && m == Move(root, iso, f);
      ImportsMoveMember(tree, out, files, root, iso, f, q);
    }
    ClosedHoldsReachable(out, e, all);
    GoodCopyIsBelow(tree, out, files, root, iso);
    MoveAllDistinct(root, iso, files);
  }

  /** Copying preserves meaning. On a good disk, with a fresh target directory and specifiers
      that keep their meaning one by one, the computed root is the deepest common ancestor, every file
      is copied to its own place below the target, and the copied module imports, directly and
      through others, exactly the copies of what the module imports. */
  lemma {:induction false} CopyPreservesImports(
      tree: Tree, modulePath: Path, packageRoot: Path, files: seq<Path>, iso: Path)
    requires GoodTree(tree) && Fresh(tree, iso) && modulePath in tree
    requires IsGraph(tree, modulePath, files) && IsPackage(packageRoot, tree.Keys)
    requires var root := packageRoot[..Depth(packageRoot, files)];
             forall f, s :: f in files && f in tree && s in tree[f] ==> KeepsMeaning(tree, files, root, iso, f, s)
    ensures forall f :: f in files ==> f in tree
    ensures var root := packageRoot[..Depth(packageRoot, files)];
            var out := CopyAll(tree, files, root, iso);
            && RootHolds(root, files) && (forall d :: CommonAncestorOf(d, packageRoot, files) ==> d <= root)
            && Copied(tree, out, files, root, iso)
            && Target(root, iso, modulePath) == Move(root, iso, modulePath)
            && IsGraph(out, Target(root, iso, modulePath), MoveAll(root, iso, files))
  {
    hide Depth, Move, Imports, KeepsMeaning, CopyAll, Target, Fresh;
    GraphIsFiles(tree, modulePath, files);
    var root := packageRoot[..Depth(packageRoot, files)];
    CopyRootHoldsAll(tree, packageRoot, files);
    HoldsIsBelow(root, files);
    CopyAllCopies(tree, files, root, iso);
    ReachesItself(tree, modulePath);
    TargetIsMove(root, iso, modulePath);
    forall f, g | f in files && g in Imports(tree, f) ensures g in files {
      ReachesStep(tree, modulePath, f, g);
    }
    CopiedGraphIsTheGraphCopied(tree, CopyAll(tree, files, root, iso), files, root, iso, modulePath);
  }
}
