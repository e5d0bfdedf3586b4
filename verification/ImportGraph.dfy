/** Copying a module with everything it imports by relative paths
    (scripts/load-channel-config-surface.ts): a worklist collects the import graph, a common
    ancestor becomes the root of the copy, and every file keeps its place below it. */
module ImportGraph {
  import opened JsText
  import opened PosixPaths

  /** The segments of a specifier that starts with ".". */
  type Specifier = seq<string>

  /** The files on disk, each with the relative specifiers found in it, in order. */
  type Tree = map<Path, seq<Specifier>>

  /** Paths are resolved and no file is a directory on the way to another. */
  ghost predicate GoodTree(tree: Tree) {
    && (forall p :: p in tree ==> Resolved(p))
    && (forall p, q :: p in tree && q in tree ==> !(p < q))
  }

  // ---------- which file a specifier means ----------

  const EXTENSIONS := [".ts", ".tsx", ".mts", ".cts", ".js", ".jsx", ".mjs", ".cjs"]

  function LastDot(name: string): (d: int)
    ensures -1 <= d < |name|
  {
    if name == [] then -1 else if name[|name| - 1] == '.' then |name| - 1 else LastDot(name[..|name| - 1])
  }

  /** path.extname of a segment: from the last dot, unless that is its first character. */
  function Extension(name: string): string {
    if LastDot(name) > 0 then name[LastDot(name)..] else ""
  }

  function Stem(name: string): string {
    if LastDot(name) > 0 then name[..LastDot(name)] else name
  }

  function Name(p: Path): string { if p == [] then "" else p[|p| - 1] }

  function WithName(p: Path, name: string): Path { Dirname(p) + [name] }

  function Swapped(base: Path, exts: seq<string>): seq<Path> {
    if exts == [] then [] else [WithName(base, Stem(Name(base)) + exts[0])] + Swapped(base, exts[1..])
  }

  function Added(base: Path, exts: seq<string>): seq<Path> {
    if exts == [] then []
    else [WithName(base, Name(base) + exts[0]), base + ["index" + exts[0]]] + Added(base, exts[1..])
  }

  function ResolveImportCandidates(base: Path): seq<Path> {
    [base] + if Extension(Name(base)) != "" then Swapped(base, EXTENSIONS) else Added(base, EXTENSIONS)
  }

  function FirstFile(candidates: seq<Path>, tree: Tree): (r: Option<Path>)
    ensures r.Some? ==> r.value in tree
  {
    if candidates == [] then None
    else if candidates[0] in tree then Some(candidates[0])
    else FirstFile(candidates[1..], tree)
  }

  function ResolveRelativeImportPath(tree: Tree, fromFile: Path, specifier: Specifier): Option<Path> {
    FirstFile(ResolveImportCandidates(Resolve(Dirname(fromFile), specifier)), tree)
  }

  lemma {:induction false} LastDotAt(name: string, d: nat)
    requires d < |name| && name[d] == '.' && forall i :: d < i < |name| ==> name[i] != '.'
    ensures LastDot(name) == d
  {
    if d < |name| - 1 { LastDotAt(name[..|name| - 1], d); }
  }

  lemma {:induction false} NoInnerDot(name: string)
    requires forall i :: 0 < i < |name| ==> name[i] != '.'
    ensures LastDot(name) <= 0
  {
    if name != [] && name[|name| - 1] != '.' { NoInnerDot(name[..|name| - 1]); }
  }

  lemma {:induction false} SwappedIs(dir: Path, name: string, exts: seq<string>)
    ensures Swapped(dir + [name], exts) == seq(|exts|, i requires 0 <= i < |exts| => dir + [Stem(name) + exts[i]])
  {
    hide Stem;
    assert Dirname(dir + [name]) == dir;
    if exts != [] { SwappedIs(dir, name, exts[1..]); }
  }

  /** A name with an extension is tried as it is and then with each source extension in place of
      its own, in this order: an import of "x.js" finds the file x.ts. */
  lemma {:induction false} ExtensionIsReplaced(dir: Path, stem: string, ext: string)
    requires stem != "" && ext != "" && ext[0] == '.' && forall i :: 0 < i < |ext| ==> ext[i] != '.'
    ensures ResolveImportCandidates(dir + [stem + ext]) ==
            [dir + [stem + ext], dir + [stem + ".ts"], dir + [stem + ".tsx"], dir + [stem + ".mts"],
             dir + [stem + ".cts"], dir + [stem + ".js"], dir + [stem + ".jsx"], dir + [stem + ".mjs"],
             dir + [stem + ".cjs"]]
  {
    var name := stem + ext;
    assert forall i :: |stem| < i < |name| ==> name[i] == ext[i - |stem|];
    LastDotAt(name, |stem|);
    assert Stem(name) == stem && Extension(name) == ext;
    SwappedIs(dir, name, EXTENSIONS);
  }

  lemma {:induction false} AddedIs(dir: Path, name: string, exts: seq<string>)
    ensures Added(dir + [name], exts) ==
            seq(2 * |exts|, i requires 0 <= i < 2 * |exts| =>
              if i % 2 == 0 then dir + [name + exts[i / 2]] else dir + [name, "index" + exts[i / 2]])
  {
    assert Dirname(dir + [name]) == dir;
    if exts != [] {
      AddedIs(dir, name, exts[1..]);
      assert dir + [name] + ["index" + exts[0]] == dir + [name, "index" + exts[0]];
    }
  }

  /** A name without one is tried as it is and then, for each source extension, with that
      extension and as a directory holding an index file. */
  lemma {:induction false} ExtensionIsAdded(dir: Path, name: string)
    requires forall i :: 0 < i < |name| ==> name[i] != '.'
    ensures var exts := [".ts", ".tsx", ".mts", ".cts", ".js", ".jsx", ".mjs", ".cjs"];
            ResolveImportCandidates(dir + [name]) ==
              [dir + [name]] + seq(16, i requires 0 <= i < 16 =>
                if i % 2 == 0 then dir + [name + exts[i / 2]] else dir + [name, "index" + exts[i / 2]])
  {
    NoInnerDot(name);
    AddedIs(dir, name, EXTENSIONS);
  }

  /** The first of the candidates that is a file. */
  ghost predicate FirstOnDisk(cs: seq<Path>, tree: Tree, g: Path) {
    exists i :: 0 <= i < |cs| && cs[i] == g && g in tree && forall j :: 0 <= j < i ==> cs[j] !in tree
  }

  lemma {:induction false} FirstOnDiskStep(cs: seq<Path>, tree: Tree, g: Path)
    requires cs != []
    ensures FirstOnDisk(cs, tree, g) <==> if cs[0] in tree then g == cs[0] else FirstOnDisk(cs[1..], tree, g)
  {
    if cs[0] !in tree && FirstOnDisk(cs[1..], tree, g) {
      var i :| 0 <= i < |cs[1..]| && cs[1..][i] == g && g in tree && forall j :: 0 <= j < i ==> cs[1..][j] !in tree;
      assert cs[i + 1] == g;
      assert forall j :: 0 < j < i + 1 ==> cs[j] == cs[1..][j - 1];
    }
    if FirstOnDisk(cs, tree, g) {
      var i :| 0 <= i < |cs| && cs[i] == g && g in tree && forall j :: 0 <= j < i ==> cs[j] !in tree;
      if i > 0 {
        assert cs[1..][i - 1] == g && forall j :: 0 <= j < i - 1 ==> cs[1..][j] == cs[j + 1];
      }
    }
  }

  lemma {:induction false} FirstFileExactly(cs: seq<Path>, tree: Tree)
    ensures forall g :: FirstFile(cs, tree) == Some(g) <==> FirstOnDisk(cs, tree, g)
    ensures FirstFile(cs, tree).None? <==> forall c :: c in cs ==> c !in tree
  {
    if cs != [] {
      FirstFileExactly(cs[1..], tree);
      assert cs == [cs[0]] + cs[1..];
      forall g ensures FirstFile(cs, tree) == Some(g) <==> FirstOnDisk(cs, tree, g) {
        FirstOnDiskStep(cs, tree, g);
      }
    }
  }

  /** The files a list of specifiers leads to. */
  function Targets(tree: Tree, fromFile: Path, specifiers: seq<Specifier>): seq<Path> {
    if specifiers == [] then []
    else
      var r := ResolveRelativeImportPath(tree, fromFile, specifiers[0]);
      (if r.Some? then [r.value] else []) + Targets(tree, fromFile, specifiers[1..])
  }

  function Imports(tree: Tree, f: Path): seq<Path> {
    if f in tree then Targets(tree, f, tree[f]) else []
  }

  lemma {:induction false} TargetsAreFiles(tree: Tree, f: Path, specifiers: seq<Specifier>)
    ensures forall p :: p in Targets(tree, f, specifiers) ==> p in tree
  {
    if specifiers != [] {
      hide ResolveImportCandidates;
      TargetsAreFiles(tree, f, specifiers[1..]);
    }
  }

  lemma {:induction false} TargetsOneMore(tree: Tree, f: Path, specifiers: seq<Specifier>, s: Specifier)
    ensures Targets(tree, f, specifiers + [s]) == Targets(tree, f, specifiers) +
              (var r := ResolveRelativeImportPath(tree, f, s); if r.Some? then [r.value] else [])
  {
    hide ResolveRelativeImportPath;
    if specifiers == [] {
      assert specifiers + [s] == [s] && [s][1..] == [];
    } else {
      TargetsOneMore(tree, f, specifiers[1..], s);
      assert (specifiers + [s])[1..] == specifiers[1..] + [s];
    }
  }

  /** A specifier finds the first file on disk among the candidates for the path it leads to. */
  ghost predicate Finds(tree: Tree, f: Path, s: Specifier, g: Path) {
    FirstOnDisk(ResolveImportCandidates(Resolve(Dirname(f), s)), tree, g)
  }

  lemma {:induction false} FindsIsResolving(tree: Tree, f: Path, s: Specifier, g: Path)
    ensures ResolveRelativeImportPath(tree, f, s) == Some(g) <==> Finds(tree, f, s, g)
  {
    hide ResolveImportCandidates, Resolve, FirstOnDisk;
    FirstFileExactly(ResolveImportCandidates(Resolve(Dirname(f), s)), tree);
  }

  lemma {:induction false} TargetsOfFirst(tree: Tree, f: Path, specifiers: seq<Specifier>, g: Path)
    requires specifiers != []
    ensures g in Targets(tree, f, specifiers) <==>
      ResolveRelativeImportPath(tree, f, specifiers[0]) == Some(g) || g in Targets(tree, f, specifiers[1..])
  {
    hide ResolveRelativeImportPath;
  }

  lemma {:induction false} NoTargets(tree: Tree, f: Path)
    ensures Targets(tree, f, []) == []
  {}

  lemma {:induction false} TargetsExactly(tree: Tree, f: Path, specifiers: seq<Specifier>, g: Path)
    ensures g in Targets(tree, f, specifiers) <==> exists s :: s in specifiers && Finds(tree, f, s, g)
  {
    hide *;
    if specifiers == [] {
      NoTargets(tree, f);
    } else {
      var s, rest := specifiers[0], specifiers[1..];
      TargetsExactly(tree, f, rest, g);
      TargetsOfFirst(tree, f, specifiers, g);
      FindsIsResolving(tree, f, s, g);
      assert forall x :: x in specifiers <==> x == s || x in rest;
    }
  }

  /** A file imports exactly what its specifiers find. */
  lemma {:induction false} ImportsExactly(tree: Tree, f: Path, g: Path)
    ensures g in Imports(tree, f) <==>
      f in tree && exists s :: s in tree[f] && Finds(tree, f, s, g)
  {
    if f in tree { TargetsExactly(tree, f, tree[f], g); }
  }

  // ---------- reachability ----------

  /** Each file of the chain is imported by the one before it. */
  ghost predicate Chain(tree: Tree, ps: seq<Path>) {
    && ps != [] && ps[0] in tree
    && forall i :: 0 < i < |ps| ==> ps[i] in Imports(tree, ps[i - 1])
  }

  ghost predicate Reaches(tree: Tree, a: Path, b: Path) {
    exists ps :: Chain(tree, ps) && ps[0] == a && ps[|ps| - 1] == b
  }

  lemma {:induction false} ReachesItself(tree: Tree, a: Path)
    requires a in tree
    ensures Reaches(tree, a, a)
  {
    assert Chain(tree, [a]);
  }

  lemma {:induction false} ReachesStep(tree: Tree, a: Path, b: Path, c: Path)
    requires Reaches(tree, a, b) && c in Imports(tree, b)
    ensures Reaches(tree, a, c)
  {
    hide Imports;
    var ps :| Chain(tree, ps) && ps[0] == a && ps[|ps| - 1] == b;
    var qs := ps + [c];
    assert forall i :: 0 <= i < |ps| ==> qs[i] == ps[i];
    assert Chain(tree, qs);
  }

  lemma {:induction false} ChainStaysIn(tree: Tree, ps: seq<Path>, s: seq<Path>)
    requires Chain(tree, ps) && ps[0] in s
    requires forall f, g :: f in s && g in Imports(tree, f) ==> g in s
    ensures ps[|ps| - 1] in s
  {
    hide Imports;
    if |ps| > 1 {
      var qs := ps[..|ps| - 1];
      assert forall i :: 0 <= i < |qs| ==> qs[i] == ps[i];
      ChainStaysIn(tree, qs, s);
    }
  }

  /** A set closed under imports that holds the entry holds all it reaches. */
  lemma {:induction false} ClosedHoldsReachable(tree: Tree, a: Path, s: seq<Path>)
    requires a in s && forall f, g :: f in s && g in Imports(tree, f) ==> g in s
    ensures forall b :: Reaches(tree, a, b) ==> b in s
  {
    hide Imports;
    forall b | Reaches(tree, a, b) ensures b in s {
      var ps :| Chain(tree, ps) && ps[0] == a && ps[|ps| - 1] == b;
      ChainStaysIn(tree, ps, s);
    }
  }

  ghost predicate Distinct(s: seq<Path>) {
    forall i, j :: 0 <= i < j < |s| ==> s[i] != s[j]
  }

  /** The graph of an entry: exactly the files it reaches, each once. */
  ghost predicate IsGraph(tree: Tree, entry: Path, files: seq<Path>) {
    Distinct(files) && forall p :: p in files <==> Reaches(tree, entry, p)
  }

  // ---------- the worklist ----------

  /** The inner loop: what the specifiers of one file push. */
  method PushTargets(tree: Tree, currentPath: Path, queue: seq<Path>) returns (r: seq<Path>)
    requires currentPath in tree
    ensures r == queue + Imports(tree, currentPath)
  {
    hide ResolveRelativeImportPath;
    var specifiers := tree[currentPath];
    r := queue;
    for i := 0 to |specifiers|
      invariant r == queue + Targets(tree, currentPath, specifiers[..i])
    {
      assert specifiers[..i + 1] == specifiers[..i] + [specifiers[i]];
      TargetsOneMore(tree, currentPath, specifiers[..i], specifiers[i]);
      var resolved := ResolveRelativeImportPath(tree, currentPath, specifiers[i]);
      if resolved.Some? {
        r := r + [resolved.value];
      }
    }
    assert specifiers[..|specifiers|] == specifiers;
  }

  ghost function SetOf(s: seq<Path>): set<Path> { set p | p in s }

  lemma {:induction false} ImportsFacts(tree: Tree, entry: Path, f: Path)
    requires f in tree && (entry in tree ==> Reaches(tree, entry, f))
    ensures forall p :: p in Imports(tree, f) ==> p in tree
    ensures entry in tree ==> forall p :: p in Imports(tree, f) ==> Reaches(tree, entry, p)
  {
    hide Reaches;
    TargetsAreFiles(tree, f, tree[f]);
    if entry in tree {
      forall p | p in Imports(tree, f) ensures Reaches(tree, entry, p) {
        ReachesStep(tree, entry, f, p);
      }
    }
  }

  /** Collects the graph, or fails because the entry cannot be read. It ends on every tree,
      whatever cycles and repeated imports it has. */
  method CollectRelativeImportGraph(tree: Tree, entryPath: Path) returns (r: Option<seq<Path>>)
    ensures r.None? <==> entryPath !in tree
    ensures r.Some? ==> IsGraph(tree, entryPath, r.value)
  {
    hide Imports, Reaches;
    var discovered: seq<Path> := [];
    var queue := [entryPath];
    if entryPath in tree { ReachesItself(tree, entryPath); }
    while |queue| > 0
      invariant entryPath !in tree ==> discovered == [] && queue == [entryPath]
      invariant forall p :: p in discovered ==> p in tree
      invariant entryPath in tree ==> forall p :: p in queue ==> p in tree
      invariant entryPath in tree ==> forall p :: p in discovered || p in queue ==> Reaches(tree, entryPath, p)
      invariant entryPath in discovered || entryPath in queue
      invariant forall f, g :: f in discovered && g in Imports(tree, f) ==> g in discovered || g in queue
      invariant Distinct(discovered)
      decreases |tree.Keys - SetOf(discovered)|, |queue|
    {
      ghost var before := queue;
      var currentPath := queue[|queue| - 1];
      queue := queue[..|queue| - 1];
      assert forall p :: p in before <==> p in queue || p == currentPath;
      if currentPath in discovered {
        continue;
      }
      if currentPath !in tree {
        return None;
      }
      assert entryPath in tree;
      ghost var left := tree.Keys - SetOf(discovered);
      discovered := discovered + [currentPath];
      assert tree.Keys - SetOf(discovered) == left - {currentPath};
      ImportsFacts(tree, entryPath, currentPath);
      queue := PushTargets(tree, currentPath, queue);
    }
    ClosedHoldsReachable(tree, entryPath, discovered);
    return Some(discovered);
  }
}
