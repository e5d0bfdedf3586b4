/** Collecting files below a directory with an explicit stack (scripts/check-file-utils.ts). */
module DirectoryWalk {
  import opened JsText

  /** What `readdirSync` reports: a directory may refuse to be read, and an entry may be
      neither a file nor a directory. */
  datatype Node = Dir(entries: seq<Entry>) | Unreadable | File | Other
  datatype Entry = Entry(name: string, node: Node)

  /** The starting directory followed by entry names. */
  type Path = seq<string>

  type Filter = Path -> bool

  predicate IsDirectory(n: Node) { n.Dir? || n.Unreadable? }

  /** A directory entry the walk descends into. */
  predicate Entered(e: Entry, skip: set<string>) { IsDirectory(e.node) && e.name !in skip }

  // ---------- the order of the explicit stack ----------

  function Files(path: Path, es: seq<Entry>, wanted: Filter): seq<Path> {
    if es == [] then []
    else (if es[0].node.File? && wanted(path + [es[0].name]) then [path + [es[0].name]] else [])
         + Files(path, es[1..], wanted)
  }

  /** A directory's own files, then its subdirectories, last first. */
  function Walk(path: Path, node: Node, wanted: Filter, skip: set<string>): seq<Path>
    decreases node, 1
  {
    if node.Dir? then Files(path, node.entries, wanted) + Below(path, node.entries, wanted, skip) else []
  }

  function Below(path: Path, es: seq<Entry>, wanted: Filter, skip: set<string>): seq<Path>
    decreases es, 0
  {
    if es == [] then []
    else Below(path, es[1..], wanted, skip)
         + if Entered(es[0], skip) then Walk(path + [es[0].name], es[0].node, wanted, skip) else []
  }

  datatype Task = Task(path: Path, node: Node)

  /** What the stack still produces, its top being the last element. */
  ghost function Pending(stack: seq<Task>, wanted: Filter, skip: set<string>): seq<Path> {
    if stack == [] then []
    else
      var top := stack[|stack| - 1];
      Walk(top.path, top.node, wanted, skip) + Pending(stack[..|stack| - 1], wanted, skip)
  }

  /** Termination measure: directory entries still on the stack. */
  ghost function Size(node: Node): nat
    decreases node, 1
  {
    if node.Dir? then 1 + SizeAll(node.entries) else 1
  }

  ghost function SizeAll(es: seq<Entry>): nat
    decreases es, 0
  {
    if es == [] then 0 else Size(es[0].node) + SizeAll(es[1..])
  }

  ghost function Weight(stack: seq<Task>): nat {
    if stack == [] then 0 else Weight(stack[..|stack| - 1]) + Size(stack[|stack| - 1].node)
  }

  /** The tasks that reading a directory pushes. */
  ghost function Pushes(path: Path, es: seq<Entry>, skip: set<string>): seq<Task> {
    if es == [] then []
    else (if Entered(es[0], skip) then [Task(path + [es[0].name], es[0].node)] else [])
         + Pushes(path, es[1..], skip)
  }

  lemma {:induction false} PushOne(stack: seq<Task>, t: Task, wanted: Filter, skip: set<string>)
    ensures Pending(stack + [t], wanted, skip) == Walk(t.path, t.node, wanted, skip) + Pending(stack, wanted, skip)
    ensures Weight(stack + [t]) == Weight(stack) + Size(t.node)
  {}

  lemma {:induction false} FirstEntry(path: Path, es: seq<Entry>, wanted: Filter, skip: set<string>)
    requires es != []
    ensures var t := Task(path + [es[0].name], es[0].node);
            if Entered(es[0], skip) then
              && Pushes(path, es, skip) == [t] + Pushes(path, es[1..], skip)
              && Below(path, es, wanted, skip)
                 == Below(path, es[1..], wanted, skip) + Walk(t.path, t.node, wanted, skip)
            else
              && Pushes(path, es, skip) == Pushes(path, es[1..], skip)
              && Below(path, es, wanted, skip) == Below(path, es[1..], wanted, skip)
    ensures SizeAll(es) == Size(es[0].node) + SizeAll(es[1..])
  {}

  lemma {:induction false} PushesPend(stack: seq<Task>, path: Path, es: seq<Entry>, wanted: Filter, skip: set<string>)
    ensures Pending(stack + Pushes(path, es, skip), wanted, skip)
         == Below(path, es, wanted, skip) + Pending(stack, wanted, skip)
    ensures Weight(stack + Pushes(path, es, skip)) <= Weight(stack) + SizeAll(es)
    decreases es
  {
    if es == [] {
      assert stack + Pushes(path, es, skip) == stack;
    } else {
      hide Walk, Size, Entered, Below, Pushes, Pending, Weight, SizeAll;
      FirstEntry(path, es, wanted, skip);
      if Entered(es[0], skip) {
        var t := Task(path + [es[0].name], es[0].node);
        PushOne(stack, t, wanted, skip);
        PushesPend(stack + [t], path, es[1..], wanted, skip);
        Regroup(stack, [t], Pushes(path, es[1..], skip));
        Regroup(Below(path, es[1..], wanted, skip), Walk(t.path, t.node, wanted, skip), Pending(stack, wanted, skip));
      } else {
        PushesPend(stack, path, es[1..], wanted, skip);
      }
    }
  }

  lemma {:induction false} FilesAppend(path: Path, es: seq<Entry>, e: Entry, wanted: Filter)
    ensures Files(path, es + [e], wanted) ==
            Files(path, es, wanted) + Files(path, [e], wanted)
  {
    if es == [] {
      assert es + [e] == [e];
    } else {
      FilesAppend(path, es[1..], e, wanted);
      assert (es + [e])[1..] == es[1..] + [e];
    }
  }

  lemma {:induction false} PushesAppend(path: Path, es: seq<Entry>, e: Entry, skip: set<string>)
    ensures Pushes(path, es + [e], skip) == Pushes(path, es, skip) + Pushes(path, [e], skip)
  {
    if es == [] {
      assert es + [e] == [e];
    } else {
      PushesAppend(path, es[1..], e, skip);
      assert (es + [e])[1..] == es[1..] + [e];
    }
  }

  lemma {:induction false} OneEntry(path: Path, e: Entry, wanted: Filter, skip: set<string>)
    ensures Files(path, [e], wanted) == if e.node.File? && wanted(path + [e.name]) then [path + [e.name]] else []
    ensures Pushes(path, [e], skip) == if Entered(e, skip) then [Task(path + [e.name], e.node)] else []
  {}

  /** The inner loop: the wanted files of one directory, and the directories to visit. */
  method ReadEntries(path: Path, es: seq<Entry>, wanted: Filter, skip: set<string>)
    returns (found: seq<Path>, pushed: seq<Task>)
    ensures found == Files(path, es, wanted) && pushed == Pushes(path, es, skip)
  {
    found, pushed := [], [];
    for i := 0 to |es|
      invariant found == Files(path, es[..i], wanted) && pushed == Pushes(path, es[..i], skip)
    {
      var fullPath := path + [es[i].name];
      assert es[..i + 1] == es[..i] + [es[i]];
      FilesAppend(path, es[..i], es[i], wanted);
      PushesAppend(path, es[..i], es[i], skip);
      OneEntry(path, es[i], wanted, skip);
      if IsDirectory(es[i].node) {
        if es[i].name in skip {
          continue;
        }
        pushed := pushed + [Task(fullPath, es[i].node)];
        continue;
      }
      if es[i].node.File? && wanted(fullPath) {
        found := found + [fullPath];
      }
    }
    assert es[..|es|] == es;
  }

  /** Files found so far, then those the stack still produces. */
  ghost function Remaining(files: seq<Path>, stack: seq<Task>, wanted: Filter, skip: set<string>): seq<Path> {
    files + Pending(stack, wanted, skip)
  }

  lemma {:induction false} StartOf(t: Task, wanted: Filter, skip: set<string>)
    ensures Remaining([], [t], wanted, skip) == Walk(t.path, t.node, wanted, skip)
  {
    PushOne([], t, wanted, skip);
    assert [] + [t] == [t];
  }

  lemma {:induction false} StopAt(files: seq<Path>, wanted: Filter, skip: set<string>)
    ensures Remaining(files, [], wanted, skip) == files
  {}

  /** One turn of the outer loop: the measure drops, the outcome stays. */
  lemma {:induction false} PopStep(files: seq<Path>, stack: seq<Task>, wanted: Filter, skip: set<string>)
    requires stack != []
    ensures var top, rest := stack[|stack| - 1], stack[..|stack| - 1];
            && Weight(rest) < Weight(stack)
            && (!top.node.Dir? ==> Remaining(files, stack, wanted, skip) == Remaining(files, rest, wanted, skip))
            && (top.node.Dir? ==>
                  var found, next := Files(top.path, top.node.entries, wanted),
                                     rest + Pushes(top.path, top.node.entries, skip);
                  && Weight(next) < Weight(stack)
                  && Remaining(files, stack, wanted, skip) == Remaining(files + found, next, wanted, skip))
  {
    hide Below, Files;
    var top, rest := stack[|stack| - 1], stack[..|stack| - 1];
    assert stack == rest + [top];
    PushOne(rest, top, wanted, skip);
    if top.node.Dir? {
      PushesPend(rest, top.path, top.node.entries, wanted, skip);
    }
  }

  lemma {:induction false} PushesExtend(path: Path, es: seq<Entry>, skip: set<string>)
    ensures forall t :: t in Pushes(path, es, skip) ==> |t.path| > |path| && t.path[..|path|] == path
  {
    if es != [] {
      PushesExtend(path, es[1..], skip);
    }
  }

  method CollectFilesSync(rootDir: string, root: Node, wanted: Filter, skip: set<string>)
    returns (files: seq<Path>)
    ensures files == if rootDir == "" then [] else Walk([rootDir], root, wanted, skip)
  {
    files := [];
    var stack := [Task([rootDir], root)];
    StartOf(stack[0], wanted, skip);
    while |stack| > 0
      invariant forall t :: t in stack ==> |t.path| >= 1 && t.path[0] == rootDir
      invariant rootDir == "" ==> files == [] && (stack == [] || stack == [Task([rootDir], root)])
      invariant rootDir != "" ==> Remaining(files, stack, wanted, skip) == Walk([rootDir], root, wanted, skip)
      decreases Weight(stack)
    {
      hide Remaining, Walk, Pushes, Files;
      var current := stack[|stack| - 1];
      PopStep(files, stack, wanted, skip);
      stack := stack[..|stack| - 1];
      if current.path == [""] || !current.node.Dir? {
        continue;
      }
      var found, pushed := ReadEntries(current.path, current.node.entries, wanted, skip);
      PushesExtend(current.path, current.node.entries, skip);
      files := files + found;
      stack := stack + pushed;
    }
    StopAt(files, wanted, skip);
  }

  // ---------- which files ----------

  /** The names lead from the directory to a file, through directories that are read. */
  ghost predicate Leads(node: Node, names: seq<string>, skip: set<string>)
    decreases |names|
  {
    && node.Dir? && names != []
    && exists e :: e in node.entries && e.name == names[0]
         && if |names| == 1 then e.node.File? else Entered(e, skip) && Leads(e.node, names[1..], skip)
  }

  lemma {:induction false} WalkStaysBelow(path: Path, node: Node, wanted: Filter, skip: set<string>)
    ensures forall p :: p in Walk(path, node, wanted, skip) ==> |p| > |path| && p[..|path|] == path
    decreases node, 1
  {
    if node.Dir? {
      FilesFind(path, node.entries, wanted);
      BelowStaysBelow(path, node.entries, wanted, skip);
    }
  }

  lemma {:induction false} BelowStaysBelow(path: Path, es: seq<Entry>, wanted: Filter, skip: set<string>)
    ensures forall p :: p in Below(path, es, wanted, skip) ==> |p| > |path| + 1 && p[..|path|] == path
    decreases es, 0
  {
    if es != [] {
      BelowStaysBelow(path, es[1..], wanted, skip);
      var next := path + [es[0].name];
      WalkStaysBelow(next, es[0].node, wanted, skip);
      assert forall p: Path :: |p| > |next| && p[..|next|] == next ==> p[..|path|] == p[..|next|][..|path|] == path;
    }
  }

  lemma {:induction false} FilesFind(path: Path, es: seq<Entry>, wanted: Filter)
    ensures forall p :: p in Files(path, es, wanted) <==>
              exists e :: e in es && e.node.File? && p == path + [e.name] && wanted(p)
  {
    if es != [] {
      FilesFind(path, es[1..], wanted);
      assert es == [es[0]] + es[1..];
    }
  }

  lemma {:induction false} BelowFinds(path: Path, es: seq<Entry>, wanted: Filter, skip: set<string>, p: Path)
    ensures p in Below(path, es, wanted, skip) <==>
              exists e :: e in es && Entered(e, skip) && p in Walk(path + [e.name], e.node, wanted, skip)
  {
    if es != [] {
      hide Walk, Entered;
      BelowFinds(path, es[1..], wanted, skip, p);
      assert es == [es[0]] + es[1..];
    }
  }

  lemma {:induction false} StepDown(path: Path, e: Entry, names: seq<string>, wanted: Filter, skip: set<string>)
    requires names != []
    ensures path + names in Walk(path + [e.name], e.node, wanted, skip) ==> |names| > 1 && e.name == names[0]
    ensures e.name == names[0] ==> (path + [e.name]) + names[1..] == path + names
  {
    var p, next := path + names, path + [e.name];
    WalkStaysBelow(next, e.node, wanted, skip);
    assert p[|path|] == names[0];
    if p in Walk(next, e.node, wanted, skip) {
      assert p[..|next|][|path|] == next[|path|];
    }
  }

  lemma {:induction false} WalkSplits(path: Path, node: Node, wanted: Filter, skip: set<string>, p: Path)
    ensures p in Walk(path, node, wanted, skip) <==>
              node.Dir? && (p in Files(path, node.entries, wanted) || p in Below(path, node.entries, wanted, skip))
  {}

  /** The walk returns exactly the wanted files that names lead to, at any depth: the skipped
      names prune directories below the start, never the start itself. */
  lemma {:induction false} WalkFindsExactly(
      path: Path, node: Node, names: seq<string>, wanted: Filter, skip: set<string>)
    ensures path + names in Walk(path, node, wanted, skip) <==> Leads(node, names, skip) && wanted(path + names)
    decreases |names|
  {
    var p := path + names;
    WalkStaysBelow(path, node, wanted, skip);
    WalkSplits(path, node, wanted, skip, p);
    hide Walk, Files, Below;
    if node.Dir? && names != [] {
      var es := node.entries;
      FilesFind(path, es, wanted);
      BelowFinds(path, es, wanted, skip, p);
      assert p[|path|] == names[0];
      forall e | e in es && Entered(e, skip)
        ensures p in Walk(path + [e.name], e.node, wanted, skip) <==>
                  |names| > 1 && e.name == names[0] && Leads(e.node, names[1..], skip) && wanted(p)
      {
        StepDown(path, e, names, wanted, skip);
        if |names| > 1 && e.name == names[0] {
          WalkFindsExactly(path + [e.name], e.node, names[1..], wanted, skip);
        }
      }
      assert forall e :: p == path + [e] ==> |names| == 1 && names[0] == e;
      assert |names| == 1 ==> p == path + [names[0]];
    }
  }

  // ---------- each file once ----------

  ghost predicate NoRepeats<T>(s: seq<T>) {
    forall i, j :: 0 <= i < j < |s| ==> s[i] != s[j]
  }

  /** No directory lists a name twice. */
  ghost predicate WellNamed(node: Node)
    decreases node, 1
  {
    node.Dir? ==> AllWellNamed(node.entries)
  }

  ghost predicate AllWellNamed(es: seq<Entry>)
    decreases es, 0
  {
    es != [] ==>
      && WellNamed(es[0].node) && AllWellNamed(es[1..])
      && forall e :: e in es[1..] ==> e.name != es[0].name
  }

  lemma {:induction false} JoinNoRepeats<T>(a: seq<T>, b: seq<T>)
    requires NoRepeats(a) && NoRepeats(b) && forall x :: x in a ==> x !in b
    ensures NoRepeats(a + b)
  {
    var s := a + b;
    forall i, j | 0 <= i < j < |s| ensures s[i] != s[j] {
      assert i < |a| ==> s[i] in a;
      assert j >= |a| ==> s[j] in b;
    }
  }

  lemma {:induction false} FilesListOnce(path: Path, es: seq<Entry>, wanted: Filter)
    requires AllWellNamed(es)
    ensures NoRepeats(Files(path, es, wanted))
  {
    if es != [] {
      FilesListOnce(path, es[1..], wanted);
      FilesFind(path, es[1..], wanted);
      var p := path + [es[0].name];
      assert forall n: string :: path + [n] == p ==> (path + [n])[|path|] == p[|path|];
      if es[0].node.File? && wanted(p) {
        JoinNoRepeats([p], Files(path, es[1..], wanted));
      } else {
        assert [] + Files(path, es[1..], wanted) == Files(path, es[1..], wanted);
      }
    }
  }

  lemma {:induction false} WalkListsOnce(path: Path, node: Node, wanted: Filter, skip: set<string>)
    requires WellNamed(node)
    ensures NoRepeats(Walk(path, node, wanted, skip))
    decreases node, 1
  {
    if node.Dir? {
      FilesListOnce(path, node.entries, wanted);
      BelowListsOnce(path, node.entries, wanted, skip);
      FilesFind(path, node.entries, wanted);
      BelowStaysBelow(path, node.entries, wanted, skip);
      JoinNoRepeats(Files(path, node.entries, wanted), Below(path, node.entries, wanted, skip));
    }
  }

  lemma {:induction false} BelowListsOnce(path: Path, es: seq<Entry>, wanted: Filter, skip: set<string>)
    requires AllWellNamed(es)
    ensures NoRepeats(Below(path, es, wanted, skip))
    decreases es, 0
  {
    if es != [] {
      hide Entered;
      var next, rest := path + [es[0].name], Below(path, es[1..], wanted, skip);
      BelowListsOnce(path, es[1..], wanted, skip);
      if Entered(es[0], skip) {
        var first := Walk(next, es[0].node, wanted, skip);
        WalkListsOnce(next, es[0].node, wanted, skip);
        forall p | p in rest ensures p !in first {
          BelowFinds(path, es[1..], wanted, skip, p);
          var e :| e in es[1..] && Entered(e, skip) && p in Walk(path + [e.name], e.node, wanted, skip);
          WalkStaysBelow(path + [e.name], e.node, wanted, skip);
          WalkStaysBelow(next, es[0].node, wanted, skip);
          assert p[..|next|][|path|] == e.name;
        }
        JoinNoRepeats(rest, first);
      } else {
        assert rest + [] == rest;
      }
    }
  }

  // ---------- the plain recursion ----------

  /** The obvious traversal: entries in the order they are listed. */
  ghost function Recursive(path: Path, es: seq<Entry>, wanted: Filter, skip: set<string>): seq<Path>
    decreases es
  {
    if es == [] then []
    else
      var p, n := path + [es[0].name], es[0].node;
      (if n.Dir? && es[0].name !in skip then Recursive(p, n.entries, wanted, skip)
       else if n.File? && wanted(p) then [p]
       else [])
      + Recursive(path, es[1..], wanted, skip)
  }

  /** Up to order, the explicit stack visits what the recursion visits. */
  lemma {:induction false} StackVisitsLikeRecursion(path: Path, es: seq<Entry>, wanted: Filter, skip: set<string>)
    ensures multiset(Files(path, es, wanted)) + multiset(Below(path, es, wanted, skip))
         == multiset(Recursive(path, es, wanted, skip))
    ensures multiset(Walk(path, Dir(es), wanted, skip)) == multiset(Recursive(path, es, wanted, skip))
    decreases es
  {
    if es != [] {
      StackVisitsLikeRecursion(path, es[1..], wanted, skip);
      var n := es[0].node;
      if n.Dir? {
        StackVisitsLikeRecursion(path + [es[0].name], n.entries, wanted, skip);
        assert n == Dir(n.entries);
      }
    }
  }
}
