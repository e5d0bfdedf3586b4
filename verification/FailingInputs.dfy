/** Concrete inputs on which a promise fails, one for each exact condition proved in the
    other modules. */
module FailingInputs {
  import opened JsText
  import opened PosixPaths
  import opened CommonAncestor
  import opened ImportGraph
  import opened ModuleCopy
  import Foundry = FoundryTokenCache
  import Bedrock = BedrockDiscovery
  import Pair = PairNotify
  import Phone = PhoneControl
  import Names = OrderedNames
  import Chunker = OutboundChunker

  // ---------- the common ancestor ----------

  lemma {:induction false} OneAbove(first: Path, b: Path)
    requires b < first
    ensures TopIsListed(first, [b]) && Depth(first, [b]) == |b| + 1
    ensures !CommonAncestorOf(first[..|b| + 1], first, [b])
  {
    hide Depth, CommonLength;
    assert b in [b] && forall x :: x in [b] ==> x == b;
    TopIsMissed(first, [b], b);
  }

  /** /a is listed and lies above /a/b/c: the result is /a/b, which is not above /a. */
  lemma {:induction false} AncestorTooDeep()
    ensures var first, rest := ["a", "b", "c"], [["a"]];
            && TopIsListed(first, rest)
            && first[..Depth(first, rest)] == ["a", "b"] && !CommonAncestorOf(["a", "b"], first, rest)
  {
    var first, b := ["a", "b", "c"], ["a"];
    assert first == b + ["b", "c"] && first[..2] == ["a", "b"];
    hide *;
    OneAbove(first, b);
  }

  // ---------- the copy of an import graph ----------

  const DOTTED := ["r", "pkg.v2"]
  const MODULE := ["r", "pkg.v2", "m.ts"]
  const HELPER := ["r", "a.ts"]
  const INDEX := ["r", "index.ts"]
  const COPY := ["r", ".coreblow-config-doc-cache", "pkg.v2-Xy12"]

  /** A package in a directory called "pkg.v2", with two files beside that directory. */
  const DISK: Tree := map[DOTTED + ["package.json"] := [], MODULE := [["..", "a"]], HELPER := [["."]], INDEX := []]

  /** What the proofs below need to know of the disk. */
  lemma {:induction false} DiskHolds()
    ensures MODULE in DISK && HELPER in DISK && INDEX in DISK
    ensures forall p :: p in DISK ==> |p| >= 2 && 4 <= |p[1]| < |COPY[1]| && Resolved(p)
    ensures forall p :: p in DISK ==> |p| <= 3 && (|p| == 3 <==> |p[1]| == 6)
  {}

  lemma {:induction false} DiskIsGood()
    ensures GoodTree(DISK)
  {
    DiskHolds();
    hide DISK, MODULE, HELPER, INDEX;
    assert forall p: Path, q: Path :: p < q && |p| >= 2 ==> |p| < |q| && p[1] == q[1];
  }

  lemma {:induction false} CandidateStaysNear(base: Path, c: Path)
    requires |base| >= 3 && c in ResolveImportCandidates(base)
    ensures |c| >= 3 && c[1] == base[1]
  {
    hide ResolveImportCandidates, EXTENSIONS, Extension;
    CandidatesAreNear(base);
    assert c == base || Dirname(c) == Dirname(base) || Dirname(c) == base;
    assert Dirname(base)[1] == base[1];
    assert c != base ==> Dirname(c)[1] == c[1];
  }

  lemma {:induction false} CopyIsFresh()
    ensures Fresh(DISK, COPY)
  {
    DiskHolds();
    hide ResolveImportCandidates, EXTENSIONS, DISK;
    forall c | c in ResolveImportCandidates(COPY) ensures c !in DISK {
      CandidateStaysNear(COPY, c);
    }
    assert forall p: Path :: COPY <= p ==> |p| >= 2 && p[1] == COPY[1];
  }

  lemma {:induction false} CommonWithDotted(p: Path, n: nat)
    requires |p| >= 2 && p[0] == "r" && n == if p[1] == DOTTED[1] then 2 else 1
    ensures CommonLength(DOTTED, p) == n && Cut(DOTTED, p) == n
  {
  }

  lemma {:induction false} RootOfDotted()
    ensures DOTTED[..Depth(DOTTED, [MODULE, HELPER, INDEX])] == ["r"]
  {
    var three, two, one := [MODULE, HELPER, INDEX], [MODULE, HELPER], [MODULE];
    assert three[..2] == two && two[..1] == one && one[..0] == [];
    assert HELPER[1] != DOTTED[1] && INDEX[1] != DOTTED[1];
    CommonWithDotted(MODULE, 2);
    CommonWithDotted(HELPER, 1);
    CommonWithDotted(INDEX, 1);
    hide Cut;
    assert Depth(DOTTED, one[..0]) == 2;
    assert Depth(DOTTED, one) == 2;
    assert Depth(DOTTED, two) == 1;
    assert Depth(DOTTED, three) == 1;
    assert DOTTED[..1] == ["r"];
  }

  lemma {:induction false} HelperFindsIndex()
    ensures ResolveRelativeImportPath(DISK, HELPER, ["."]) == Some(INDEX)
  {
    var root := ["r"];
    assert Dirname(HELPER) == root;
    assert Resolve(root, ["."]) == Resolve(root, ["."][1..]) == root;
    assert "r"[..0] == "" && LastDot("r") == -1;
    AddedFirst(root, EXTENSIONS, DISK);
    assert Dirname(root) == [] && |WithName(root, "r" + ".ts")| == 1;
    assert EXTENSIONS[0] == ".ts" && "index" + ".ts" == "index.ts";
    assert root + ["index.ts"] == INDEX;
    assert ResolveImportCandidates(root) == [root] + Added(root, EXTENSIONS);
    DiskHolds();
    hide DISK, Added;
    assert FirstFile([root] + Added(root, EXTENSIONS), DISK) == FirstFile(Added(root, EXTENSIONS), DISK) by {
      assert ([root] + Added(root, EXTENSIONS))[1..] == Added(root, EXTENSIONS);
    }
  }

  lemma {:induction false} FoundBeside(base: Path)
    requires base == ["r", "a"] && base !in DISK && HELPER in DISK && Extension(Name(base)) == ""
    ensures FirstFile(ResolveImportCandidates(base), DISK) == Some(HELPER)
  {
    hide DISK, Added;
    AddedFirst(base, EXTENSIONS, DISK);
    assert Dirname(base) == ["r"] && "a" + ".ts" == "a.ts" && WithName(base, "a.ts") == HELPER;
    assert EXTENSIONS[0] == ".ts";
    assert ResolveImportCandidates(base) == [base] + Added(base, EXTENSIONS);
    assert ([base] + Added(base, EXTENSIONS))[1..] == Added(base, EXTENSIONS);
  }

  lemma {:induction false} ModuleFindsHelper()
    ensures ResolveRelativeImportPath(DISK, MODULE, ["..", "a"]) == Some(HELPER)
  {
    hide DISK, Added;
    var base := ["r", "a"];
    assert Dirname(MODULE) == DOTTED && Dirname(DOTTED) == ["r"];
    assert ["..", "a"][1..] == ["a"] && ["a"][1..] == [];
    assert Resolve(DOTTED, ["..", "a"]) == Resolve(["r"], ["a"]) == base;
    assert "a"[..0] == "" && LastDot("a") == -1;
    DiskHolds();
    assert |base[1]| == 1;
    FoundBeside(base);
  }

  lemma {:induction false} OneTarget(tree: Tree, f: Path, s: Specifier, g: Path)
    requires f in tree && tree[f] == [s] && ResolveRelativeImportPath(tree, f, s) == Some(g)
    ensures Imports(tree, f) == [g]
  {
    hide ResolveRelativeImportPath;
    assert [s][1..] == [];
    assert Targets(tree, f, []) == [];
  }

  lemma {:induction false} ThreeInARow(tree: Tree, a: Path, b: Path, c: Path)
    requires a in tree && Imports(tree, a) == [b] && Imports(tree, b) == [c] && Imports(tree, c) == []
    requires a != b && b != c && a != c
    ensures IsGraph(tree, a, [a, b, c])
  {
    hide Imports, Reaches;
    ReachesItself(tree, a);
    ReachesStep(tree, a, a, b);
    ReachesStep(tree, a, b, c);
    ClosedHoldsReachable(tree, a, [a, b, c]);
  }

  lemma {:induction false} DiskImports()
    ensures MODULE in DISK && Imports(DISK, MODULE) == [HELPER]
    ensures Imports(DISK, HELPER) == [INDEX] && Imports(DISK, INDEX) == []
    ensures MODULE != HELPER && HELPER != INDEX && MODULE != INDEX
  {
    ModuleFindsHelper();
    HelperFindsIndex();
    hide ResolveRelativeImportPath;
    OneTarget(DISK, MODULE, ["..", "a"], HELPER);
    OneTarget(DISK, HELPER, ["."], INDEX);
    assert |MODULE| != |HELPER| && |HELPER[1]| != |INDEX[1]|;
  }

  lemma {:induction false} GraphOfModule()
    ensures IsGraph(DISK, MODULE, [MODULE, HELPER, INDEX])
  {
    DiskImports();
    hide *;
    ThreeInARow(DISK, MODULE, HELPER, INDEX);
  }

  lemma {:induction false} DotIsFound(name: string, i: nat)
    requires i < |name| && name[i] == '.'
    ensures LastDot(name) >= i
  {
    if name[|name| - 1] != '.' { DotIsFound(name[..|name| - 1], i); }
  }

  lemma {:induction false} DottedRootHolds()
    ensures RootHolds(["r"], [MODULE, HELPER, INDEX])
    ensures forall f :: f in [MODULE, HELPER, INDEX] ==> f in DISK && ["r"] <= f
  {}

  lemma {:induction false} CopyNameHasDot()
    ensures Extension(Name(COPY)) != ""
  {
    DotIsFound("pkg.v2-Xy12", 3);
    assert Name(COPY) == "pkg.v2-Xy12";
  }

  lemma {:induction false} DotMeansHere(dir: Path, name: string)
    ensures Resolve(Dirname(dir + [name]), ["."]) == dir
  {
    assert Dirname(dir + [name]) == dir && ["."][1..] == [];
    assert Resolve(dir, ["."]) == Resolve(dir, ["."][1..]);
  }

  lemma {:induction false} DotFindsNothing(tree: Tree, files: seq<Path>, root: Path, iso: Path, name: string)
    requires GoodTree(tree) && Fresh(tree, iso) && Extension(Name(iso)) != ""
    requires RootHolds(root, files) && forall f :: f in files ==> f in tree && root <= f
    ensures ResolveRelativeImportPath(CopyAll(tree, files, root, iso), iso + [name], ["."]) == None
  {
    hide Fresh, ResolveImportCandidates, Copied, CopyAll, GoodTree, RootHolds, Extension;
    CopyAllCopies(tree, files, root, iso);
    RootFinds(tree, CopyAll(tree, files, root, iso), files, root, iso);
    DotMeansHere(iso, name);
  }

  /** The temporary directory inherits the dot of "pkg.v2", so index files are not tried there:
      the copied a.ts no longer finds index.ts. */
  lemma {:induction false} DottedNameLosesIndex()
    ensures var files := [MODULE, HELPER, INDEX];
            && GoodTree(DISK) && Fresh(DISK, COPY) && (forall f :: f in files ==> f in DISK)
            && IsGraph(DISK, MODULE, files)
            && DOTTED[..Depth(DOTTED, files)] == ["r"]
            && ResolveRelativeImportPath(DISK, HELPER, ["."]) == Some(INDEX)
            && ResolveRelativeImportPath(CopyAll(DISK, files, ["r"], COPY), COPY + ["a.ts"], ["."]) == None
  {
    DiskIsGood();
    CopyIsFresh();
    RootOfDotted();
    HelperFindsIndex();
    GraphOfModule();
    DottedRootHolds();
    CopyNameHasDot();
    hide *;
    DotFindsNothing(DISK, [MODULE, HELPER, INDEX], ["r"], COPY, "a.ts");
  }

  /** Seen from /r/x, "../../a" is /a, above the root /r; from the copy it is not /c/a. */
  lemma {:induction false} LeavesTheRoot()
    ensures !Within(["r"], ["r", "x"], ["..", "..", "a"])
    ensures Resolve(["r", "x"], ["..", "..", "a"]) == ["a"]
    ensures Resolve(Move(["r"], ["c", "t"], ["r", "x"]), ["..", "..", "a"]) == ["c", "a"]
  {
    var s := ["..", "..", "a"];
    assert s[1..] == ["..", "a"] && ["..", "a"][1..] == ["a"] && ["a"][1..] == [];
    assert Dirname(["r", "x"]) == ["r"] && Dirname(["r"]) == [];
    assert Move(["r"], ["c", "t"], ["r", "x"]) == ["c", "t", "x"];
    assert Dirname(["c", "t", "x"]) == ["c", "t"] && Dirname(["c", "t"]) == ["c"];
  }

  // ---------- the caches ----------

  /** Moving the colon between the parts gives the same key and another request. */
  lemma {:induction false} CollidingKeys()
    ensures var p, q := Foundry.Params(Some("a:b"), Some("c")), Foundry.Params(Some("a"), Some("b:c"));
            Foundry.CacheKey(p) == Foundry.CacheKey(q) && Foundry.AzArgs(p) != Foundry.AzArgs(q)
  {
    assert "a:b" + ":" + "c" == "a" + ":" + "b:c";
    assert |"a:b"| != |"a"|;
    assert Foundry.AzArgs(Foundry.Params(Some("a:b"), Some("c")))[1] == "a:b";
    assert Foundry.AzArgs(Foundry.Params(Some("a"), Some("b:c")))[1] == "a";
  }

  /** Two calls share a request that fails: the first gets an empty list, the second an error. */
  lemma {:induction false} JoinerIsRejected()
    ensures var c := Bedrock.Config(None, None, None, None);
            var es := [Bedrock.Call("r", c, 0), Bedrock.Call("r", c, 1), Bedrock.Respond(0, None),
                       Bedrock.OwnerResumes(0), Bedrock.JoinerResumes(1)];
            var callers := Bedrock.Run(es).callers;
            && |callers| == 2 && callers[0].Done? && callers[1].Done?
            && callers[0].reply == Bedrock.FromFlight(0, Some([])) && callers[1].reply == Bedrock.FromFlight(0, None)
  {
    var c := Bedrock.Config(None, None, None, None);
    var e0, e1 := Bedrock.Call("r", c, 0), Bedrock.Call("r", c, 1);
    var e2, e3, e4 := Bedrock.Respond(0, None), Bedrock.OwnerResumes(0), Bedrock.JoinerResumes(1);
    assert Bedrock.IntervalSeconds(c) > 0;
    assert [e0, e1, e2, e3, e4] == [] + [e0] + [e1] + [e2] + [e3] + [e4];
    Bedrock.RunOne([], e0);
    Bedrock.RunOne([] + [e0], e1);
    Bedrock.RunOne([] + [e0] + [e1], e2);
    Bedrock.RunOne([] + [e0] + [e1] + [e2], e3);
    Bedrock.RunOne([] + [e0] + [e1] + [e2] + [e3], e4);
  }

  // ---------- pairing notifications ----------

  const PADDED := Pair.Context("telegram", Some("7"), None, None, Some(" a"), Pair.NoThread)

  /** With the account id " a", `off` does not take back `on`, and `on` twice lists the chat twice. */
  lemma {:induction false} PaddedAccount()
    ensures var on, off := Pair.Told(PADDED, Pair.On, 1), Pair.Told(PADDED, Pair.Off, 2);
            && Pair.ReadNotifyState(Pair.Step(Pair.Step(None, on), off)) != Pair.ReadNotifyState(None)
            && !Pair.DistinctKeys(Pair.ReadNotifyState(Pair.Step(Pair.Step(None, on), on)).subscribers)
  {
    var t := Pair.ResolveNotifyTarget(PADDED).value;
    assert Trimmed("7") && Trim("7") == "7";
    assert t.accountId == Some(" a") && !Trimmed(" a");
    Pair.KeyStableExactly(t);
    Pair.EmptyFile();
    hide Pair.ReadNotifyState, Pair.Step, Pair.ResolveNotifyTarget, Pair.KeyStable;
    Pair.OffUndoesOnExactly(None, PADDED, Pair.On, 1, 2);
    Pair.TwiceIsListedOnceExactly(None, PADDED, Pair.On, 1, 1);
  }

  const CHAT := Pair.Subscriber(Pair.Target("7", None, Pair.NoThread), Pair.Persistent, 0)

  lemma {:induction false} ChatIsLoaded()
    ensures Pair.ReadNotifyState(Some(Pair.State([CHAT], map[]))) == Pair.State([CHAT], map[])
  {
    assert Trimmed("7") && Trim("7") == "7";
    Pair.NormalizingOnce(CHAT);
    assert Pair.NormalizeSubscribers([CHAT]) == Pair.NormalizeSubscriber(CHAT) + Pair.NormalizeSubscribers([]);
  }

  lemma {:induction false} FirstRound(ok: Pair.Oracle)
    requires ok(0, 0)
    ensures var s, pending := Pair.State([CHAT], map[]), [Pair.Request(" ", None)];
            && Pair.Sends(s, pending, 1, ok) == [Pair.Send(" ", CHAT, true)]
            && Pair.Ticked(s, pending, 1, ok).subscribers == [CHAT]
  {
    var s, pending := Pair.State([CHAT], map[]), [Pair.Request(" ", None)];
    assert Pair.Pruned(map[], pending, 1) == map[];
    var x := Pair.Send(" ", CHAT, true);
    assert Pair.Round([CHAT], pending[0], 0, ok, 0) == [];
    assert Pair.Round([CHAT], pending[0], 0, ok, 1) == [x];
    assert x in [x];
    assert Pair.Polled(s, pending, 1, ok, 0) == Pair.Progress(map[], []);
    assert Pair.Polled(s, pending, 1, ok, 1).sends == [x];
    assert Pair.Served([x]) == {};
    Pair.WithoutShrinks([CHAT], {});
  }

  /** A request with the id " " is announced by one poll and again by the next. */
  lemma {:induction false} BlankIdRepeats(ok: Pair.Oracle)
    requires ok(0, 0)
    ensures var file, first := Some(Pair.State([CHAT], map[])), Pair.Poll([Pair.Request(" ", None)], 1, ok);
            var again := Pair.Poll([Pair.Request(" ", None)], 2, ok);
            && (exists x :: x in Pair.Sent(file, first) && x.ok && x.requestId == " ")
            && (exists z :: z in Pair.Sent(Pair.Step(file, first), again) && z.requestId == " ")
  {
    var file, first := Some(Pair.State([CHAT], map[])), Pair.Poll([Pair.Request(" ", None)], 1, ok);
    var again := Pair.Poll([Pair.Request(" ", None)], 2, ok);
    ChatIsLoaded();
    FirstRound(ok);
    assert Trim(" ") == "";
    assert " " == again.pending[0].requestId;
    Pair.PollReadsBack(file, first.pending, 1, ok);
    hide Pair.ReadNotifyState, Pair.Step, Pair.Sent, Trim;
    Pair.AnnouncedAgainExactly(file, first, again, Pair.Send(" ", CHAT, true), CHAT);
  }

  /** A request with the id "constructor" is never announced: looking that up in a plain object
      always finds something. */
  lemma {:induction false} ConstructorIsNeverSent(
      file: Pair.File, pending: seq<Pair.Request>, now: int, ok: Pair.Oracle)
    ensures forall x :: x in Pair.Sent(file, Pair.Poll(pending, now, ok)) ==> x.requestId != "constructor"
  {
    assert Pair.Inherited("constructor");
    hide *;
    Pair.SendsAreJustified(file, pending, now, ok);
  }

  /** Two chats whose parts hold bars share a key. */
  lemma {:induction false} BarsCollide()
    ensures var t := Pair.Target("7|x", None, Pair.NoThread);
            var u := Pair.Target("7", Some("x"), Pair.Text("|"));
            Pair.Key(t) == Pair.Key(u) && !Pair.SameChat(t, u)
  {
    assert "7|x" + "|" + "" + "|" + "" == "7" + "|" + "x" + "|" + "|";
    assert |"7|x"| != |"7"|;
  }

  // ---------- phone commands ----------

  lemma {:induction false} CameraHasCommands()
    ensures "camera.snap" in Phone.GroupCommands(Phone.Camera)
  {
    assert "camera.snap" in Phone.CAMERA_COMMANDS;
    assert Trimmed("camera.snap") && Trim("camera.snap") == "camera.snap";
    assert "camera.snap" in Names.Names(Phone.CAMERA_COMMANDS);
  }

  /** From empty lists, arming the camera group and then the writes group leaves the camera
      commands allowed after a disarm. */
  lemma {:induction false} CameraStaysAllowed()
    ensures var s := Phone.State([], [], None);
            var once := Phone.Armed(s, Phone.Camera, Phone.GroupCommands(Phone.Camera), 0, 1);
            var twice := Phone.Armed(once, Phone.Writes, Phone.GroupCommands(Phone.Writes), 0, 1);
            Phone.Lists(Phone.Disarmed(twice)) != Phone.Lists(s)
  {
    hide Phone.Armed, Phone.Disarmed, Names.UniqSorted;
    Phone.SecondArmForgetsTheFirst(Phone.State([], [], None), Phone.Camera, Phone.Writes, 0, 1, 0, 1);
    CameraHasCommands();
  }

  // ---------- chunks ----------

  /** With a zero limit the text "x" is never used up. */
  lemma {:induction false} ZeroLimitLoops(n: nat)
    ensures |Chunker.After([120], 0, n)| > 0
  {
    var text: Text := [120];
    assert !Chunker.IsSpace(text[0]);
    Chunker.LoopEndsExactlyWhen(text, 0);
  }
}
