/** Rewriting the legacy permission flag in Claude CLI arguments
    (extensions/anthropic/cli-shared.ts). */
module PermissionArgs {
  const LEGACY_SKIP := "--dangerously-skip-permissions"
  const MODE := "--permission-mode"
  const BYPASS := "bypassPermissions"

  predicate IsInlineMode(arg: string) { MODE + "=" <= arg }

  // ---------- reading an argument list as options ----------

  datatype CliOption =
    | Legacy                    // the flag in option position
    | ModeWith(value: string)   // --permission-mode and the argument after it
    | ModeAlone                 // --permission-mode as the last argument
    | Plain(arg: string)

  function Words(o: CliOption): seq<string> {
    match o
    case Legacy => [LEGACY_SKIP]
    case ModeWith(v) => [MODE, v]
    case ModeAlone => [MODE]
    case Plain(a) => [a]
  }

  /** The option at the front of an argument list. */
  function ReadOption(args: seq<string>): (o: CliOption)
    requires args != []
    ensures 1 <= |Words(o)| <= |args|
  {
    if args[0] == LEGACY_SKIP then Legacy
    else if args[0] == MODE then (if |args| > 1 then ModeWith(args[1]) else ModeAlone)
    else Plain(args[0])
  }

  function Parse(args: seq<string>): seq<CliOption> {
    if args == [] then []
    else
      var o := ReadOption(args);
      [o] + Parse(args[|Words(o)|..])
  }

  function Unparse(os: seq<CliOption>): seq<string> {
    if os == [] then [] else Words(os[0]) + Unparse(os[1..])
  }

  /** A list of options some argument list parses to. */
  ghost predicate Proper(os: seq<CliOption>) {
    forall i :: 0 <= i < |os| ==>
      && (os[i].ModeAlone? ==> i == |os| - 1)
      && (os[i].Plain? ==> os[i].arg != LEGACY_SKIP && os[i].arg != MODE)
  }

  lemma ProperCons(o: CliOption, os: seq<CliOption>)
    requires Proper(os) && (o.ModeAlone? ==> os == [])
    requires o.Plain? ==> o.arg != LEGACY_SKIP && o.arg != MODE
    ensures Proper([o] + os)
  {}

  lemma EmptyIsProper()
    ensures Proper([])
  {}

  /** Parsing loses nothing: the options spell the arguments. */
  lemma {:induction false} ParseUnparse(args: seq<string>)
    ensures Unparse(Parse(args)) == args && Proper(Parse(args))
  {
    hide Proper;
    if args == [] {
      EmptyIsProper();
    } else {
      var o := ReadOption(args);
      var rest := args[|Words(o)|..];
      ParseUnparse(rest);
      assert args == Words(o) + rest;
      assert Parse(args) == [o] + Parse(rest);
      assert o.ModeAlone? ==> rest == [];
      ProperCons(o, Parse(rest));
    }
  }

  lemma {:induction false} UnparseParse(os: seq<CliOption>)
    requires Proper(os)
    ensures Parse(Unparse(os)) == os
  {
    if os != [] {
      assert forall i :: 0 <= i < |os[1..]| ==> os[1..][i] == os[i + 1];
      UnparseParse(os[1..]);
      var rest := Unparse(os[1..]);
      match os[0]
      case ModeWith(v) => assert ([MODE, v] + rest)[2..] == rest;
      case ModeAlone => assert os[1..] == [];
      case Legacy => assert ([LEGACY_SKIP] + rest)[1..] == rest;
      case Plain(a) => assert ([a] + rest)[1..] == rest;
    }
  }

  // ---------- the rewrite, on options ----------

  predicate SetsMode(o: CliOption) {
    o.ModeWith? || o.ModeAlone? || (o.Plain? && IsInlineMode(o.arg))
  }

  function WithoutLegacy(os: seq<CliOption>): (r: seq<CliOption>)
    ensures forall o :: o in r <==> o in os && o != Legacy
  {
    if os == [] then []
    else (if os[0].Legacy? then [] else [os[0]]) + WithoutLegacy(os[1..])
  }

  predicate SomeSetsMode(os: seq<CliOption>) {
    exists o :: o in os && SetsMode(o)
  }

  lemma SetsModeAppends(os: seq<CliOption>, o: CliOption)
    ensures SomeSetsMode(os + [o]) <==> SomeSetsMode(os) || SetsMode(o)
  {}

  predicate NeedsBypass(os: seq<CliOption>) {
    Legacy in os && !SomeSetsMode(os)
  }

  function Rewritten(os: seq<CliOption>): seq<CliOption> {
    WithoutLegacy(os) + if NeedsBypass(os) then [ModeWith(BYPASS)] else []
  }

  lemma {:induction false} UnparseAppends(a: seq<CliOption>, b: seq<CliOption>)
    ensures Unparse(a + b) == Unparse(a) + Unparse(b)
  {
    if a == [] {
      assert a + b == b;
    } else {
      assert (a + b)[1..] == a[1..] + b;
      UnparseAppends(a[1..], b);
    }
  }

  lemma {:induction false} WithoutLegacyAppends(a: seq<CliOption>, b: seq<CliOption>)
    ensures WithoutLegacy(a + b) == WithoutLegacy(a) + WithoutLegacy(b)
  {
    if a == [] {
      assert a + b == b;
    } else {
      assert (a + b)[1..] == a[1..] + b;
      WithoutLegacyAppends(a[1..], b);
    }
  }

  /** How reading one more option extends what is collected. */
  lemma CollectOne(done: seq<CliOption>, o: CliOption)
    ensures Unparse(WithoutLegacy(done + [o])) ==
            Unparse(WithoutLegacy(done)) + if o.Legacy? then [] else Words(o)
  {
    WithoutLegacyAppends(done, [o]);
    UnparseAppends(WithoutLegacy(done), WithoutLegacy([o]));
  }

  /** What the loop finds at position i. */
  lemma ReadAt(args: seq<string>, i: nat) returns (o: CliOption)
    requires i < |args|
    ensures i + |Words(o)| <= |args| && Parse(args[i..]) == [o] + Parse(args[i + |Words(o)|..])
    ensures o == if args[i] == LEGACY_SKIP then Legacy
                 else if args[i] != MODE then Plain(args[i])
                 else if i + 1 < |args| then ModeWith(args[i + 1]) else ModeAlone
  {
    o := ReadOption(args[i..]);
    assert args[i..][|Words(o)|..] == args[i + |Words(o)|..];
  }

  lemma CollectNone()
    ensures Unparse(WithoutLegacy([])) == [] && !SomeSetsMode([]) && Parse([]) == []
  {}

  lemma UnparseOne(o: CliOption)
    ensures Unparse([o]) == Words(o)
  {}

  method NormalizeClaudePermissionArgs(args: seq<string>) returns (normalized: seq<string>)
    ensures normalized == Unparse(Rewritten(Parse(args)))
  {
    hide Unparse, WithoutLegacy, SomeSetsMode, Parse, ReadOption;
    normalized := [];
    var sawLegacySkip, hasPermissionMode := false, false;
    var i := 0;
    ghost var done: seq<CliOption> := [];
    CollectNone();
    assert args[0..] == args;
    while i < |args|
      invariant 0 <= i <= |args| && Parse(args) == done + Parse(args[i..])
      invariant normalized == Unparse(WithoutLegacy(done))
      invariant sawLegacySkip <==> Legacy in done
      invariant hasPermissionMode <==> SomeSetsMode(done)
    {
      var arg := args[i];
      ghost var o := ReadAt(args, i);
      CollectOne(done, o);
      SetsModeAppends(done, o);
      done := done + [o];
      if arg == LEGACY_SKIP {
        sawLegacySkip := true;
      } else if arg == MODE {
        hasPermissionMode := true;
        normalized := normalized + [arg];
        if i + 1 < |args| {
          normalized := normalized + [args[i + 1]];
          i := i + 1;
        }
      } else {
        if IsInlineMode(arg) {
          hasPermissionMode := true;
        }
        normalized := normalized + [arg];
      }
      i := i + 1;
    }
    assert args[i..] == [];
    assert done + [] == done;
    if sawLegacySkip && !hasPermissionMode {
      UnparseAppends(WithoutLegacy(done), [ModeWith(BYPASS)]);
      UnparseOne(ModeWith(BYPASS));
      normalized := normalized + [MODE, BYPASS];
    }
    assert WithoutLegacy(done) + [] == WithoutLegacy(done);
  }

  // ---------- what the rewrite promises ----------

  lemma {:induction false} WithoutLegacyStaysProper(os: seq<CliOption>)
    requires Proper(os)
    ensures Proper(WithoutLegacy(os))
    ensures os != [] && os[|os| - 1].ModeAlone? ==>
              WithoutLegacy(os) != [] && WithoutLegacy(os)[|WithoutLegacy(os)| - 1].ModeAlone?
  {
    if os != [] {
      assert forall i :: 0 <= i < |os[1..]| ==> os[1..][i] == os[i + 1];
      WithoutLegacyStaysProper(os[1..]);
      if os[0].ModeAlone? { assert os[1..] == []; }
    }
  }

  lemma RewriteStaysProper(os: seq<CliOption>)
    requires Proper(os)
    ensures Proper(Rewritten(os))
  {
    WithoutLegacyStaysProper(os);
    var w := WithoutLegacy(os);
    assert NeedsBypass(os) ==> forall i :: 0 <= i < |w| ==> w[i] in os && !SetsMode(w[i]);
  }

  /** Read as options, the result is the input without the flag, in order, followed by the
      bypass mode exactly when a flag went and no mode was set. */
  lemma RewriteInOptions(args: seq<string>)
    ensures Parse(Unparse(Rewritten(Parse(args)))) == Rewritten(Parse(args))
  {
    ParseUnparse(args);
    RewriteStaysProper(Parse(args));
    UnparseParse(Rewritten(Parse(args)));
  }

  /** No flag is left in option position; if one was removed, some permission mode is set. */
  lemma LegacyGoneModePresent(args: seq<string>)
    ensures Legacy !in Parse(Unparse(Rewritten(Parse(args))))
    ensures Legacy in Parse(args) ==>
              SomeSetsMode(Parse(Unparse(Rewritten(Parse(args)))))
  {
    RewriteInOptions(args);
    var os := Parse(args);
    if NeedsBypass(os) {
      assert ModeWith(BYPASS) in Rewritten(os);
    } else if Legacy in os {
      var o :| o in os && SetsMode(o);
      assert o in Rewritten(os);
    }
  }

  lemma {:induction false} LegacySpelledOnlyAsValue(os: seq<CliOption>, i: nat)
    requires Proper(os) && Legacy !in os
    requires i < |Unparse(os)| && Unparse(os)[i] == LEGACY_SKIP
    ensures i > 0 && Unparse(os)[i - 1] == MODE
  {
    var n := |Words(os[0])|;
    if i >= n {
      assert forall k :: 0 <= k < |os[1..]| ==> os[1..][k] == os[k + 1];
      LegacySpelledOnlyAsValue(os[1..], i - n);
      assert Unparse(os)[i - 1] == Unparse(os[1..])[i - n - 1];
    }
  }

  /** In the returned arguments the flag occurs only as the value right after --permission-mode. */
  lemma {:induction false} LegacyOnlyAsValue(args: seq<string>, i: nat)
    requires i < |Unparse(Rewritten(Parse(args)))| && Unparse(Rewritten(Parse(args)))[i] == LEGACY_SKIP
    ensures i > 0 && Unparse(Rewritten(Parse(args)))[i - 1] == MODE
  {
    hide Unparse, Parse, Rewritten, Proper;
    ParseUnparse(args);
    RewriteStaysProper(Parse(args));
    RewriteInOptions(args);
    LegacyGoneModePresent(args);
    LegacySpelledOnlyAsValue(Rewritten(Parse(args)), i);
  }

  lemma {:induction false} NothingToRemove(os: seq<CliOption>)
    requires Legacy !in os
    ensures WithoutLegacy(os) == os
  {
    if os != [] {
      assert os == [os[0]] + os[1..];
      NothingToRemove(os[1..]);
    }
  }

  /** Normalizing a second time changes nothing. */
  lemma RewriteIsIdempotent(args: seq<string>)
    ensures var once := Unparse(Rewritten(Parse(args)));
            Unparse(Rewritten(Parse(once))) == once
  {
    RewriteInOptions(args);
    LegacyGoneModePresent(args);
    var os := Rewritten(Parse(args));
    NothingToRemove(os);
    assert os + [] == os;
  }

  // ---------- the rewrite, position by position ----------

  /** The kept options are, in order, those at these positions: all but the flag. */
  ghost predicate Keeps(kept: seq<CliOption>, at: seq<nat>, os: seq<CliOption>) {
    && |at| == |kept|
    && (forall k, l :: 0 <= k < l < |at| ==> at[k] < at[l])
    && (forall k :: 0 <= k < |at| ==> at[k] < |os| && kept[k] == os[at[k]])
    && forall j :: 0 <= j < |os| ==> (j in at <==> !os[j].Legacy?)
  }

  lemma {:induction false} KeepsOneMore(kept: seq<CliOption>, at: seq<nat>, os: seq<CliOption>, o: CliOption)
    requires Keeps(kept, at, os)
    ensures if o.Legacy? then Keeps(kept, at, os + [o]) else Keeps(kept + [o], at + [|os|], os + [o])
  {
    assert forall j :: j in at ==> j < |os|;
    assert forall j: nat :: j in at + [|os|] <==> j in at || j == |os|;
  }

  lemma {:induction false} OneKept(o: CliOption)
    ensures WithoutLegacy([o]) == if o.Legacy? then [] else [o]
  {}

  lemma {:induction false} LegacyIsDropped(os: seq<CliOption>) returns (at: seq<nat>)
    ensures Keeps(WithoutLegacy(os), at, os)
  {
    at := [];
    if os != [] {
      var n := |os| - 1;
      at := LegacyIsDropped(os[..n]);
      hide WithoutLegacy, Keeps;
      assert os == os[..n] + [os[n]];
      WithoutLegacyAppends(os[..n], [os[n]]);
      OneKept(os[n]);
      KeepsOneMore(WithoutLegacy(os[..n]), at, os[..n], os[n]);
      if !os[n].Legacy? {
        at := at + [n];
      }
      assert WithoutLegacy(os[..n]) + [] == WithoutLegacy(os[..n]);
    }
  }

  /** Some option sets a permission mode: --permission-mode, with a value or as the last
      argument, or an argument that starts with "--permission-mode=". */
  ghost predicate ModeGiven(os: seq<CliOption>) {
    exists j :: 0 <= j < |os| &&
      (os[j].ModeWith? || os[j].ModeAlone? || (os[j].Plain? && "--permission-mode=" <= os[j].arg))
  }

  lemma {:induction false} ModeGivenExactly(os: seq<CliOption>)
    ensures SomeSetsMode(os) <==> ModeGiven(os)
  {
    assert MODE + "=" == "--permission-mode=";
    assert forall o :: SetsMode(o) <==>
      o.ModeWith? || o.ModeAlone? || (o.Plain? && "--permission-mode=" <= o.arg);
    if SomeSetsMode(os) {
      var o :| o in os && SetsMode(o);
      var j :| 0 <= j < |os| && os[j] == o;
      assert SetsMode(os[j]);
    }
    if j :| 0 <= j < |os| && SetsMode(os[j]) {
      assert os[j] in os;
    }
  }

  /** The returned arguments spell the options of the input but the flag, each once and in order,
      and then the bypass mode exactly if there was a flag and no mode was given. */
  lemma {:induction false} RewriteExactly(args: seq<string>) returns (at: seq<nat>)
    ensures Keeps(WithoutLegacy(Parse(args)), at, Parse(args))
    ensures var bypass := Legacy in Parse(args) && !ModeGiven(Parse(args));
            Unparse(Rewritten(Parse(args))) ==
              Unparse(WithoutLegacy(Parse(args)))
              + if bypass then ["--permission-mode", "bypassPermissions"] else []
  {
    var os := Parse(args);
    at := LegacyIsDropped(os);
    hide Parse, WithoutLegacy, Unparse, Keeps;
    ModeGivenExactly(os);
    UnparseAppends(WithoutLegacy(os), [ModeWith(BYPASS)]);
    UnparseOne(ModeWith(BYPASS));
    assert WithoutLegacy(os) + [] == WithoutLegacy(os);
    assert Unparse(WithoutLegacy(os)) + [] == Unparse(WithoutLegacy(os));
  }

  /** How arguments are read: the flag, --permission-mode with what follows it, anything else. */
  lemma {:induction false} OptionsAre(arg: string, rest: seq<string>)
    ensures var os := Parse([arg] + rest);
            if arg == "--dangerously-skip-permissions" then os == [Legacy] + Parse(rest)
            else if arg != "--permission-mode" then os == [Plain(arg)] + Parse(rest)
            else if rest == [] then os == [ModeAlone]
            else os == [ModeWith(rest[0])] + Parse(rest[1..])
    ensures Parse([]) == []
  {
    assert ([arg] + rest)[1..] == rest;
    if rest != [] { assert ([arg] + rest)[2..] == rest[1..]; }
  }
}
