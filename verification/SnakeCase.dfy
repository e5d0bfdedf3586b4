/** Camel case to snake case by two regular-expression passes (src/param-key.ts). */
module SnakeCase {
  import opened JsText

  predicate IsUpper(c: char) { 'A' <= c <= 'Z' }
  predicate IsLower(c: char) { 'a' <= c <= 'z' }
  predicate IsLowerOrDigit(c: char) { IsLower(c) || '0' <= c <= '9' }

  // ---------- the passes, as the matcher runs them ----------

  /** How far a greedy [A-Z]+ reaches. */
  function UpperRun(s: string): nat {
    if s == [] || !IsUpper(s[0]) then 0 else 1 + UpperRun(s[1..])
  }

  /** Backtracking from g: the longest first group that leaves [A-Z][a-z] after it, or 0. */
  function Backtrack(s: string, g: nat): nat {
    if g == 0 then 0
    else if g + 1 < |s| && IsUpper(s[g]) && IsLower(s[g + 1]) then g
    else Backtrack(s, g - 1)
  }

  /** replace(/([A-Z]+)([A-Z][a-z])/g, "$1_$2") */
  function SplitAcronyms(s: string): string
    decreases |s|
  {
    if s == [] then []
    else
      var g := Backtrack(s, UpperRun(s));
      if 0 < g && g + 1 < |s| then s[..g] + ("_" + s[g..g + 2] + SplitAcronyms(s[g + 2..]))
      else [s[0]] + SplitAcronyms(s[1..])
  }

  /** replace(/([a-z0-9])([A-Z])/g, "$1_$2") */
  function SplitWords(s: string): string
    decreases |s|
  {
    if |s| < 2 then s
    else if IsLowerOrDigit(s[0]) && IsUpper(s[1]) then [s[0], '_', s[1]] + SplitWords(s[2..])
    else [s[0]] + SplitWords(s[1..])
  }

  function ToSnakeCaseKey(key: string): string { ToLower(SplitWords(SplitAcronyms(key))) }

  // ---------- one rule instead of two passes ----------

  /** An underscore belongs before position i: a word starts there, either after a lowercase
      letter or digit, or as the last capital of a run that a lowercase letter follows. */
  predicate WordStarts(s: string, i: nat)
    requires i < |s|
  {
    && 0 < i && 'A' <= s[i] <= 'Z'
    && (|| 'a' <= s[i - 1] <= 'z' || '0' <= s[i - 1] <= '9'
        || ('A' <= s[i - 1] <= 'Z' && i + 1 < |s| && 'a' <= s[i + 1] <= 'z'))
  }

  /** The key from position i on, rewritten character by character. */
  function Pointwise(s: string, i: nat): string
    requires i <= |s|
    decreases |s| - i
  {
    if i == |s| then []
    else (if WordStarts(s, i) then "_" else "")
         + [if 'A' <= s[i] <= 'Z' then (s[i] as int + 32) as char else s[i]] + Pointwise(s, i + 1)
  }

  ghost predicate Marks(p: char, s: string, acronyms: bool, words: bool)
    requires s != []
  {
    && IsUpper(s[0])
    && ((words && IsLowerOrDigit(p)) || (acronyms && IsUpper(p) && |s| > 1 && IsLower(s[1])))
  }

  /** The pass that inserts an underscore wherever `acronyms`/`words` allow it, given the
      character before s. */
  ghost function Marked(p: char, s: string, acronyms: bool, words: bool): string
    decreases |s|
  {
    if s == [] then []
    else (if Marks(p, s, acronyms, words) then "_" else "") + [s[0]] + Marked(s[0], s[1..], acronyms, words)
  }

  lemma {:induction false} NoEarlierGroup(s: string, g: nat, h: int)
    requires g <= |s| && forall i :: 0 <= i < g ==> IsUpper(s[i])
    requires h <= g - 2
    ensures h >= 0 ==> Backtrack(s, h) == 0
  {
    if h > 0 {
      NoEarlierGroup(s, g, h - 1);
    }
  }

  lemma {:induction false} GreedyGroup(s: string, g: nat)
    requires g <= |s| && forall i :: 0 <= i < g ==> IsUpper(s[i])
    requires g == |s| || !IsUpper(s[g])
    ensures UpperRun(s) == g
    ensures var m := Backtrack(s, g);
            m == if 2 <= g < |s| && IsLower(s[g]) then g - 1 else 0
  {
    if g > 0 {
      assert forall i :: 0 <= i < g - 1 ==> s[1..][i] == s[i + 1];
      GreedyGroup(s[1..], g - 1);
      NoEarlierGroup(s, g, g - 2);
    }
  }

  lemma {:induction false} RunLength(s: string) returns (g: nat)
    ensures g <= |s| && (forall i :: 0 <= i < g ==> IsUpper(s[i])) && (g == |s| || !IsUpper(s[g]))
  {
    if s == [] || !IsUpper(s[0]) {
      return 0;
    }
    g := RunLength(s[1..]);
    assert forall i :: 0 < i <= g ==> s[i] == s[1..][i - 1];
    g := g + 1;
  }

  lemma {:induction false} MarkedSkips(p: char, s: string)
    requires s != [] && !Marks(p, s, true, false)
    ensures Marked(p, s, true, false) == [s[0]] + Marked(s[0], s[1..], true, false)
  {}

  lemma {:induction false} MarkedPair(p: char, t: string)
    requires |t| >= 2 && IsUpper(p) && IsUpper(t[0]) && IsLower(t[1])
    ensures Marked(p, t, true, false) == "_" + t[..2] + Marked(t[1], t[2..], true, false)
  {}

  /** Inside a run of capitals no acronym ends. */
  lemma {:induction false} RunUnmarked(p: char, s: string, g: nat)
    requires 1 <= g && g + 1 < |s| && (forall i :: 0 <= i <= g ==> IsUpper(s[i])) && IsLower(s[g + 1])
    requires !Marks(p, s, true, false)
    ensures Marked(p, s, true, false) ==
            s[..g] + ("_" + s[g..g + 2] + Marked(s[g + 1], s[g + 2..], true, false))
    decreases |s|
  {
    hide Marked;
    var t := s[1..];
    assert forall i :: 0 <= i < |t| ==> t[i] == s[i + 1];
    MarkedSkips(p, s);
    if g == 1 {
      MarkedPair(s[0], t);
      assert t[..2] == s[1..3] && t[2..] == s[3..];
    } else {
      RunUnmarked(s[0], t, g - 1);
      assert t[g + 1..] == s[g + 2..] && t[g - 1..g + 1] == s[g..g + 2];
      var u := "_" + s[g..g + 2] + Marked(s[g + 1], s[g + 2..], true, false);
      assert [s[0]] + (t[..g - 1] + u) == s[..g] + u;
    }
  }

  lemma AcronymUnfold(s: string, g: nat)
    requires s != [] && g == Backtrack(s, UpperRun(s))
    ensures SplitAcronyms(s) ==
            if 0 < g && g + 1 < |s| then s[..g] + ("_" + s[g..g + 2] + SplitAcronyms(s[g + 2..]))
            else [s[0]] + SplitAcronyms(s[1..])
  {}

  /** One step of the first pass, g being the length of the leading run of capitals. */
  lemma AcronymStep(s: string, g: nat)
    requires s != [] && g <= |s| && (forall i :: 0 <= i < g ==> IsUpper(s[i]))
    requires g == |s| || !IsUpper(s[g])
    ensures SplitAcronyms(s) ==
            if 2 <= g < |s| && IsLower(s[g])
            then s[..g - 1] + ("_" + s[g - 1..g + 1] + SplitAcronyms(s[g + 1..]))
            else [s[0]] + SplitAcronyms(s[1..])
  {
    hide UpperRun, Backtrack, SplitAcronyms;
    GreedyGroup(s, g);
    AcronymUnfold(s, Backtrack(s, UpperRun(s)));
  }

  lemma {:induction false} AcronymPass(p: char, s: string)
    requires s != [] ==> !Marks(p, s, true, false)
    ensures SplitAcronyms(s) == Marked(p, s, true, false)
    decreases |s|
  {
    if s != [] {
      hide SplitAcronyms, UpperRun, Backtrack, Marked;
      var g := RunLength(s);
      AcronymStep(s, g);
      if 2 <= g < |s| && IsLower(s[g]) {
        RunUnmarked(p, s, g - 1);
        AcronymPass(s[g], s[g + 1..]);
      } else {
        assert |s| > 1 && IsUpper(s[0]) && IsUpper(s[1]) ==> g >= 2;
        assert |s| > 2 && IsLower(s[2]) && g >= 2 ==> g == 2;
        MarkedSkips(p, s);
        AcronymPass(s[0], s[1..]);
      }
    }
  }

  lemma {:induction false} MarkedUnfold(p: char, s: string)
    requires s != []
    ensures Marked(p, s, false, true) ==
            (if Marks(p, s, false, true) then "_" else "") + [s[0]] + Marked(s[0], s[1..], false, true)
  {}

  lemma {:induction false} WordUnfold(s: string)
    ensures SplitWords(s) ==
            if |s| < 2 then s
            else if IsLowerOrDigit(s[0]) && IsUpper(s[1]) then [s[0], '_', s[1]] + SplitWords(s[2..])
            else [s[0]] + SplitWords(s[1..])
  {}

  lemma {:induction false} WordPass(p: char, s: string)
    requires s != [] ==> !Marks(p, s, false, true)
    ensures SplitWords(s) == Marked(p, s, false, true)
    decreases |s|
  {
    WordUnfold(s);
    if s != [] {
      hide Marked, SplitWords;
      MarkedUnfold(p, s);
      var t := s[1..];
      if |s| >= 2 && IsLowerOrDigit(s[0]) && IsUpper(s[1]) {
        MarkedUnfold(s[0], t);
        WordPass(s[1], s[2..]);
        assert t[1..] == s[2..];
      } else {
        WordPass(s[0], t);
      }
    }
  }

  /** The second pass never reacts to the first one's underscores. */
  lemma {:induction false} MarkedCons(p: char, c: char, t: string, acronyms: bool, words: bool)
    ensures Marked(p, [c] + t, acronyms, words) ==
            (if Marks(p, [c] + t, acronyms, words) then ['_'] else []) + ([c] + Marked(c, t, acronyms, words))
  {}

  lemma {:induction false} PassesMerge(p: char, s: string)
    ensures Marked(p, Marked(p, s, true, false), false, true) == Marked(p, s, true, true)
    decreases |s|
  {
    if s != [] {
      hide Marked;
      var c, t := s[0], s[1..];
      assert s == [c] + t;
      PassesMerge(c, t);
      var rest := Marked(c, t, true, false);
      MarkedCons(p, c, t, true, false);
      MarkedCons(p, c, t, true, true);
      if Marks(p, s, true, false) {
        MarkedCons(p, '_', [c] + rest, false, true);
        MarkedCons('_', c, rest, false, true);
      } else {
        assert [] + ([c] + rest) == [c] + rest;
        MarkedCons(p, c, rest, false, true);
      }
    } else {
      assert Marked(p, [], true, false) == [];
    }
  }

  lemma LowerCons(c: char, t: string)
    ensures ToLower([c] + t) == [LowerChar(c)] + ToLower(t)
  {}

  lemma {:induction false} MarkedIsPointwise(s: string, i: nat)
    requires i <= |s|
    ensures ToLower(Marked(if i == 0 then '_' else s[i - 1], s[i..], true, true)) == Pointwise(s, i)
    decreases |s| - i
  {
    if i < |s| {
      hide ToLower;
      var p := if i == 0 then '_' else s[i - 1];
      MarkedIsPointwise(s, i + 1);
      assert s[i..][1..] == s[i + 1..];
      assert Marks(p, s[i..], true, true) <==> WordStarts(s, i);
      var rest := Marked(s[i], s[i + 1..], true, true);
      LowerCons(s[i], rest);
      LowerCons('_', [s[i]] + rest);
      assert "_" + [s[i]] + rest == ['_'] + ([s[i]] + rest);
      assert "" + [s[i]] + rest == [s[i]] + rest;
    } else {
      assert Marked('_', [], true, true) == [];
    }
  }

  /** The two passes and lowercasing are one pointwise rule. */
  lemma SnakeCaseIsPointwise(key: string)
    ensures ToSnakeCaseKey(key) == Pointwise(key, 0)
  {
    AcronymPass('_', key);
    WordPass('_', SplitAcronyms(key));
    PassesMerge('_', key);
    MarkedIsPointwise(key, 0);
    assert key[0..] == key;
  }

  // ---------- consequences ----------

  function WithoutUnderscores(s: string): string {
    if s == [] then [] else (if s[0] == '_' then [] else [s[0]]) + WithoutUnderscores(s[1..])
  }

  lemma {:induction false} StripStep(mark: bool, c: char, rest: string, lower: string)
    requires WithoutUnderscores(rest) == WithoutUnderscores(lower)
    ensures WithoutUnderscores((if mark then "_" else "") + [c] + rest) == WithoutUnderscores([c] + lower)
  {}

  lemma {:induction false} PointwiseKeepsCharacters(s: string, i: nat)
    requires i <= |s|
    ensures WithoutUnderscores(Pointwise(s, i)) == WithoutUnderscores(ToLower(s[i..]))
    decreases |s| - i
  {
    if i < |s| {
      hide ToLower, WithoutUnderscores, WordStarts;
      PointwiseKeepsCharacters(s, i + 1);
      StripStep(WordStarts(s, i), LowerChar(s[i]), Pointwise(s, i + 1), ToLower(s[i + 1..]));
      LowerCons(s[i], s[i + 1..]);
      assert s[i..] == [s[i]] + s[i + 1..];
    }
  }

  lemma {:induction false} PointwiseHasNoCapitals(s: string, i: nat)
    requires i <= |s|
    ensures forall k :: 0 <= k < |Pointwise(s, i)| ==> !IsUpper(Pointwise(s, i)[k])
    decreases |s| - i
  {
    if i < |s| {
      hide WordStarts;
      PointwiseHasNoCapitals(s, i + 1);
    }
  }

  lemma {:induction false} PointwiseIdentity(s: string, i: nat)
    requires i <= |s| && forall k :: 0 <= k < |s| ==> !IsUpper(s[k])
    ensures Pointwise(s, i) == s[i..]
    decreases |s| - i
  {
    if i < |s| {
      PointwiseIdentity(s, i + 1);
      assert s[i..] == [s[i]] + s[i + 1..];
    }
  }

  /** Only underscores are inserted, and a second conversion changes nothing. */
  lemma SnakeCaseIsLosslessAndIdempotent(key: string)
    ensures WithoutUnderscores(ToSnakeCaseKey(key)) == WithoutUnderscores(ToLower(key))
    ensures ToSnakeCaseKey(ToSnakeCaseKey(key)) == ToSnakeCaseKey(key)
  {
    SnakeCaseIsPointwise(key);
    PointwiseKeepsCharacters(key, 0);
    PointwiseHasNoCapitals(key, 0);
    assert key[0..] == key;
    var once := ToSnakeCaseKey(key);
    SnakeCaseIsPointwise(once);
    PointwiseIdentity(once, 0);
  }
}
