/** Shared refreshes of Entra ID tokens (extensions/microsoft-foundry/runtime.ts). Calls
    interleave only where the program awaits, so every step below is atomic: a call runs up
    to its await, `az` answers, the `finally` callback runs, a waiting call resumes. */
module FoundryTokenCache {
  import opened JsText

  const TOKEN_REFRESH_MARGIN_MS := 5 * 60 * 1000
  const FALLBACK_LIFETIME_MS := 55 * 60 * 1000
  const FAILURE_PREFIX := "Failed to refresh Azure Entra ID token via az CLI: "

  // ---------- whose token ----------

  datatype Params = Params(subscriptionId: Option<string>, tenantId: Option<string>)

  function CacheKey(p: Params): string { OrEmpty(p.subscriptionId) + ":" + OrEmpty(p.tenantId) }

  /** What `az account get-access-token` is asked for: the subscription, else the tenant. */
  function AzArgs(p: Params): seq<string> {
    if OrEmpty(p.subscriptionId) != "" then ["--subscription", OrEmpty(p.subscriptionId)]
    else if OrEmpty(p.tenantId) != "" then ["--tenant", OrEmpty(p.tenantId)]
    else []
  }

  /** A subscription is named if there is one, or else a tenant if there is one. */
  lemma {:induction false} AzIsAskedFor(subscription: string, tenant: string)
    requires subscription != "" && tenant != ""
    ensures forall t :: AzArgs(Params(Some(subscription), t)) == ["--subscription", subscription]
    ensures forall s :: s in {None, Some("")} ==> AzArgs(Params(s, Some(tenant))) == ["--tenant", tenant]
    ensures forall s, t :: s in {None, Some("")} && t in {None, Some("")} ==> AzArgs(Params(s, t)) == []
  {}

  /** Credentials whose subscriptions hold no colon share a key only if `az` is asked the
      same for both. */
  lemma {:induction false} KeysDoNotCollide(p: Params, q: Params)
    requires ':' !in OrEmpty(p.subscriptionId) && ':' !in OrEmpty(q.subscriptionId)
    ensures CacheKey(p) == CacheKey(q) <==>
              OrEmpty(p.subscriptionId) == OrEmpty(q.subscriptionId) && OrEmpty(p.tenantId) == OrEmpty(q.tenantId)
    ensures CacheKey(p) == CacheKey(q) ==> AzArgs(p) == AzArgs(q)
  {
    if CacheKey(p) == CacheKey(q) {
      FirstSeparator(':', OrEmpty(p.subscriptionId), OrEmpty(p.tenantId),
                     OrEmpty(q.subscriptionId), OrEmpty(q.tenantId));
    }
  }

  lemma {:induction false} OneColon(a: string, b: string, s: string, t: string)
    requires ':' !in s && ':' !in t && a + ":" + b == s + ":" + t
    ensures a == s && b == t
  {
    var x, y := a + ":" + b, s + ":" + t;
    forall j | 0 <= j < |y| && j != |s| ensures y[j] != ':' {
      assert y[j] == if j < |s| then s[j] else t[j - |s| - 1];
    }
    assert x[|a|] == ':';
    assert |a| == |s|;
    assert a == x[..|a|] && s == y[..|s|];
    assert b == x[|a| + 1..] && t == y[|s| + 1..];
  }

  /** A credential is safe from every other one exactly when neither part holds a colon:
      otherwise moving the boundary gives the same key for a different request. */
  lemma {:induction false} SafeKeysExactly(p: Params)
    ensures (forall q :: CacheKey(q) == CacheKey(p) ==> AzArgs(q) == AzArgs(p)) <==>
              ':' !in OrEmpty(p.subscriptionId) && ':' !in OrEmpty(p.tenantId)
  {
    var s, t := OrEmpty(p.subscriptionId), OrEmpty(p.tenantId);
    if ':' in s {
      var i :| 0 <= i < |s| && s[i] == ':';
      var q := Params(Some(s[..i]), Some(s[i + 1..] + ":" + t));
      assert s == s[..i] + ":" + s[i + 1..];
      assert CacheKey(q) == CacheKey(p);
      assert |s[..i]| < |s|;
      assert AzArgs(p) == ["--subscription", s];
      assert if i > 0 then AzArgs(q)[1] == s[..i] else AzArgs(q)[0] == "--tenant";
    } else if ':' in t {
      var i :| 0 <= i < |t| && t[i] == ':';
      var q := Params(Some(s + ":" + t[..i]), Some(t[i + 1..]));
      assert t == t[..i] + ":" + t[i + 1..];
      assert CacheKey(q) == CacheKey(p);
      assert AzArgs(q)[1] == s + ":" + t[..i];
      assert |s + ":" + t[..i]| > |s|;
      assert ':' in AzArgs(q)[1];
      assert AzArgs(q)[0] == "--subscription";
      assert s != "" ==> AzArgs(p)[1] == s;
    } else {
      forall q | CacheKey(q) == CacheKey(p) ensures AzArgs(q) == AzArgs(p) {
        OneColon(OrEmpty(q.subscriptionId), OrEmpty(q.tenantId), s, t);
      }
    }
  }

  // ---------- the maps, the promises and the callers ----------

  datatype Entry = Entry(token: string, expiresAt: int)

  datatype Outcome = Token(entry: Entry) | Error(message: string)

  /** A refresh: `az` is running, or it has answered and the map is written but the cleanup
      has not run, or the promise handed to callers has settled. */
  datatype Stage = Requesting | Landed(outcome: Outcome) | Settled(outcome: Outcome)
  datatype Refresh = Refresh(params: Params, stage: Stage)

  datatype Reply =
    | FromCache(entry: Entry, checkedAt: int)
    | FromRefresh(refresh: nat, outcome: Outcome)
  datatype Caller = Waiting(params: Params, refresh: nat) | Done(params: Params, reply: Reply)

  datatype State = State(
    cachedTokens: map<string, Entry>,
    refreshPromises: map<string, nat>,
    refreshes: seq<Refresh>,
    callers: seq<Caller>)

  datatype Event =
    | Call(params: Params, now: int)
    | AzReturns(refresh: nat, accessToken: string, expiresOn: Option<int>, now: int)
    | AzFails(refresh: nat, message: string)
    | Finally(refresh: nat)
    | Resume(caller: nat)

  predicate Usable(e: Entry, now: int) { e.expiresAt > now + TOKEN_REFRESH_MARGIN_MS }

  predicate IsAt(s: State, r: nat, requesting: bool) {
    r < |s.refreshes| && if requesting then s.refreshes[r].stage.Requesting? else s.refreshes[r].stage.Landed?
  }

  predicate CanResume(s: State, c: nat) {
    && c < |s.callers| && s.callers[c].Waiting?
    && s.callers[c].refresh < |s.refreshes| && s.refreshes[s.callers[c].refresh].stage.Settled?
  }

  /** The error a caller sees. */
  function Surfaced(o: Outcome): Outcome {
    if o.Error? then Error(FAILURE_PREFIX + o.message) else o
  }

  /** One step; an event that cannot happen changes nothing. */
  function Next(s: State, e: Event): State {
    match e
    case Call(p, now) =>
      var key := CacheKey(p);
      if key in s.cachedTokens && Usable(s.cachedTokens[key], now) then
        s.(callers := s.callers + [Done(p, FromCache(s.cachedTokens[key], now))])
      else if key in s.refreshPromises then
        s.(callers := s.callers + [Waiting(p, s.refreshPromises[key])])
      else
        s.(refreshPromises := s.refreshPromises[key := |s.refreshes|],
           refreshes := s.refreshes + [Refresh(p, Requesting)],
           callers := s.callers + [Waiting(p, |s.refreshes|)])
    case AzReturns(r, token, expiresOn, now) =>
      if !IsAt(s, r, true) then s
      else
        var p := s.refreshes[r].params;
        var entry := Entry(token, if expiresOn.Some? then expiresOn.value else now + FALLBACK_LIFETIME_MS);
        s.(cachedTokens := s.cachedTokens[CacheKey(p) := entry],
           refreshes := s.refreshes[r := Refresh(p, Landed(Token(entry)))])
    case AzFails(r, message) =>
      if !IsAt(s, r, true) then s
      else s.(refreshes := s.refreshes[r := Refresh(s.refreshes[r].params, Landed(Error(message)))])
    case Finally(r) =>
      if !IsAt(s, r, false) then s
      else
        var p := s.refreshes[r].params;
        s.(refreshPromises := s.refreshPromises - {CacheKey(p)},
           refreshes := s.refreshes[r := Refresh(p, Settled(s.refreshes[r].stage.outcome))])
    case Resume(c) =>
      if !CanResume(s, c) then s
      else
        var w := s.callers[c];
        var outcome := Surfaced(s.refreshes[w.refresh].stage.outcome);
        s.(callers := s.callers[c := Done(w.params, FromRefresh(w.refresh, outcome))])
  }

  function Initial(): State { State(map[], map[], [], []) }

  /** The module's two maps, with the promises and suspended calls the event loop holds. */
  class Runtime {
    var cachedTokens: map<string, Entry>
    var refreshPromises: map<string, nat>
    var refreshes: seq<Refresh>
    var callers: seq<Caller>

    function Value(): State
      reads this
    {
      State(cachedTokens, refreshPromises, refreshes, callers)
    }

    constructor ()
      ensures Value() == Initial()
    {
      cachedTokens, refreshPromises, refreshes, callers := map[], map[], [], [];
    }

    /** A call up to its await: answered from the cache, or waiting for a refresh. */
    method PrepareFoundryRuntimeAuth(p: Params, now: int)
      modifies this
      ensures Value() == Next(old(Value()), Call(p, now))
    {
      var cacheKey := CacheKey(p);
      if cacheKey in cachedTokens {
        var cachedToken := cachedTokens[cacheKey];
        if cachedToken.expiresAt > now + TOKEN_REFRESH_MARGIN_MS {
          callers := callers + [Done(p, FromCache(cachedToken, now))];
          return;
        }
      }
      var refreshPromise: nat;
      if cacheKey in refreshPromises {
        refreshPromise := refreshPromises[cacheKey];
      } else {
        refreshPromise := |refreshes|;
        refreshes := refreshes + [Refresh(p, Requesting)];
        refreshPromises := refreshPromises[cacheKey := refreshPromise];
      }
      callers := callers + [Waiting(p, refreshPromise)];
    }

    /** refreshEntraToken after its await. */
    method TokenArrived(r: nat, accessToken: string, expiresOn: Option<int>, now: int)
      requires IsAt(Value(), r, true)
      modifies this
      ensures Value() == Next(old(Value()), AzReturns(r, accessToken, expiresOn, now))
    {
      var p := refreshes[r].params;
      var expiresAt := if expiresOn.Some? then expiresOn.value else now + FALLBACK_LIFETIME_MS;
      cachedTokens := cachedTokens[CacheKey(p) := Entry(accessToken, expiresAt)];
      refreshes := refreshes[r := Refresh(p, Landed(Token(Entry(accessToken, expiresAt))))];
    }

    method RefreshFailed(r: nat, message: string)
      requires IsAt(Value(), r, true)
      modifies this
      ensures Value() == Next(old(Value()), AzFails(r, message))
    {
      refreshes := refreshes[r := Refresh(refreshes[r].params, Landed(Error(message)))];
    }

    /** The `finally` callback, then the settling of the promise callers hold. */
    method CleanUp(r: nat)
      requires IsAt(Value(), r, false)
      modifies this
      ensures Value() == Next(old(Value()), Finally(r))
    {
      var p := refreshes[r].params;
      refreshPromises := refreshPromises - {CacheKey(p)};
      refreshes := refreshes[r := Refresh(p, Settled(refreshes[r].stage.outcome))];
    }

    method ResumeCaller(c: nat)
      requires CanResume(Value(), c)
      modifies this
      ensures Value() == Next(old(Value()), Resume(c))
    {
      var w := callers[c];
      var outcome := Surfaced(refreshes[w.refresh].stage.outcome);
      callers := callers[c := Done(w.params, FromRefresh(w.refresh, outcome))];
    }
  }

  // ---------- what holds in every interleaving ----------

  ghost function Run(es: seq<Event>): State {
    if es == [] then Initial() else Next(Run(es[..|es| - 1]), es[|es| - 1])
  }

  function KeyOf(s: State, r: nat): string
    requires r < |s.refreshes|
  {
    CacheKey(s.refreshes[r].params)
  }

  /** The refresh has been sent and its cleanup has not run. */
  predicate Outstanding(s: State, r: nat) {
    r < |s.refreshes| && !s.refreshes[r].stage.Settled?
  }

  /** refreshPromises lists exactly the outstanding refreshes, each under its own key. */
  ghost predicate PromisesExact(s: State) {
    && (forall k :: k in s.refreshPromises ==>
          Outstanding(s, s.refreshPromises[k]) && KeyOf(s, s.refreshPromises[k]) == k)
    && (forall r: nat :: Outstanding(s, r) ==>
          KeyOf(s, r) in s.refreshPromises && s.refreshPromises[KeyOf(s, r)] == r)
  }

  /** The refresh was asked for this key and obtained this entry. */
  predicate Obtained(s: State, r: nat, key: string, entry: Entry) {
    && r < |s.refreshes| && KeyOf(s, r) == key
    && !s.refreshes[r].stage.Requesting? && s.refreshes[r].stage.outcome == Token(entry)
  }

  /** Every cached token was obtained for the key it is stored under. */
  ghost predicate CacheHonest(s: State) {
    forall k :: k in s.cachedTokens ==> exists r :: Obtained(s, r, k, s.cachedTokens[k])
  }

  /** What a reply may be: a token of the caller's own key that was usable when checked, or
      the settled outcome of a refresh of that key. */
  ghost predicate GoodReply(s: State, p: Params, reply: Reply) {
    match reply
    case FromCache(entry, checkedAt) =>
      Usable(entry, checkedAt) && exists r :: Obtained(s, r, CacheKey(p), entry)
    case FromRefresh(r, outcome) =>
      && r < |s.refreshes| && KeyOf(s, r) == CacheKey(p)
      && s.refreshes[r].stage.Settled? && outcome == Surfaced(s.refreshes[r].stage.outcome)
  }

  ghost predicate GoodCaller(s: State, c: Caller) {
    match c
    case Waiting(p, r) => r < |s.refreshes| && KeyOf(s, r) == CacheKey(p)
    case Done(p, reply) => GoodReply(s, p, reply)
  }

  ghost predicate CallersGood(s: State) {
    forall i :: 0 <= i < |s.callers| ==> GoodCaller(s, s.callers[i])
  }

  /** A refresh never goes back, and never changes its outcome. */
  ghost predicate Advances(s: State, t: State) {
    && |s.refreshes| <= |t.refreshes|
    && forall r :: 0 <= r < |s.refreshes| ==>
         && t.refreshes[r].params == s.refreshes[r].params
         && (!s.refreshes[r].stage.Requesting? ==>
               !t.refreshes[r].stage.Requesting? && t.refreshes[r].stage.outcome == s.refreshes[r].stage.outcome)
         && (s.refreshes[r].stage.Settled? ==> t.refreshes[r].stage.Settled?)
  }

  lemma {:induction false} StepAdvances(s: State, e: Event)
    ensures Advances(s, Next(s, e))
  {}

  lemma {:induction false} StepKeepsPromises(s: State, e: Event)
    requires PromisesExact(s)
    ensures PromisesExact(Next(s, e))
  {
    hide CacheKey, Surfaced, Usable;
    var t := Next(s, e);
    forall r: nat | Outstanding(t, r)
      ensures KeyOf(t, r) in t.refreshPromises && t.refreshPromises[KeyOf(t, r)] == r
    {
      assert r < |s.refreshes| ==> Outstanding(s, r) && KeyOf(s, r) == KeyOf(t, r);
      assert e.Finally? && IsAt(s, e.refresh, false) ==> Outstanding(s, e.refresh) && r != e.refresh;
    }
    forall k | k in t.refreshPromises
      ensures Outstanding(t, t.refreshPromises[k]) && KeyOf(t, t.refreshPromises[k]) == k
    {
      assert k in s.refreshPromises || t.refreshPromises[k] == |s.refreshes|;
      assert e.Finally? && IsAt(s, e.refresh, false) ==> k != KeyOf(s, e.refresh);
    }
  }

  lemma {:induction false} ObtainedStays(s: State, t: State, r: nat, key: string, entry: Entry)
    requires Advances(s, t) && Obtained(s, r, key, entry)
    ensures Obtained(t, r, key, entry)
  {}

  lemma {:induction false} SomeObtainedStays(s: State, t: State, key: string, entry: Entry)
    requires Advances(s, t) && exists r :: Obtained(s, r, key, entry)
    ensures exists r :: Obtained(t, r, key, entry)
  {
    var r :| Obtained(s, r, key, entry);
    ObtainedStays(s, t, r, key, entry);
  }

  lemma {:induction false} ArrivalObtains(s: State, e: Event)
    requires e.AzReturns? && IsAt(s, e.refresh, true)
    ensures var t := Next(s, e);
            && KeyOf(s, e.refresh) in t.cachedTokens
            && Obtained(t, e.refresh, KeyOf(s, e.refresh), t.cachedTokens[KeyOf(s, e.refresh)])
  {}

  lemma {:induction false} StepKeepsCache(s: State, e: Event)
    requires CacheHonest(s)
    ensures CacheHonest(Next(s, e))
  {
    hide CacheKey, Advances, Obtained;
    StepAdvances(s, e);
    var t := Next(s, e);
    forall k | k in t.cachedTokens ensures exists r :: Obtained(t, r, k, t.cachedTokens[k]) {
      if k in s.cachedTokens && t.cachedTokens[k] == s.cachedTokens[k] {
        SomeObtainedStays(s, t, k, s.cachedTokens[k]);
      } else {
        assert Obtained(t, e.refresh, k, t.cachedTokens[k]) by { ArrivalObtains(s, e); }
      }
    }
  }

  lemma {:induction false} CallerStaysGood(s: State, t: State, c: Caller)
    requires Advances(s, t) && GoodCaller(s, c)
    ensures GoodCaller(t, c)
  {
    hide Obtained;
    if c.Done? && c.reply.FromCache? {
      SomeObtainedStays(s, t, CacheKey(c.params), c.reply.entry);
    }
  }

  lemma {:induction false} NewCallerIsGood(s: State, e: Event)
    requires PromisesExact(s) && CacheHonest(s) && e.Call?
    ensures var t := Next(s, e);
            |t.callers| == |s.callers| + 1 && GoodCaller(t, t.callers[|s.callers|])
  {
    hide CacheKey, Obtained, Advances;
    StepAdvances(s, e);
    var key := CacheKey(e.params);
    if key in s.cachedTokens && Usable(s.cachedTokens[key], e.now) {
      SomeObtainedStays(s, Next(s, e), key, s.cachedTokens[key]);
    }
  }

  lemma {:induction false} StepKeepsCallers(s: State, e: Event)
    requires PromisesExact(s) && CacheHonest(s) && CallersGood(s)
    ensures CallersGood(Next(s, e))
  {
    hide CacheKey, Obtained, Advances, Surfaced;
    StepAdvances(s, e);
    var t := Next(s, e);
    forall i | 0 <= i < |t.callers| ensures GoodCaller(t, t.callers[i]) {
      if i < |s.callers| && t.callers[i] == s.callers[i] {
        CallerStaysGood(s, t, s.callers[i]);
      } else if e.Call? {
        NewCallerIsGood(s, e);
      } else {
        assert GoodCaller(s, s.callers[i]);
      }
    }
  }

  /** Every reachable state, whatever the interleaving. */
  lemma {:induction false} RunKeepsInvariant(es: seq<Event>)
    ensures PromisesExact(Run(es)) && CacheHonest(Run(es)) && CallersGood(Run(es))
  {
    if es != [] {
      hide PromisesExact, CacheHonest, CallersGood, Next;
      var s, e := Run(es[..|es| - 1]), es[|es| - 1];
      RunKeepsInvariant(es[..|es| - 1]);
      StepKeepsPromises(s, e);
      StepKeepsCache(s, e);
      StepKeepsCallers(s, e);
    }
  }

  // ---------- what callers may rely on ----------

  /** At most one refresh of a key is outstanding, and refreshPromises holds a key exactly
      while one is. */
  lemma {:induction false} SingleFlight(es: seq<Event>)
    ensures forall r: nat, q: nat ::
              (Outstanding(Run(es), r) && Outstanding(Run(es), q) && KeyOf(Run(es), r) == KeyOf(Run(es), q)) ==> r == q
    ensures forall k :: k in Run(es).refreshPromises <==>
              exists r: nat :: Outstanding(Run(es), r) && KeyOf(Run(es), r) == k
  {
    hide Run, CacheHonest, CallersGood, CacheKey;
    RunKeepsInvariant(es);
  }

  /** The cleanup deletes by key alone, yet what it deletes is its own promise; every other
      promise stays, and so does the cache. */
  lemma {:induction false} CleanupRemovesItsOwn(es: seq<Event>, r: nat)
    requires IsAt(Run(es), r, false)
    ensures var s, t := Run(es), Next(Run(es), Finally(r));
            && KeyOf(s, r) in s.refreshPromises && s.refreshPromises[KeyOf(s, r)] == r
            && t.refreshPromises ==
                 (map k | k in s.refreshPromises && s.refreshPromises[k] != r :: s.refreshPromises[k])
            && t.cachedTokens == s.cachedTokens
  {
    hide Run, CacheHonest, CallersGood, CacheKey;
    RunKeepsInvariant(es);
    var s := Run(es);
    assert Outstanding(s, r);
    assert forall k :: k in s.refreshPromises ==> (s.refreshPromises[k] != r <==> k != KeyOf(s, r));
  }

  /** A call is answered from the cache exactly when its key has a token there with more than five
      minutes left. Otherwise it asks `az` exactly when no refresh of its key is outstanding, and
      waits for that refresh or for its own. */
  lemma {:induction false} CallSendsExactlyWhenNeeded(es: seq<Event>, p: Params, now: int)
    ensures var s, t, key := Run(es), Next(Run(es), Call(p, now)), CacheKey(p);
            var usable := key in s.cachedTokens && s.cachedTokens[key].expiresAt > now + 300_000;
            var needed := !usable && forall r: nat :: Outstanding(s, r) ==> KeyOf(s, r) != key;
            && t.refreshes == (if needed then s.refreshes + [Refresh(p, Requesting)] else s.refreshes)
            && |t.callers| == |s.callers| + 1 && t.callers[..|s.callers|] == s.callers
            && match t.callers[|s.callers|]
               case Done(params, reply) => usable && params == p && reply == FromCache(s.cachedTokens[key], now)
               case Waiting(params, r) => !usable && params == p && Outstanding(t, r) && KeyOf(t, r) == key
  {
    hide Run, CacheHonest, CallersGood, CacheKey;
    RunKeepsInvariant(es);
  }

  /** The refresh has failed, no other one of its key is outstanding, and the cached token of
      its key is as before. */
  ghost predicate FailedAlone(s: State, t: State, r: nat, key: string, message: string) {
    && r < |t.refreshes| && KeyOf(t, r) == key
    && !t.refreshes[r].stage.Requesting? && t.refreshes[r].stage.outcome == Error(message)
    && (forall q: nat :: Outstanding(t, q) && KeyOf(t, q) == key ==> q == r)
    && (key in t.cachedTokens <==> key in s.cachedTokens)
    && (key in s.cachedTokens ==> t.cachedTokens[key] == s.cachedTokens[key])
  }

  lemma {:induction false} StepKeepsFailedAlone(s: State, t: State, e: Event, r: nat, key: string, message: string)
    requires FailedAlone(s, t, r, key, message) && (e.Call? ==> CacheKey(e.params) != key)
    ensures FailedAlone(s, Next(t, e), r, key, message)
  {
    hide CacheKey, Usable, Surfaced;
    StepAdvances(t, e);
    assert e.AzReturns? && IsAt(t, e.refresh, true) ==> Outstanding(t, e.refresh) && KeyOf(t, e.refresh) != key;
    forall q: nat | Outstanding(Next(t, e), q) && KeyOf(Next(t, e), q) == key ensures q == r {
      assert q < |t.refreshes| ==> Outstanding(t, q) && KeyOf(t, q) == key;
    }
  }

  lemma {:induction false} RunOne(es: seq<Event>, e: Event)
    ensures Run(es + [e]) == Next(Run(es), e)
  {}

  lemma {:induction false} FailureIsAlone(es: seq<Event>, r: nat, message: string)
    requires IsAt(Run(es), r, true)
    ensures FailedAlone(Run(es), Next(Run(es), AzFails(r, message)), r, KeyOf(Run(es), r), message)
  {
    hide Run, CacheKey, CacheHonest, CallersGood;
    RunKeepsInvariant(es);
    var s, t := Run(es), Next(Run(es), AzFails(r, message));
    assert Outstanding(s, r);
    assert forall q: nat :: Outstanding(t, q) ==> Outstanding(s, q) && KeyOf(s, q) == KeyOf(t, q);
  }

  lemma {:induction false} FailedStaysAlone(es: seq<Event>, r: nat, message: string, rest: seq<Event>)
    requires IsAt(Run(es), r, true)
    requires forall e :: e in rest && e.Call? ==> CacheKey(e.params) != KeyOf(Run(es), r)
    ensures FailedAlone(Run(es), Run(es + [AzFails(r, message)] + rest), r, KeyOf(Run(es), r), message)
    decreases |rest|
  {
    hide Run, FailedAlone, Next, CacheKey, KeyOf;
    var failed := es + [AzFails(r, message)];
    if rest == [] {
      assert failed + rest == failed;
      RunOne(es, AzFails(r, message));
      FailureIsAlone(es, r, message);
    } else {
      var n := |rest| - 1;
      FailedStaysAlone(es, r, message, rest[..n]);
      assert failed + rest == (failed + rest[..n]) + [rest[n]];
      RunOne(failed + rest[..n], rest[n]);
      StepKeepsFailedAlone(Run(es), Run(failed + rest[..n]), rest[n], r, KeyOf(Run(es), r), message);
    }
  }

  /** A failed refresh stores nothing. Whatever happens after it, short of another call of its
      key, the cached token of that key stays as it was, and once the failed refresh has been
      cleaned up the next call of the key asks `az` again, unless that token is usable. */
  lemma {:induction false} FailureAllowsRetry(
      es: seq<Event>, r: nat, message: string, rest: seq<Event>, p: Params, now: int)
    requires IsAt(Run(es), r, true) && CacheKey(p) == KeyOf(Run(es), r)
    requires forall e :: e in rest && e.Call? ==> CacheKey(e.params) != CacheKey(p)
    ensures var s, t, key := Run(es), Run(es + [AzFails(r, message)] + rest), CacheKey(p);
            && (key in t.cachedTokens <==> key in s.cachedTokens)
            && (key in s.cachedTokens ==> t.cachedTokens[key] == s.cachedTokens[key])
            && r < |t.refreshes| && !t.refreshes[r].stage.Requesting? && t.refreshes[r].stage.outcome == Error(message)
            && (t.refreshes[r].stage.Settled? ==>
                  Next(t, Call(p, now)).refreshes ==
                    if key in s.cachedTokens && Usable(s.cachedTokens[key], now) then t.refreshes
                    else t.refreshes + [Refresh(p, Requesting)])
  {
    FailedStaysAlone(es, r, message, rest);
    CallSendsExactlyWhenNeeded(es + [AzFails(r, message)] + rest, p, now);
    hide Run, CacheKey, Usable;
  }

  /** Every reply is good: a cached token is one obtained for the caller's own key with more
      than the margin left when it was checked; otherwise it is the outcome of a settled
      refresh of that key. */
  lemma {:induction false} EveryReplyIsGood(es: seq<Event>, c: nat)
    requires c < |Run(es).callers| && Run(es).callers[c].Done?
    ensures GoodReply(Run(es), Run(es).callers[c].params, Run(es).callers[c].reply)
  {
    hide Run, GoodReply;
    RunKeepsInvariant(es);
    assert GoodCaller(Run(es), Run(es).callers[c]);
  }

  /** The refresh a caller waits for, or was answered from. */
  function Source(c: Caller): Option<nat> {
    match c
    case Waiting(_, r) => Some(r)
    case Done(_, FromRefresh(r, _)) => Some(r)
    case Done(_, FromCache(_, _)) => None
  }

  /** No caller that came after state s relies on a refresh that had settled by then. */
  ghost predicate NoneStale(s: State, t: State) {
    forall i :: |s.callers| <= i < |t.callers| && Source(t.callers[i]).Some? ==>
      !(Source(t.callers[i]).value < |s.refreshes| && s.refreshes[Source(t.callers[i]).value].stage.Settled?)
  }

  lemma {:induction false} StepKeepsNoneStale(s: State, t: State, e: Event)
    requires PromisesExact(t) && Advances(s, t) && NoneStale(s, t) && |s.callers| <= |t.callers|
    ensures Advances(s, Next(t, e)) && NoneStale(s, Next(t, e)) && |s.callers| <= |Next(t, e).callers|
  {
    hide CacheKey, Surfaced, Usable;
    StepAdvances(t, e);
  }

  lemma {:induction false} NothingHappens(s: State)
    ensures Advances(s, s) && NoneStale(s, s)
  {}

  /** A reply taken from a refresh comes from one that had not finished when the call began:
      whatever the run did up to the call, those settled by then are never the source. */
  lemma {:induction false} RefreshFinishedAfterCallBegan(before: seq<Event>, after: seq<Event>)
    ensures Advances(Run(before), Run(before + after)) && NoneStale(Run(before), Run(before + after))
    ensures |Run(before).callers| <= |Run(before + after).callers|
    decreases |after|
  {
    hide Advances, NoneStale, PromisesExact, CacheHonest, CallersGood, Next, Run;
    if after == [] {
      assert before + after == before;
      NothingHappens(Run(before));
    } else {
      var n := |after| - 1;
      var es := before + after[..n];
      RefreshFinishedAfterCallBegan(before, after[..n]);
      RunKeepsInvariant(es);
      assert before + after == es + [after[n]];
      RunOne(es, after[n]);
      StepKeepsNoneStale(Run(before), Run(es), after[n]);
    }
  }

  lemma {:induction false} RunTwo(es: seq<Event>, e: Event, f: Event)
    ensures Run(es + [e] + [f]) == Next(Next(Run(es), e), f)
  {}

  /** No call is stuck: whatever `az` answers, cleanup and resumption then serve a waiter. */
  lemma {:induction false} WaitersCanBeServed(es: seq<Event>, c: nat, answer: Event) returns (more: seq<Event>)
    requires c < |Run(es).callers| && Run(es).callers[c].Waiting?
    requires (answer.AzReturns? || answer.AzFails?) && answer.refresh == Run(es).callers[c].refresh
    ensures |more| <= 3
    ensures c < |Run(es + more).callers| && Run(es + more).callers[c].Done?
    ensures Run(es + more).callers[c].params == Run(es).callers[c].params
  {
    hide Run, CacheHonest, PromisesExact, CacheKey, Surfaced, GoodReply;
    RunKeepsInvariant(es);
    var s := Run(es);
    var r := s.callers[c].refresh;
    assert GoodCaller(s, s.callers[c]);
    var e1, e2, e3 := answer, Finally(r), Resume(c);
    match s.refreshes[r].stage
    case Requesting =>
      more := [e1, e2, e3];
      RunTwo(es, e1, e2);
      assert es + more == es + [e1] + [e2] + [e3];
      RunOne(es + [e1] + [e2], e3);
    case Landed(_) =>
      more := [e2, e3];
      RunTwo(es, e2, e3);
      assert es + more == es + [e2] + [e3];
    case Settled(_) =>
      more := [e3];
      RunOne(es, e3);
  }

  // ---------- where tokens come from ----------

  /** Event i is the answer of a running refresh of this key, and this is what it brought: the
      token, valid until the time `az` named or else for 55 minutes. */
  ghost predicate Brought(es: seq<Event>, i: nat, key: string, entry: Entry) {
    && i < |es| && es[i].AzReturns? && IsAt(Run(es[..i]), es[i].refresh, true)
    && KeyOf(Run(es[..i]), es[i].refresh) == key
    && entry.token == es[i].accessToken
    && entry.expiresAt == if es[i].expiresOn.Some? then es[i].expiresOn.value else es[i].now + 3_300_000
  }

  ghost predicate Reported(es: seq<Event>, i: nat, r: nat, message: string) {
    i < |es| && es[i].AzFails? && es[i].refresh == r && es[i].message == message
  }

  lemma {:induction false} BroughtStays(es: seq<Event>, n: nat, i: nat, key: string, entry: Entry)
    requires n <= |es| && Brought(es[..n], i, key, entry)
    ensures Brought(es, i, key, entry)
  {
    assert es[..n][..i] == es[..i];
  }

  lemma {:induction false} ReportedStays(es: seq<Event>, n: nat, i: nat, r: nat, message: string)
    requires n <= |es| && Reported(es[..n], i, r, message)
    ensures Reported(es, i, r, message)
  {}

  lemma {:induction false} AnswerSettles(s: State, e: Event, r: nat)
    requires r < |Next(s, e).refreshes| && !Next(s, e).refreshes[r].stage.Requesting?
    requires r < |s.refreshes| ==> s.refreshes[r].stage.Requesting?
    ensures (e.AzReturns? || e.AzFails?) && e.refresh == r && IsAt(s, r, true)
    ensures KeyOf(Next(s, e), r) == KeyOf(s, r)
    ensures var outcome := Next(s, e).refreshes[r].stage.outcome;
            outcome == if e.AzFails? then Error(e.message)
                       else Token(Entry(e.accessToken,
                                        if e.expiresOn.Some? then e.expiresOn.value else e.now + 3_300_000))
  {
    hide CacheKey;
  }

  lemma {:induction false} JustBrought(es: seq<Event>, r: nat)
    requires es != [] && var e := es[|es| - 1]; e.AzReturns? && e.refresh == r && IsAt(Run(es[..|es| - 1]), r, true)
    ensures var e := es[|es| - 1];
            Brought(es, |es| - 1, KeyOf(Run(es[..|es| - 1]), r),
                    Entry(e.accessToken, if e.expiresOn.Some? then e.expiresOn.value else e.now + 3_300_000))
  {}

  lemma {:induction false} JustReported(es: seq<Event>, r: nat)
    requires es != [] && es[|es| - 1].AzFails? && es[|es| - 1].refresh == r
    ensures Reported(es, |es| - 1, r, es[|es| - 1].message)
  {}

  /** The outcome of a refresh is what `az` brought for its key, or the error it reported. */
  lemma {:induction false} OutcomesComeFromAz(es: seq<Event>, r: nat)
    requires r < |Run(es).refreshes| && !Run(es).refreshes[r].stage.Requesting?
    ensures match Run(es).refreshes[r].stage.outcome
            case Token(entry) => exists i: nat :: Brought(es, i, KeyOf(Run(es), r), entry)
            case Error(message) => exists i: nat :: Reported(es, i, r, message)
  {
    hide CacheKey, Next, Brought, Reported;
    var n := |es| - 1;
    var s, e := Run(es[..n]), es[n];
    assert Run(es) == Next(s, e);
    hide Run;
    StepAdvances(s, e);
    if r < |s.refreshes| && !s.refreshes[r].stage.Requesting? {
      OutcomesComeFromAz(es[..n], r);
      assert KeyOf(Run(es), r) == KeyOf(s, r);
      match s.refreshes[r].stage.outcome
      case Token(entry) =>
        var i: nat :| Brought(es[..n], i, KeyOf(s, r), entry);
        BroughtStays(es, n, i, KeyOf(s, r), entry);
      case Error(message) =>
        var i: nat :| Reported(es[..n], i, r, message);
        ReportedStays(es, n, i, r, message);
    } else {
      AnswerSettles(s, e, r);
      if e.AzReturns? {
        JustBrought(es, r);
        assert Brought(es, n, KeyOf(s, r), Run(es).refreshes[r].stage.outcome.entry);
      } else {
        JustReported(es, r);
        assert Reported(es, n, r, e.message);
      }
    }
  }

  /** What the latest answer for a key brought. */
  ghost function LastBrought(es: seq<Event>, key: string): Option<Entry> {
    if es == [] then None
    else
      var n := |es| - 1;
      if es[n].AzReturns? && IsAt(Run(es[..n]), es[n].refresh, true) && KeyOf(Run(es[..n]), es[n].refresh) == key then
        Some(Entry(es[n].accessToken, if es[n].expiresOn.Some? then es[n].expiresOn.value else es[n].now + 3_300_000))
      else LastBrought(es[..n], key)
  }

  /** The cache holds, for each key, what the latest answer for that key brought. */
  lemma {:induction false} CacheHoldsLastBrought(es: seq<Event>, key: string)
    ensures key in Run(es).cachedTokens <==> LastBrought(es, key).Some?
    ensures key in Run(es).cachedTokens ==> LastBrought(es, key) == Some(Run(es).cachedTokens[key])
  {
    if es != [] {
      hide CacheKey, Usable, Surfaced;
      CacheHoldsLastBrought(es[..|es| - 1], key);
    }
  }

  /** Every reply: a token that `az` brought for the caller's own key, from the cache only with
      more than five minutes left, or the error that `az` reported for the refresh. */
  lemma {:induction false} RepliesComeFromAz(es: seq<Event>, c: nat)
    requires c < |Run(es).callers| && Run(es).callers[c].Done?
    ensures var p, reply := Run(es).callers[c].params, Run(es).callers[c].reply;
            match reply
            case FromCache(entry, checkedAt) =>
              entry.expiresAt > checkedAt + 300_000 && exists i: nat :: Brought(es, i, CacheKey(p), entry)
            case FromRefresh(r, Token(entry)) => exists i: nat :: Brought(es, i, CacheKey(p), entry)
            case FromRefresh(r, Error(text)) =>
              exists i: nat :: && i < |es| && es[i].AzFails? && es[i].refresh == r
                               && text == "Failed to refresh Azure Entra ID token via az CLI: " + es[i].message
  {
    hide Run, CacheKey;
    EveryReplyIsGood(es, c);
    var s, p := Run(es), Run(es).callers[c].params;
    match s.callers[c].reply
    case FromCache(entry, checkedAt) =>
      var r :| Obtained(s, r, CacheKey(p), entry);
      OutcomesComeFromAz(es, r);
    case FromRefresh(r, outcome) =>
      OutcomesComeFromAz(es, r);
      if outcome.Error? {
        var i: nat :| Reported(es, i, r, s.refreshes[r].stage.outcome.message);
        assert outcome.message == FAILURE_PREFIX + es[i].message;
      }
  }
}
