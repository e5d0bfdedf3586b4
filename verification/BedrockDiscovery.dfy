/** The model discovery cache of the Bedrock provider (extensions/amazon-bedrock/discovery.ts).
    Calls interleave only where the program awaits, so every step below is atomic. */
module BedrockDiscovery {
  import opened JsText
  import opened OrderedNames

  const DEFAULT_REFRESH_INTERVAL_SECONDS := 3600.0
  const DEFAULT_CONTEXT_WINDOW := 32000
  const DEFAULT_MAX_TOKENS := 4096

  // ---------- the cache key ----------

  datatype Config = Config(
    refreshInterval: Option<real>,
    providerFilter: Option<seq<string>>,
    defaultContextWindow: Option<real>,
    defaultMaxTokens: Option<real>)

  datatype Key = Key(
    region: string, providerFilter: seq<string>, refreshIntervalSeconds: nat,
    defaultContextWindow: int, defaultMaxTokens: int)

  function Normalized(filter: seq<string>): seq<string> {
    seq(|filter|, i requires 0 <= i < |filter| => ToLower(Trim(filter[i])))
  }

  function NormalizeProviderFilter(filter: Option<seq<string>>): seq<string> {
    if filter.None? then [] else UniqSorted(Normalized(filter.value))
  }

  function PositiveOr(value: Option<real>, default: int): int {
    if value.Some? && value.value.Floor > 0 then value.value.Floor else default
  }

  function IntervalSeconds(c: Config): nat {
    Max(0, (if c.refreshInterval.Some? then c.refreshInterval.value
            else DEFAULT_REFRESH_INTERVAL_SECONDS).Floor)
  }

  function CacheKey(region: string, c: Config): Key {
    Key(region, NormalizeProviderFilter(c.providerFilter), IntervalSeconds(c),
        PositiveOr(c.defaultContextWindow, DEFAULT_CONTEXT_WINDOW),
        PositiveOr(c.defaultMaxTokens, DEFAULT_MAX_TOKENS))
  }

  /** The providers a filter names, whatever their case, spacing, order or repetition. */
  ghost function Providers(filter: Option<seq<string>>): set<string> {
    if filter.None? then {}
    else set v | v in filter.value && ToLower(Trim(v)) != [] :: ToLower(Trim(v))
  }

  lemma {:induction false} LowerStaysTrimmed(s: string)
    requires Trimmed(s)
    ensures Trimmed(ToLower(s)) && Trim(ToLower(s)) == ToLower(s)
  {}

  lemma {:induction false} FilterEntries(f: Option<seq<string>>)
    ensures StrictlySorted(NormalizeProviderFilter(f))
    ensures forall x :: x in NormalizeProviderFilter(f) <==> x in Providers(f)
  {
    hide Trim, ToLower, Trimmed, InsertAll;
    if f.Some? {
      var n := Normalized(f.value);
      forall i | 0 <= i < |n| ensures Trim(n[i]) == n[i] && n[i] == ToLower(Trim(f.value[i])) {
        LowerStaysTrimmed(Trim(f.value[i]));
      }
      forall x | x in Providers(f) ensures x in Names(n) {
        var i :| 0 <= i < |f.value| && ToLower(Trim(f.value[i])) == x && x != [];
        assert n[i] in n;
      }
      assert forall v :: v in n ==> exists i :: 0 <= i < |n| && n[i] == v;
    }
  }

  /** Filters that name the same providers share cache entries, and only those do. */
  lemma {:induction false} FilterKeyIsExact(f: Option<seq<string>>, g: Option<seq<string>>)
    ensures NormalizeProviderFilter(f) == NormalizeProviderFilter(g) <==> Providers(f) == Providers(g)
  {
    FilterEntries(f);
    FilterEntries(g);
    if Providers(f) == Providers(g) {
      SortedIsUnique(NormalizeProviderFilter(f), NormalizeProviderFilter(g));
    }
    if NormalizeProviderFilter(f) == NormalizeProviderFilter(g) {
      assert forall x :: x in Providers(f) <==> x in NormalizeProviderFilter(f);
    }
  }

  /** A setting counted in whole units: at least one, or the default. */
  ghost function WholeOr(value: Option<real>, default: int): int {
    if value.Some? && value.value >= 1.0 then value.value.Floor else default
  }

  /** The interval in whole seconds: an hour unless set, and zero if set below one second. */
  ghost function Seconds(c: Config): int {
    if c.refreshInterval.None? then 3600 else WholeOr(c.refreshInterval, 0)
  }

  /** Two calls share a cache entry exactly if they agree in region, in the providers named, in
      the interval and in the two default sizes; the lifetime of an entry is that interval. */
  lemma {:induction false} KeysExactly(region: string, c: Config, region': string, c': Config)
    ensures CacheKey(region, c) == CacheKey(region', c') <==>
      && region == region' && Providers(c.providerFilter) == Providers(c'.providerFilter)
      && Seconds(c) == Seconds(c')
      && WholeOr(c.defaultContextWindow, 32000) == WholeOr(c'.defaultContextWindow, 32000)
      && WholeOr(c.defaultMaxTokens, 4096) == WholeOr(c'.defaultMaxTokens, 4096)
    ensures CacheKey(region, c).refreshIntervalSeconds == Seconds(c)
  {
    FilterKeyIsExact(c.providerFilter, c'.providerFilter);
    hide NormalizeProviderFilter, Providers;
  }

  // ---------- one response ----------

  datatype Summary = Summary(
    modelId: Option<string>, modelName: Option<string>, providerName: Option<string>,
    streaming: bool, inputs: seq<string>, outputs: seq<string>, status: Option<string>)

  datatype Model = Model(
    id: string, name: string, reasoning: bool, input: seq<string>, contextWindow: int, maxTokens: int)

  predicate Mentions(names: seq<string>, word: string) {
    exists i :: 0 <= i < |names| && ToLower(names[i]) == word
  }

  function UpTo(s: string, c: char): string {
    if s == [] || s[0] == c then [] else [s[0]] + UpTo(s[1..], c)
  }

  /** The provider a summary belongs to: named, or the prefix of the model id. */
  function ProviderOf(s: Summary): string {
    ToLower(Trim(if s.providerName.Some? then s.providerName.value else UpTo(OrEmpty(s.modelId), '.')))
  }

  predicate MatchesProviderFilter(s: Summary, filter: seq<string>) {
    filter == [] || (ProviderOf(s) != "" && ProviderOf(s) in filter)
  }

  predicate ShouldInclude(s: Summary, filter: seq<string>) {
    && Trim(OrEmpty(s.modelId)) != ""
    && MatchesProviderFilter(s, filter)
    && s.streaming
    && Mentions(s.outputs, "text")
    && s.status.Some? && ToLower(s.status.value) == "active"
  }

  predicate Contains(s: string, word: string) {
    word <= s || (s != [] && Contains(s[1..], word))
  }

  function MapInputs(inputs: seq<string>, seen: seq<string>): seq<string> {
    if inputs == [] then (if seen == [] then ["text"] else seen)
    else
      var lower := ToLower(inputs[0]);
      MapInputs(inputs[1..], if lower in ["text", "image"] && lower !in seen then seen + [lower] else seen)
  }

  function ToModel(s: Summary, k: Key): Model {
    var id := Trim(OrEmpty(s.modelId));
    var name := Trim(OrEmpty(s.modelName));
    var haystack := ToLower(OrEmpty(s.modelId) + " " + OrEmpty(s.modelName));
    Model(id, if name != "" then name else id,
          Contains(haystack, "reasoning") || Contains(haystack, "thinking"),
          MapInputs(s.inputs, []), k.defaultContextWindow, k.defaultMaxTokens)
  }

  lemma {:induction false} MentionsFirst(inputs: seq<string>, w: string)
    requires inputs != []
    ensures Mentions(inputs, w) <==> ToLower(inputs[0]) == w || Mentions(inputs[1..], w)
  {
    hide ToLower;
    assert forall i :: 0 < i < |inputs| ==> inputs[i] == inputs[1..][i - 1];
  }

  /** The input kinds of a model: text and image as mentioned, each once, and text by default. */
  lemma {:induction false} InputsExactly(inputs: seq<string>, seen: seq<string>)
    requires forall i, j :: 0 <= i < j < |seen| ==> seen[i] != seen[j]
    ensures var r := MapInputs(inputs, seen);
            && (forall i, j :: 0 <= i < j < |r| ==> r[i] != r[j])
            && (forall w :: w in r <==>
                  || w in seen || (w in ["text", "image"] && Mentions(inputs, w))
                  || (w == "text" && seen == [] && !Mentions(inputs, "text") && !Mentions(inputs, "image")))
  {
    if inputs != [] {
      hide ToLower;
      var lower := ToLower(inputs[0]);
      InputsExactly(inputs[1..], if lower in ["text", "image"] && lower !in seen then seen + [lower] else seen);
      MentionsFirst(inputs, "text");
      MentionsFirst(inputs, "image");
    }
  }

  /** Position of the first entry that is this word in any case, or the number of entries. */
  function FirstMention(inputs: seq<string>, word: string): (n: nat)
    ensures n <= |inputs| && (n < |inputs| ==> ToLower(inputs[n]) == word)
    ensures forall i :: 0 <= i < n ==> ToLower(inputs[i]) != word
  {
    if inputs == [] || ToLower(inputs[0]) == word then 0 else 1 + FirstMention(inputs[1..], word)
  }

  /** Text and image as mentioned, in the order of their first mentions, and text by default. */
  ghost predicate InputsAre(inputs: seq<string>, r: seq<string>) {
    var text, image, none := FirstMention(inputs, "text"), FirstMention(inputs, "image"), |inputs|;
    r == if image == none then ["text"] else if text == none then ["image"]
         else if text < image then ["text", "image"] else ["image", "text"]
  }

  lemma {:induction false} MapInputsStep(inputs: seq<string>, seen: seq<string>)
    requires inputs != []
    ensures var lower := ToLower(inputs[0]);
            MapInputs(inputs, seen) ==
              MapInputs(inputs[1..], if lower in ["text", "image"] && lower !in seen then seen + [lower] else seen)
  {}

  lemma {:induction false} AfterBoth(inputs: seq<string>, w: string, other: string)
    requires w in ["text", "image"] && other in ["text", "image"] && w != other
    ensures MapInputs(inputs, [w, other]) == [w, other]
  {
    if inputs != [] {
      hide ToLower;
      AfterBoth(inputs[1..], w, other);
    }
  }

  lemma {:induction false} AfterOne(inputs: seq<string>, w: string, other: string)
    requires w in ["text", "image"] && other in ["text", "image"] && w != other
    ensures MapInputs(inputs, [] + [w]) ==
            if FirstMention(inputs, other) == |inputs| then [w] else [w, other]
  {
    assert [] + [w] == [w] && [w] + [other] == [w, other];
    if inputs != [] {
      hide ToLower, MapInputs;
      MapInputsStep(inputs, [w]);
      if ToLower(inputs[0]) == other {
        AfterBoth(inputs[1..], w, other);
      } else {
        AfterOne(inputs[1..], w, other);
      }
    }
  }

  lemma {:induction false} InputsInOrder(inputs: seq<string>)
    ensures InputsAre(inputs, MapInputs(inputs, []))
  {
    if inputs != [] {
      hide ToLower, MapInputs;
      var lower, rest := ToLower(inputs[0]), inputs[1..];
      MapInputsStep(inputs, []);
      if lower == "text" {
        AfterOne(rest, "text", "image");
      } else if lower == "image" {
        AfterOne(rest, "image", "text");
      } else {
        InputsInOrder(rest);
      }
    }
  }

  /** The word occurs in the text, at some position. */
  lemma {:induction false} ContainsExactly(s: string, word: string)
    ensures Contains(s, word) <==> exists i :: 0 <= i <= |s| && word <= s[i..]
  {
    assert s[0..] == s;
    if s != [] {
      ContainsExactly(s[1..], word);
      assert forall i :: 0 <= i < |s| ==> s[1..][i..] == s[i + 1..];
      assert forall i :: 0 < i <= |s| ==> s[i..] == s[1..][i - 1..];
    }
  }

  /** The models of a response, in the order of its summaries. */
  function Discovered(summaries: seq<Summary>, k: Key): seq<Model> {
    if summaries == [] then []
    else (if ShouldInclude(summaries[0], k.providerFilter) then [ToModel(summaries[0], k)] else [])
         + Discovered(summaries[1..], k)
  }

  lemma {:induction false} DiscoveredOneMore(a: seq<Summary>, s: Summary, k: Key)
    ensures Discovered(a + [s], k) ==
            Discovered(a, k) + if ShouldInclude(s, k.providerFilter) then [ToModel(s, k)] else []
  {
    hide ShouldInclude, ToModel;
    if a == [] {
      assert a + [s] == [s] && [s][1..] == [];
    } else {
      DiscoveredOneMore(a[1..], s, k);
      assert (a + [s])[1..] == a[1..] + [s];
    }
  }

  method CollectModels(summaries: seq<Summary>, k: Key) returns (discovered: seq<Model>)
    ensures discovered == Discovered(summaries, k)
  {
    hide ShouldInclude, ToModel;
    discovered := [];
    for i := 0 to |summaries|
      invariant discovered == Discovered(summaries[..i], k)
    {
      assert summaries[..i + 1] == summaries[..i] + [summaries[i]];
      DiscoveredOneMore(summaries[..i], summaries[i], k);
      if !ShouldInclude(summaries[i], k.providerFilter) {
        continue;
      }
      discovered := discovered + [ToModel(summaries[i], k)];
    }
    assert summaries[..|summaries|] == summaries;
  }

  lemma {:induction false} NoEmptyProvider(f: Option<seq<string>>)
    ensures "" !in Providers(f)
  {}

  lemma {:induction false} IncludedExactly(s: Summary, c: Config)
    ensures ShouldInclude(s, NormalizeProviderFilter(c.providerFilter)) <==>
      && Trim(OrEmpty(s.modelId)) != "" && s.streaming && Mentions(s.outputs, "text")
      && s.status.Some? && ToLower(s.status.value) == "active"
      && (Providers(c.providerFilter) == {} || ProviderOf(s) in Providers(c.providerFilter))
  {
    hide Mentions, ToLower, Trim, ProviderOf, OrEmpty, NormalizeProviderFilter;
    var f := NormalizeProviderFilter(c.providerFilter);
    FilterEntries(c.providerFilter);
    assert f == [] <==> Providers(c.providerFilter) == {} by {
      assert f != [] ==> f[0] in Providers(c.providerFilter);
    }
    NoEmptyProvider(c.providerFilter);
  }

  lemma {:induction false} UpToIsPrefix(s: string, c: char, n: nat)
    requires n <= |s| && c !in s[..n] && (n == |s| || s[n] == c)
    ensures UpTo(s, c) == s[..n]
  {
    if n > 0 {
      assert s[..n][0] == s[0] && s[1..][..n - 1] == s[..n][1..];
      UpToIsPrefix(s[1..], c, n - 1);
      assert s[..n] == [s[0]] + s[1..][..n - 1];
    }
  }

  lemma {:induction false} FirstIn(s: string, c: char) returns (n: nat)
    ensures n <= |s| && c !in s[..n] && (n == |s| || s[n] == c)
  {
    n := 0;
    while n < |s| && s[n] != c
      invariant n <= |s| && c !in s[..n]
    {
      n := n + 1;
    }
  }

  /** The provider is the one named, or else the model id up to its first dot; lower case, trimmed. */
  ghost predicate FromProvider(s: Summary, provider: string) {
    if s.providerName.Some? then provider == ToLower(Trim(s.providerName.value))
    else
      var id := OrEmpty(s.modelId);
      exists n :: 0 <= n <= |id| && '.' !in id[..n] && (n == |id| || id[n] == '.') && provider == ToLower(Trim(id[..n]))
  }

  lemma {:induction false} ProviderExactly(s: Summary, provider: string)
    ensures FromProvider(s, provider) <==> provider == ProviderOf(s)
  {
    hide Trim, ToLower, UpTo;
    if s.providerName.None? {
      var id := OrEmpty(s.modelId);
      var n := FirstIn(id, '.');
      forall m | 0 <= m <= |id| && '.' !in id[..m] && (m == |id| || id[m] == '.') ensures UpTo(id, '.') == id[..m] {
        UpToIsPrefix(id, '.', m);
      }
      assert UpTo(id, '.') == id[..n];
    }
  }

  /** The summary is of an active model that streams text, and of a provider the filter names. */
  ghost predicate Usable(s: Summary, c: Config) {
    && Trim(OrEmpty(s.modelId)) != "" && s.streaming
    && (exists i :: 0 <= i < |s.outputs| && ToLower(s.outputs[i]) == "text")
    && s.status.Some? && ToLower(s.status.value) == "active"
    && (Providers(c.providerFilter) == {} || exists p :: p in Providers(c.providerFilter) && FromProvider(s, p))
  }

  ghost predicate Occurs(word: string, s: string) { exists i :: 0 <= i <= |s| && word <= s[i..] }

  /** The model a summary describes, field by field. */
  ghost predicate Describes(s: Summary, c: Config, m: Model) {
    var id, name := OrEmpty(s.modelId), OrEmpty(s.modelName);
    && m.id == Trim(id) && m.name == (if Trim(name) != "" then Trim(name) else Trim(id))
    && (m.reasoning <==> Occurs("reasoning", ToLower(id + " " + name)) || Occurs("thinking", ToLower(id + " " + name)))
    && InputsAre(s.inputs, m.input)
    && m.contextWindow == WholeOr(c.defaultContextWindow, 32000)
    && m.maxTokens == WholeOr(c.defaultMaxTokens, 4096)
  }

  lemma {:induction false} InputsAreOne(inputs: seq<string>, r: seq<string>, t: seq<string>)
    requires InputsAre(inputs, t)
    ensures InputsAre(inputs, r) <==> r == t
  {}

  lemma {:induction false} ModelExactly(s: Summary, region: string, c: Config, m: Model)
    ensures Describes(s, c, m) <==> m == ToModel(s, CacheKey(region, c))
  {
    hide Trim, ToLower, Contains, MapInputs, InputsAre, NormalizeProviderFilter;
    var haystack := ToLower(OrEmpty(s.modelId) + " " + OrEmpty(s.modelName));
    ContainsExactly(haystack, "reasoning");
    ContainsExactly(haystack, "thinking");
    InputsInOrder(s.inputs);
    InputsAreOne(s.inputs, m.input, MapInputs(s.inputs, []));
  }

  lemma {:induction false} UsableExactly(s: Summary, c: Config)
    ensures ShouldInclude(s, NormalizeProviderFilter(c.providerFilter)) <==> Usable(s, c)
  {
    IncludedExactly(s, c);
    hide ShouldInclude, NormalizeProviderFilter, Trim, ToLower, FromProvider, ProviderOf, Providers;
    forall p ensures FromProvider(s, p) <==> p == ProviderOf(s) {
      ProviderExactly(s, p);
    }
  }

  /** The models are, in order, what the summaries at these positions describe: all the usable
      ones among the first n. */
  ghost predicate Lists(models: seq<Model>, at: seq<nat>, summaries: seq<Summary>, c: Config, n: nat)
    requires n <= |summaries|
  {
    && |at| == |models|
    && (forall k, l :: 0 <= k < l < |at| ==> at[k] < at[l])
    && (forall k :: 0 <= k < |at| ==> at[k] < n && Describes(summaries[at[k]], c, models[k]))
    && forall j :: 0 <= j < n ==> (j in at <==> Usable(summaries[j], c))
  }

  lemma {:induction false} ListsOneMore(
      models: seq<Model>, at: seq<nat>, summaries: seq<Summary>, c: Config, n: nat, m: Model)
    requires n < |summaries| && Lists(models, at, summaries, c, n) && Describes(summaries[n], c, m)
    ensures if Usable(summaries[n], c) then Lists(models + [m], at + [n], summaries, c, n + 1)
            else Lists(models, at, summaries, c, n + 1)
  {
    hide Usable, Describes;
    assert forall j :: j in at ==> j < n;
    assert forall j: nat :: j in at + [n] <==> j in at || j == n;
  }

  lemma {:induction false} ListsNone(summaries: seq<Summary>, c: Config)
    ensures Lists([], [], summaries, c, 0)
  {}

  lemma {:induction false} KeyFilter(region: string, c: Config)
    ensures CacheKey(region, c).providerFilter == NormalizeProviderFilter(c.providerFilter)
  {}

  /** What is discovered for a configuration: what the usable summaries describe, in order. */
  lemma {:induction false} DiscoveredExactly(summaries: seq<Summary>, region: string, c: Config, n: nat)
    returns (at: seq<nat>)
    requires n <= |summaries|
    ensures Lists(Discovered(summaries[..n], CacheKey(region, c)), at, summaries, c, n)
  {
    hide ToModel, Usable, Describes, ShouldInclude, CacheKey, NormalizeProviderFilter, Lists;
    at := [];
    if n == 0 {
      ListsNone(summaries, c);
    } else {
      var s, k := summaries[n - 1], CacheKey(region, c);
      at := DiscoveredExactly(summaries, region, c, n - 1);
      hide Discovered;
      assert summaries[..n] == summaries[..n - 1] + [s];
      DiscoveredOneMore(summaries[..n - 1], s, k);
      UsableExactly(s, c);
      KeyFilter(region, c);
      ModelExactly(s, region, c, ToModel(s, k));
      ListsOneMore(Discovered(summaries[..n - 1], k), at, summaries, c, n - 1, ToModel(s, k));
      if Usable(s, c) {
        at := at + [n - 1];
      }
      assert Discovered(summaries[..n - 1], k) + [] == Discovered(summaries[..n - 1], k);
    }
  }

  // ---------- the cache, the requests and the callers ----------

  /** As in the source, nothing in the type keeps an entry from holding both or neither. */
  datatype CacheEntry = CacheEntry(expiresAt: int, value: Option<seq<Model>>, inFlight: Option<nat>)

  /** A request: sent; its promise settled; or settled and its own caller resumed. */
  datatype Stage =
    | Sent
    | Settled(response: Option<seq<Summary>>)
    | Closed(response: Option<seq<Summary>>)
  datatype Flight = Flight(key: Key, startedAt: int, owner: nat, stage: Stage)

  datatype Reply = FromCache(value: seq<Model>) | FromFlight(flight: nat, answer: Option<seq<Model>>)

  /** A suspended call: the owner of a request, or one that joined it; None is a rejection. */
  datatype Caller =
    | Waiting(key: Key, now: int, flight: nat, owns: bool)
    | Done(key: Key, now: int, reply: Reply)

  datatype State = State(cache: map<Key, CacheEntry>, flights: seq<Flight>, callers: seq<Caller>)

  datatype Event =
    | Call(region: string, config: Config, now: int)
    | Respond(flight: nat, response: Option<seq<Summary>>)
    | OwnerResumes(flight: nat)
    | JoinerResumes(caller: nat)

  function Lifetime(k: Key): int { k.refreshIntervalSeconds * 1000 }

  predicate Fresh(s: State, k: Key, now: int) {
    k in s.cache && s.cache[k].value.Some? && s.cache[k].expiresAt > now
  }

  predicate Joinable(s: State, k: Key) { k in s.cache && s.cache[k].inFlight.Some? }

  function Answer(f: Flight): Option<seq<Model>>
    requires !f.stage.Sent?
  {
    if f.stage.response.None? then None else Some(Discovered(f.stage.response.value, f.key))
  }

  predicate CanClose(s: State, f: nat) {
    f < |s.flights| && s.flights[f].stage.Settled? && s.flights[f].owner < |s.callers|
  }

  predicate CanJoin(s: State, c: nat) {
    && c < |s.callers| && s.callers[c].Waiting? && !s.callers[c].owns
    && s.callers[c].flight < |s.flights| && !s.flights[s.callers[c].flight].stage.Sent?
  }

  /** A call up to its await. With a zero interval the cache is neither read nor written. */
  function AfterCall(s: State, k: Key, now: int): State {
    if k.refreshIntervalSeconds > 0 && Fresh(s, k, now) then
      s.(callers := s.callers + [Done(k, now, FromCache(s.cache[k].value.value))])
    else if k.refreshIntervalSeconds > 0 && Joinable(s, k) then
      s.(callers := s.callers + [Waiting(k, now, s.cache[k].inFlight.value, false)])
    else
      State(
        if k.refreshIntervalSeconds > 0
        then s.cache[k := CacheEntry(now + Lifetime(k), None, Some(|s.flights|))] else s.cache,
        s.flights + [Flight(k, now, |s.callers|, Sent)],
        s.callers + [Waiting(k, now, |s.flights|, true)])
  }

  /** The owner stores the value, or clears the entry and settles for an empty list. */
  function AfterClose(s: State, f: nat): State
    requires CanClose(s, f)
  {
    var fl := s.flights[f];
    var k := fl.key;
    var value := Answer(fl);
    State(
      if k.refreshIntervalSeconds == 0 then s.cache
      else if value.Some? then s.cache[k := CacheEntry(fl.startedAt + Lifetime(k), value, None)]
      else s.cache - {k},
      s.flights[f := fl.(stage := Closed(fl.stage.response))],
      s.callers[fl.owner := Done(k, fl.startedAt,
                                 FromFlight(f, Some(if value.Some? then value.value else [])))])
  }

  /** One step; an event that cannot happen changes nothing. */
  function Next(s: State, e: Event): State {
    match e
    case Call(region, config, now) => AfterCall(s, CacheKey(region, config), now)
    case Respond(f, response) =>
      if f < |s.flights| && s.flights[f].stage.Sent?
      then s.(flights := s.flights[f := s.flights[f].(stage := Settled(response))]) else s
    case OwnerResumes(f) => if CanClose(s, f) then AfterClose(s, f) else s
    case JoinerResumes(c) =>
      if CanJoin(s, c) then
        var w := s.callers[c];
        s.(callers := s.callers[c := Done(w.key, w.now, FromFlight(w.flight, Answer(s.flights[w.flight])))])
      else s
  }

  function Initial(): State { State(map[], [], []) }

  /** The module's cache, with the promises and suspended calls the event loop holds. */
  class Discovery {
    var cache: map<Key, CacheEntry>
    var flights: seq<Flight>
    var callers: seq<Caller>

    function Value(): State
      reads this
    {
      State(cache, flights, callers)
    }

    constructor ()
      ensures Value() == Initial()
    {
      cache, flights, callers := map[], [], [];
    }

    method DiscoverBedrockModels(region: string, config: Config, now: int)
      modifies this
      ensures Value() == Next(old(Value()), Call(region, config, now))
    {
      hide CacheKey;
      var cacheKey := CacheKey(region, config);
      var caching := cacheKey.refreshIntervalSeconds > 0;
      if caching && cacheKey in cache {
        var cached := cache[cacheKey];
        if cached.value.Some? && cached.expiresAt > now {
          callers := callers + [Done(cacheKey, now, FromCache(cached.value.value))];
          return;
        }
        if cached.inFlight.Some? {
          callers := callers + [Waiting(cacheKey, now, cached.inFlight.value, false)];
          return;
        }
      }
      var flight := |flights|;
      flights := flights + [Flight(cacheKey, now, |callers|, Sent)];
      if caching {
        cache := cache[cacheKey := CacheEntry(now + Lifetime(cacheKey), None, Some(flight))];
      }
      callers := callers + [Waiting(cacheKey, now, flight, true)];
    }

    method ResponseArrives(f: nat, response: Option<seq<Summary>>)
      requires f < |flights| && flights[f].stage.Sent?
      modifies this
      ensures Value() == Next(old(Value()), Respond(f, response))
    {
      flights := flights[f := flights[f].(stage := Settled(response))];
    }

    /** A joined call is answered, or rejected, with what the promise holds. */
    method ServeJoiner(c: nat)
      requires CanJoin(Value(), c)
      modifies this
      ensures Value() == Next(old(Value()), JoinerResumes(c))
    {
      var w := callers[c];
      callers := callers[c := Done(w.key, w.now, FromFlight(w.flight, Answer(flights[w.flight])))];
    }

    /** The code after the owner's await. */
    method FinishDiscovery(f: nat)
      requires CanClose(Value(), f)
      modifies this
      ensures Value() == Next(old(Value()), OwnerResumes(f))
    {
      hide Discovered, CacheKey, AfterCall;
      var fl := flights[f];
      var caching := fl.key.refreshIntervalSeconds > 0;
      var answer: seq<Model>;
      if fl.stage.response.Some? {
        var value := CollectModels(fl.stage.response.value, fl.key);
        if caching {
          cache := cache[fl.key := CacheEntry(fl.startedAt + Lifetime(fl.key), Some(value), None)];
        }
        answer := value;
      } else {
        if caching {
          cache := cache - {fl.key};
        }
        answer := [];
      }
      flights := flights[f := fl.(stage := Closed(fl.stage.response))];
      callers := callers[fl.owner := Done(fl.key, fl.startedAt, FromFlight(f, Some(answer)))];
    }
  }

  // ---------- what holds in every interleaving ----------

  ghost function Run(es: seq<Event>): State {
    if es == [] then Initial() else Next(Run(es[..|es| - 1]), es[|es| - 1])
  }

  /** A cached request whose owner has not resumed. */
  predicate Open(s: State, f: nat) {
    f < |s.flights| && s.flights[f].key.refreshIntervalSeconds > 0 && !s.flights[f].stage.Closed?
  }

  /** The request succeeded for this key with this list, and its owner stored it. */
  predicate Supplied(s: State, f: nat, k: Key, value: seq<Model>) {
    && f < |s.flights| && s.flights[f].key == k && s.flights[f].stage.Closed?
    && Answer(s.flights[f]) == Some(value)
  }

  /** An entry is the mark of an open request, or the list a closed one supplied; either way
      it expires one interval after that request's call. */
  ghost predicate EntryExact(s: State, k: Key) {
    && k in s.cache && k.refreshIntervalSeconds > 0
    && var e := s.cache[k];
       if e.inFlight.Some? then
         && e.value.None? && Open(s, e.inFlight.value) && s.flights[e.inFlight.value].key == k
         && e.expiresAt == s.flights[e.inFlight.value].startedAt + 1000 * k.refreshIntervalSeconds
       else
         && e.value.Some?
         && exists f: nat ::
              && Supplied(s, f, k, e.value.value)
              && e.expiresAt == s.flights[f].startedAt + 1000 * k.refreshIntervalSeconds
  }

  ghost predicate CacheExact(s: State) {
    && (forall k :: k in s.cache ==> EntryExact(s, k))
    && (forall f: nat :: Open(s, f) ==>
          s.flights[f].key in s.cache && s.cache[s.flights[f].key].inFlight == Some(f))
  }

  ghost predicate GoodReply(s: State, k: Key, now: int, reply: Reply) {
    match reply
    case FromCache(value) =>
      exists f: nat :: Supplied(s, f, k, value) && now - s.flights[f].startedAt < 1000 * k.refreshIntervalSeconds
    case FromFlight(f, answer) =>
      && f < |s.flights| && s.flights[f].key == k && !s.flights[f].stage.Sent?
      && (answer == Answer(s.flights[f]) || (Answer(s.flights[f]).None? && answer == Some([])))
  }

  ghost predicate GoodCaller(s: State, i: nat)
    requires i < |s.callers|
  {
    match s.callers[i]
    case Waiting(k, now, f, owns) =>
      && f < |s.flights| && s.flights[f].key == k
      && (owns ==> s.flights[f].owner == i && s.flights[f].startedAt == now && !s.flights[f].stage.Closed?)
      && (!owns ==> s.flights[f].owner != i)
    case Done(k, now, reply) => GoodReply(s, k, now, reply)
  }

  /** Every request has its owner: waiting until it resumes. */
  ghost predicate OwnersWait(s: State) {
    forall f :: 0 <= f < |s.flights| ==>
      && s.flights[f].owner < |s.callers|
      && (!s.flights[f].stage.Closed? ==>
            s.callers[s.flights[f].owner] == Waiting(s.flights[f].key, s.flights[f].startedAt, f, true))
  }

  ghost predicate CallersGood(s: State) {
    && OwnersWait(s)
    && forall i :: 0 <= i < |s.callers| ==> GoodCaller(s, i)
  }

  /** Requests only advance. */
  ghost predicate Advances(s: State, t: State) {
    && |s.flights| <= |t.flights|
    && forall f :: 0 <= f < |s.flights| ==>
         && t.flights[f].key == s.flights[f].key && t.flights[f].owner == s.flights[f].owner
         && t.flights[f].startedAt == s.flights[f].startedAt
         && (!s.flights[f].stage.Sent? ==>
               !t.flights[f].stage.Sent? && t.flights[f].stage.response == s.flights[f].stage.response)
         && (s.flights[f].stage.Closed? ==> t.flights[f].stage.Closed?)
  }

  lemma {:induction false} StepAdvances(s: State, e: Event)
    ensures Advances(s, Next(s, e))
  {
    hide CacheKey, Answer;
  }

  lemma {:induction false} ValueEntryStays(s: State, t: State, k: Key)
    requires Advances(s, t) && EntryExact(s, k) && s.cache[k].inFlight.None?
    requires k in t.cache && t.cache[k] == s.cache[k]
    ensures EntryExact(t, k)
  {}

  lemma {:induction false} CallKeepsCache(s: State, k: Key, now: int)
    requires CacheExact(s)
    ensures CacheExact(AfterCall(s, k, now))
  {
    hide Supplied, Answer;
    var t := AfterCall(s, k, now);
    assert Advances(s, t);
    forall j | j in t.cache ensures EntryExact(t, j) {
      if j in s.cache && t.cache[j] == s.cache[j] && s.cache[j].inFlight.None? {
        ValueEntryStays(s, t, j);
      }
    }
  }

  lemma {:induction false} RespondKeepsCache(s: State, f: nat, response: Option<seq<Summary>>)
    requires CacheExact(s)
    ensures CacheExact(Next(s, Respond(f, response)))
  {
    hide Supplied, Answer;
    var t := Next(s, Respond(f, response));
    StepAdvances(s, Respond(f, response));
    assert forall g: nat :: Open(t, g) <==> Open(s, g);
    forall j | j in t.cache ensures EntryExact(t, j) {
      if s.cache[j].inFlight.None? { ValueEntryStays(s, t, j); }
    }
  }

  lemma {:induction false} CloseKeepsCache(s: State, f: nat)
    requires CacheExact(s) && CanClose(s, f)
    ensures CacheExact(AfterClose(s, f))
  {
    hide Discovered;
    var t := AfterClose(s, f);
    var k := s.flights[f].key;
    StepAdvances(s, OwnerResumes(f));
    forall g: nat | Open(t, g)
      ensures t.flights[g].key in t.cache && t.cache[t.flights[g].key].inFlight == Some(g)
    {
      assert Open(s, g) && g != f;
      assert Open(s, f) ==> t.flights[g].key != k;
    }
    forall j | j in t.cache ensures EntryExact(t, j) {
      if j == k && k.refreshIntervalSeconds > 0 {
        assert Supplied(t, f, k, t.cache[k].value.value);
      } else if s.cache[j].inFlight.None? {
        ValueEntryStays(s, t, j);
      }
    }
  }

  lemma {:induction false} JoinKeepsCache(s: State, t: State)
    requires CacheExact(s) && t.cache == s.cache && t.flights == s.flights
    ensures CacheExact(t)
  {}

  lemma {:induction false} StepKeepsCache(s: State, e: Event)
    requires CacheExact(s)
    ensures CacheExact(Next(s, e))
  {
    hide CacheKey, Supplied, Answer, EntryExact;
    match e
    case Call(region, config, now) => CallKeepsCache(s, CacheKey(region, config), now);
    case Respond(f, response) => RespondKeepsCache(s, f, response);
    case OwnerResumes(f) => if CanClose(s, f) { CloseKeepsCache(s, f); }
    case JoinerResumes(c) => JoinKeepsCache(s, Next(s, e));
  }

  lemma {:induction false} ReplyStaysGood(s: State, t: State, k: Key, now: int, reply: Reply)
    requires Advances(s, t) && GoodReply(s, k, now, reply)
    ensures GoodReply(t, k, now, reply)
  {}

  lemma {:induction false} CachedReplyIsGood(s: State, k: Key, now: int)
    requires CacheExact(s) && Fresh(s, k, now)
    ensures GoodReply(s, k, now, FromCache(s.cache[k].value.value))
  {}

  lemma {:induction false} CallKeepsCallers(s: State, k: Key, now: int)
    requires CacheExact(s) && CallersGood(s)
    ensures CallersGood(AfterCall(s, k, now))
  {
    hide Answer, Supplied, GoodReply;
    var t := AfterCall(s, k, now);
    assert Advances(s, t);
    forall i | 0 <= i < |t.callers| ensures GoodCaller(t, i) {
      if i < |s.callers| {
        assert GoodCaller(s, i);
        if s.callers[i].Done? { ReplyStaysGood(s, t, s.callers[i].key, s.callers[i].now, s.callers[i].reply); }
      } else if t.callers[i].Done? {
        CachedReplyIsGood(s, k, now);
        ReplyStaysGood(s, t, k, now, t.callers[i].reply);
      } else {
        assert k in s.cache ==> EntryExact(s, k);
      }
    }
  }

  lemma {:induction false} ResumedReplyIsGood(s: State, e: Event, i: nat)
    requires CallersGood(s) && !e.Call? && i < |s.callers| && s.callers[i].Waiting?
    requires Next(s, e).callers[i].Done?
    ensures GoodCaller(Next(s, e), i)
  {
    hide Supplied, Discovered;
    assert GoodCaller(s, i);
  }

  lemma {:induction false} OtherKeepsCallers(s: State, e: Event)
    requires CallersGood(s) && !e.Call?
    ensures CallersGood(Next(s, e))
  {
    hide Supplied, GoodReply, Discovered;
    var t := Next(s, e);
    StepAdvances(s, e);
    forall i | 0 <= i < |t.callers| ensures GoodCaller(t, i) {
      assert GoodCaller(s, i);
      var c := s.callers[i];
      if c.Done? {
        ReplyStaysGood(s, t, c.key, c.now, c.reply);
        assert t.callers[i] == c;
      } else if t.callers[i].Done? {
        ResumedReplyIsGood(s, e, i);
      }
    }
  }

  lemma {:induction false} CallIsAfterCall(s: State, e: Event)
    requires e.Call?
    ensures Next(s, e) == AfterCall(s, CacheKey(e.region, e.config), e.now)
  {}

  /** Every reachable state, whatever the interleaving. */
  lemma {:induction false} RunKeepsInvariant(es: seq<Event>)
    ensures CacheExact(Run(es)) && CallersGood(Run(es))
  {
    if es != [] {
      hide CacheExact, CallersGood, Next, CacheKey;
      var s, e := Run(es[..|es| - 1]), es[|es| - 1];
      RunKeepsInvariant(es[..|es| - 1]);
      StepKeepsCache(s, e);
      if e.Call? {
        CallKeepsCallers(s, CacheKey(e.region, e.config), e.now);
        CallIsAfterCall(s, e);
      } else {
        OtherKeepsCallers(s, e);
      }
    }
  }

  // ---------- what callers may rely on ----------

  /** Every entry holds exactly one of a value and a request in flight. */
  lemma {:induction false} EntriesHoldExactlyOne(es: seq<Event>, k: Key)
    requires k in Run(es).cache
    ensures Run(es).cache[k].value.Some? != Run(es).cache[k].inFlight.Some?
    ensures k.refreshIntervalSeconds > 0
  {
    hide Run, CallersGood, Supplied;
    RunKeepsInvariant(es);
    assert EntryExact(Run(es), k);
  }

  /** No two cached requests for one key are open at once, and an entry is marked in flight
      exactly while one is. */
  lemma {:induction false} SingleFlight(es: seq<Event>)
    ensures forall f: nat, g: nat ::
              (Open(Run(es), f) && Open(Run(es), g) && Run(es).flights[f].key == Run(es).flights[g].key) ==> f == g
    ensures forall k: Key :: Joinable(Run(es), k) <==>
              exists f: nat :: Open(Run(es), f) && Run(es).flights[f].key == k
  {
    hide Run, CallersGood, Supplied;
    RunKeepsInvariant(es);
    var s := Run(es);
    forall k: Key | Joinable(s, k) ensures exists f: nat :: Open(s, f) && s.flights[f].key == k {
      assert EntryExact(s, k);
    }
  }

  /** A call is answered from the cache exactly when a list of its key is stored and has not
      expired. Otherwise it sends a request exactly when none of its key is open, and with a zero
      interval always, leaving the cache alone; or else it waits for the open one. */
  lemma {:induction false} CallSendsExactlyWhenNeeded(es: seq<Event>, k: Key, now: int)
    ensures var s, t := Run(es), AfterCall(Run(es), k, now);
            var stored := && k.refreshIntervalSeconds > 0 && k in s.cache
                         && s.cache[k].value.Some? && now < s.cache[k].expiresAt;
            var needed := && !stored
                          && (k.refreshIntervalSeconds > 0 ==> forall f: nat :: Open(s, f) ==> s.flights[f].key != k);
            && t.flights == (if needed then s.flights + [Flight(k, now, |s.callers|, Sent)] else s.flights)
            && (k.refreshIntervalSeconds == 0 ==> t.cache == s.cache)
            && |t.callers| == |s.callers| + 1 && t.callers[..|s.callers|] == s.callers
            && match t.callers[|s.callers|]
               case Done(key, at, reply) =>
                 stored && (key, at) == (k, now) && reply == FromCache(s.cache[k].value.value)
               case Waiting(key, at, f, owns) =>
                 && !stored && (key, at) == (k, now) && owns == needed
                 && f < |t.flights| && t.flights[f].key == k && !t.flights[f].stage.Closed?
  {
    hide Run, CallersGood, Supplied;
    RunKeepsInvariant(es);
    SingleFlight(es);
  }

  /** A successful attempt stores its list for one interval from its own call, and answers with it. */
  lemma {:induction false} SuccessIsStored(es: seq<Event>, f: nat)
    requires CanClose(Run(es), f) && Run(es).flights[f].stage.response.Some?
    ensures var s, t := Run(es), Next(Run(es), OwnerResumes(f));
            var k, list := s.flights[f].key, Discovered(s.flights[f].stage.response.value, s.flights[f].key);
            && t.cache == (if k.refreshIntervalSeconds == 0 then s.cache
                           else s.cache[k := CacheEntry(s.flights[f].startedAt + 1000 * k.refreshIntervalSeconds,
                                                        Some(list), None)])
            && t.callers[s.flights[f].owner].Done?
            && t.callers[s.flights[f].owner].reply == FromFlight(f, Some(list))
  {
    hide Run, Discovered;
  }

  /** A list served from the cache was discovered under the caller's own key, from a response
      to a call that began less than one refresh interval before. */
  lemma {:induction false} CachedListsAreRecent(es: seq<Event>, c: nat)
    requires c < |Run(es).callers| && Run(es).callers[c].Done? && Run(es).callers[c].reply.FromCache?
    ensures var s, d := Run(es), Run(es).callers[c];
            exists f: nat ::
              && f < |s.flights| && s.flights[f].key == d.key && s.flights[f].stage.Closed?
              && s.flights[f].stage.response.Some?
              && d.reply.value == Discovered(s.flights[f].stage.response.value, d.key)
              && d.now - s.flights[f].startedAt < 1000 * d.key.refreshIntervalSeconds
  {
    hide Run, CacheExact, Discovered;
    RunKeepsInvariant(es);
    assert GoodCaller(Run(es), c);
  }

  /** A failed attempt leaves no entry behind. Its own caller gets an empty list, while calls
      that joined it are rejected. */
  lemma {:induction false} FailureLeavesNothing(es: seq<Event>, f: nat)
    requires CanClose(Run(es), f) && Run(es).flights[f].stage.response.None?
    requires Run(es).flights[f].key.refreshIntervalSeconds > 0
    ensures var s, t := Run(es), Next(Run(es), OwnerResumes(f));
            && s.flights[f].key in s.cache && t.cache == s.cache - {s.flights[f].key}
            && t.callers[s.flights[f].owner].Done?
            && t.callers[s.flights[f].owner].reply == FromFlight(f, Some([]))
    ensures var s := Run(es);
            forall c: nat :: CanJoin(s, c) && s.callers[c].flight == f ==>
              Next(s, JoinerResumes(c)).callers[c] == Done(s.callers[c].key, s.callers[c].now, FromFlight(f, None))
  {
    hide Run, CallersGood, EntryExact, Discovered;
    RunKeepsInvariant(es);
    assert Open(Run(es), f);
  }

  /** Every reply taken from a request is that request's answer under the caller's own key; an
      owner turns a failure into the empty list. */
  lemma {:induction false} EveryReplyIsGood(es: seq<Event>, c: nat)
    requires c < |Run(es).callers| && Run(es).callers[c].Done?
    ensures GoodReply(Run(es), Run(es).callers[c].key, Run(es).callers[c].now, Run(es).callers[c].reply)
  {
    hide Run, CacheExact, GoodReply;
    RunKeepsInvariant(es);
    assert GoodCaller(Run(es), c);
  }

  /** The request a caller waits for, or was answered from. */
  function Source(c: Caller): Option<nat> {
    match c
    case Waiting(_, _, f, _) => Some(f)
    case Done(_, _, FromFlight(f, _)) => Some(f)
    case Done(_, _, FromCache(_)) => None
  }

  /** No caller that came after state s relies on a request that was finished by then. */
  ghost predicate NoneStale(s: State, t: State) {
    forall i :: |s.callers| <= i < |t.callers| && Source(t.callers[i]).Some? ==>
      !(Source(t.callers[i]).value < |s.flights| && s.flights[Source(t.callers[i]).value].stage.Closed?)
  }

  lemma {:induction false} CallKeepsNoneStale(s: State, t: State, k: Key, now: int)
    requires CacheExact(t) && Advances(s, t) && NoneStale(s, t) && |s.callers| <= |t.callers|
    ensures NoneStale(s, AfterCall(t, k, now)) && |s.callers| <= |AfterCall(t, k, now).callers|
  {
    hide Supplied;
    assert k in t.cache ==> EntryExact(t, k);
  }

  lemma {:induction false} StepKeepsNoneStale(s: State, t: State, e: Event)
    requires CacheExact(t) && CallersGood(t) && Advances(s, t) && NoneStale(s, t) && |s.callers| <= |t.callers|
    ensures Advances(s, Next(t, e)) && NoneStale(s, Next(t, e)) && |s.callers| <= |Next(t, e).callers|
  {
    hide Supplied, CacheKey, Discovered, AfterCall, CacheExact;
    StepAdvances(t, e);
    match e
    case Call(region, config, now) => CallKeepsNoneStale(s, t, CacheKey(region, config), now);
    case Respond(f, response) =>
    case OwnerResumes(f) => assert OwnersWait(t);
    case JoinerResumes(c) =>
  }

  /** A reply taken from a request comes from one that had not finished when the call began:
      those finished by then are never the source. */
  lemma {:induction false} RequestFinishedAfterCallBegan(before: seq<Event>, after: seq<Event>)
    ensures Advances(Run(before), Run(before + after)) && NoneStale(Run(before), Run(before + after))
    ensures |Run(before).callers| <= |Run(before + after).callers|
    decreases |after|
  {
    if after == [] {
      assert before + after == before;
    } else {
      hide Advances, NoneStale, CacheExact, CallersGood, Next;
      var n := |after| - 1;
      var es := before + after[..n];
      RequestFinishedAfterCallBegan(before, after[..n]);
      RunKeepsInvariant(es);
      assert (before + after)[..|es|] == es && before + after == es + [after[n]];
      StepKeepsNoneStale(Run(before), Run(es), after[n]);
    }
  }

  lemma {:induction false} RunOne(es: seq<Event>, e: Event)
    ensures Run(es + [e]) == Next(Run(es), e)
  {}

  /** No call is stuck: once its request is answered, a waiting call can be served. */
  lemma {:induction false} WaitersCanBeServed(es: seq<Event>, c: nat, response: Option<seq<Summary>>)
    returns (more: seq<Event>)
    requires c < |Run(es).callers| && Run(es).callers[c].Waiting?
    ensures |more| <= 2 && c < |Run(es + more).callers| && Run(es + more).callers[c].Done?
  {
    hide Run, CacheExact, Supplied, Discovered, CacheKey;
    RunKeepsInvariant(es);
    var s := Run(es);
    var w := s.callers[c];
    assert GoodCaller(s, c);
    var e1 := Respond(w.flight, response);
    var e2 := if w.owns then OwnerResumes(w.flight) else JoinerResumes(c);
    if s.flights[w.flight].stage.Sent? {
      RunOne(es, e1);
      RunOne(es + [e1], e2);
      more := [e1, e2];
      assert es + more == es + [e1] + [e2];
    } else {
      RunOne(es, e2);
      more := [e2];
    }
  }
}
