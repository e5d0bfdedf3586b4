/** The bounded, expiring model cache of the Chutes provider (extensions/chutes/models.ts).
    A JavaScript Map is its slots in insertion order; updating a key keeps its place. */
module ChutesCache {
  import opened JsText

  const CACHE_TTL := 5 * 60 * 1000
  const CACHE_MAX_ENTRIES := 100

  type Models = seq<string>

  datatype Slot = Slot(key: string, models: Models, time: int)

  // ---------- maps in insertion order ----------

  /** Position of a key, or the number of slots. */
  function IndexOf(slots: seq<Slot>, key: string): (i: nat)
    ensures i <= |slots| && (i < |slots| ==> slots[i].key == key)
    ensures forall j :: 0 <= j < i ==> slots[j].key != key
  {
    if slots == [] || slots[0].key == key then 0 else 1 + IndexOf(slots[1..], key)
  }

  predicate Has(slots: seq<Slot>, key: string) { IndexOf(slots, key) < |slots| }

  function Set(slots: seq<Slot>, s: Slot): seq<Slot> {
    if Has(slots, s.key) then slots[IndexOf(slots, s.key) := s] else slots + [s]
  }

  predicate Expired(s: Slot, now: int) { now - s.time >= CACHE_TTL }

  function Live(slots: seq<Slot>, now: int): seq<Slot> {
    if slots == [] then []
    else (if Expired(slots[0], now) then [] else [slots[0]]) + Live(slots[1..], now)
  }

  /** The map after making room for a key: at capacity a new key drops the first slot. */
  function WithRoom(slots: seq<Slot>, key: string): seq<Slot> {
    if !Has(slots, key) && |slots| >= CACHE_MAX_ENTRIES then slots[1..] else slots
  }

  function Stored(slots: seq<Slot>, key: string, models: Models, now: int): seq<Slot> {
    Set(WithRoom(Live(slots, now), key), Slot(key, models, now))
  }

  // ---------- the module's variable and functions ----------

  /** The result of pruning, i slots having been visited and kept. */
  ghost function Pruned(slots: seq<Slot>, i: nat, now: int): seq<Slot>
    requires i <= |slots|
  {
    slots[..i] + Live(slots[i..], now)
  }

  lemma {:induction false} PruneStart(slots: seq<Slot>, now: int)
    ensures Pruned(slots, 0, now) == Live(slots, now)
  {}

  lemma {:induction false} PruneEnd(slots: seq<Slot>, now: int)
    ensures Pruned(slots, |slots|, now) == slots
  {}

  lemma {:induction false} PruneStep(slots: seq<Slot>, i: nat, now: int)
    requires i < |slots|
    ensures Pruned(slots, i, now) ==
            if Expired(slots[i], now) then Pruned(slots[..i] + slots[i + 1..], i, now)
            else Pruned(slots, i + 1, now)
  {}

  class ModelCache {
    var slots: seq<Slot>

    constructor ()
      ensures slots == []
    {
      slots := [];
    }

    method PruneExpiredCacheEntries(now: int)
      modifies this
      ensures slots == Live(old(slots), now)
    {
      var i := 0;
      PruneStart(slots, now);
      while i < |slots|
        invariant 0 <= i <= |slots|
        invariant Pruned(slots, i, now) == Live(old(slots), now)
        decreases |slots| - i
      {
        hide Pruned, Live;
        PruneStep(slots, i, now);
        if Expired(slots[i], now) {
          slots := slots[..i] + slots[i + 1..];
        } else {
          i := i + 1;
        }
      }
      PruneEnd(slots, now);
    }

    /** The lookup at the start of a discovery. */
    method Lookup(accessToken: Option<string>, now: int) returns (hit: Option<Models>)
      modifies this
      ensures slots == Live(old(slots), now)
      ensures var key := if accessToken.Some? then Trim(accessToken.value) else "";
              hit == if Has(slots, key) then Some(slots[IndexOf(slots, key)].models) else None
    {
      var trimmedKey := if accessToken.Some? then Trim(accessToken.value) else "";
      PruneExpiredCacheEntries(now);
      if Has(slots, trimmedKey) {
        return Some(slots[IndexOf(slots, trimmedKey)].models);
      }
      return None;
    }

    method CacheAndReturn(tokenKey: string, models: Models, now: int) returns (r: Models)
      modifies this
      ensures slots == Stored(old(slots), tokenKey, models, now) && r == models
    {
      PruneExpiredCacheEntries(now);
      if !Has(slots, tokenKey) && |slots| >= CACHE_MAX_ENTRIES {
        slots := slots[1..];
      }
      slots := Set(slots, Slot(tokenKey, models, now));
      return models;
    }
  }

  lemma {:induction false} LiveStep(slots: seq<Slot>, now: int)
    requires slots != []
    ensures Live(slots, now) == (if Expired(slots[0], now) then [] else [slots[0]]) + Live(slots[1..], now)
  {}

  // ---------- every run ----------

  /** Discoveries interleave: any number may look up before any of them stores. */
  datatype Event = Look(now: int) | Store(key: string, models: Models, now: int)

  ghost function Next(slots: seq<Slot>, e: Event): seq<Slot> {
    match e
    case Look(now) => Live(slots, now)
    case Store(key, models, now) => Stored(slots, key, models, now)
  }

  ghost function Run(es: seq<Event>): seq<Slot> {
    if es == [] then [] else Next(Run(es[..|es| - 1]), es[|es| - 1])
  }

  ghost predicate Distinct(slots: seq<Slot>) {
    forall i, j :: 0 <= i < j < |slots| ==> slots[i].key != slots[j].key
  }

  /** The last list stored for a key, with the time it was stored. */
  ghost function LastStored(es: seq<Event>, key: string): Option<Slot> {
    if es == [] then None
    else
      var e := es[|es| - 1];
      if e.Store? && e.key == key then Some(Slot(key, e.models, e.now))
      else LastStored(es[..|es| - 1], key)
  }

  /** The event that put a present key into the map, when it was last absent. */
  ghost function Born(es: seq<Event>, key: string): int {
    if es == [] then -1
    else
      var n := |es| - 1;
      if es[n].Store? && es[n].key == key && !Has(Live(Run(es[..n]), es[n].now), key) then n
      else Born(es[..n], key)
  }

  ghost predicate InOrder(es: seq<Event>, slots: seq<Slot>) {
    forall i, j :: 0 <= i < j < |slots| ==> Born(es, slots[i].key) < Born(es, slots[j].key)
  }

  /** What holds of the map in every reachable state. */
  ghost predicate Inv(es: seq<Event>, slots: seq<Slot>) {
    && |slots| <= CACHE_MAX_ENTRIES
    && (forall s :: s in slots ==> LastStored(es, s.key) == Some(s) && Born(es, s.key) < |es|)
    && InOrder(es, slots)
  }

  lemma {:induction false} LiveMembers(slots: seq<Slot>, now: int)
    ensures forall s :: s in Live(slots, now) <==> s in slots && !Expired(s, now)
    ensures |Live(slots, now)| <= |slots|
  {
    if slots != [] {
      LiveMembers(slots[1..], now);
      assert slots == [slots[0]] + slots[1..];
    }
  }

  lemma {:induction false} OrderPrepends(es: seq<Event>, s: Slot, kept: seq<Slot>)
    requires InOrder(es, kept)
    requires forall j :: 0 <= j < |kept| ==> Born(es, s.key) < Born(es, kept[j].key)
    ensures InOrder(es, [s] + kept) && [] + kept == kept
  {
    hide Born;
    var all := [s] + kept;
    assert forall i :: 0 < i < |all| ==> all[i] == kept[i - 1];
  }

  lemma {:induction false} LiveKeepsOrder(es: seq<Event>, slots: seq<Slot>, now: int)
    requires InOrder(es, slots)
    ensures InOrder(es, Live(slots, now))
  {
    if slots != [] {
      hide Born, Expired;
      var rest, kept := slots[1..], Live(slots[1..], now);
      assert forall i :: 0 <= i < |rest| ==> rest[i] == slots[i + 1];
      LiveKeepsOrder(es, rest, now);
      LiveMembers(rest, now);
      forall j | 0 <= j < |kept| ensures Born(es, slots[0].key) < Born(es, kept[j].key) {
        assert kept[j] in rest;
      }
      LiveStep(slots, now);
      OrderPrepends(es, slots[0], kept);
    }
  }

  /** Dropping expired slots, or the first one, keeps the invariant. */
  lemma {:induction false} DropsKeepInv(es: seq<Event>, slots: seq<Slot>, now: int, key: string)
    requires Inv(es, slots)
    ensures Inv(es, Live(slots, now)) && Inv(es, WithRoom(slots, key))
  {
    hide Born, LastStored, Has;
    LiveMembers(slots, now);
    LiveKeepsOrder(es, slots, now);
    var room := WithRoom(slots, key);
    var d := |slots| - |room|;
    assert forall i :: 0 <= i < |room| ==> room[i] == slots[i + d];
  }

  lemma {:induction false} InvIsDistinct(es: seq<Event>, slots: seq<Slot>)
    requires InOrder(es, slots)
    ensures Distinct(slots)
  {}

  lemma {:induction false} HasMeansIn(slots: seq<Slot>, key: string)
    ensures Has(slots, key) <==> exists s :: s in slots && s.key == key
  {}

  /** Storing a new key appends the youngest slot. */
  lemma {:induction false} AppendKeepsInv(es: seq<Event>, e: Event, room: seq<Slot>)
    requires e.Store? && !Has(Live(Run(es), e.now), e.key)
    requires Inv(es, room) && |room| < CACHE_MAX_ENTRIES && forall s :: s in room ==> s.key != e.key
    ensures Inv(es + [e], room + [Slot(e.key, e.models, e.now)])
  {}

  /** Storing a present key refreshes its slot in place. */
  lemma {:induction false} UpdateKeepsInv(es: seq<Event>, e: Event, live: seq<Slot>, k: nat)
    requires e.Store? && Has(Live(Run(es), e.now), e.key)
    requires Inv(es, live) && k < |live| && live[k].key == e.key
    ensures Inv(es + [e], live[k := Slot(e.key, e.models, e.now)])
  {
    hide Live, Has, Run;
    InvIsDistinct(es, live);
    var after := live[k := Slot(e.key, e.models, e.now)];
    assert (es + [e])[..|es|] == es;
    forall i | 0 <= i < |live|
      ensures Born(es + [e], after[i].key) == Born(es, live[i].key) < |es|
      ensures LastStored(es + [e], after[i].key) == Some(after[i])
    {
      assert live[i] in live;
      assert i != k ==> live[i].key != e.key;
    }
  }

  lemma {:induction false} InvIsBounded(es: seq<Event>, slots: seq<Slot>)
    requires Inv(es, slots)
    ensures |slots| <= CACHE_MAX_ENTRIES && Distinct(slots)
    ensures forall s :: s in slots ==> LastStored(es, s.key) == Some(s)
  {}

  lemma {:induction false} StoreKeepsInv(es: seq<Event>, e: Event)
    requires e.Store? && Inv(es, Run(es))
    ensures Inv(es + [e], Stored(Run(es), e.key, e.models, e.now))
  {
    hide Inv, Live, IndexOf, Run;
    var live := Live(Run(es), e.now);
    DropsKeepInv(es, Run(es), e.now, e.key);
    DropsKeepInv(es, live, e.now, e.key);
    HasMeansIn(live, e.key);
    if Has(live, e.key) {
      UpdateKeepsInv(es, e, live, IndexOf(live, e.key));
    } else {
      var room := WithRoom(live, e.key);
      HasMeansIn(room, e.key);
      assert forall s :: s in room ==> s in live;
      InvIsBounded(es, live);
      AppendKeepsInv(es, e, room);
    }
  }

  lemma {:induction false} LookKeepsInv(es: seq<Event>, e: Event, live: seq<Slot>)
    requires e.Look? && Inv(es, live)
    ensures Inv(es + [e], live)
  {}

  /** In every run the map has at most 100 distinct keys, each slot holds the last list
      stored for its key, and slots stand in the order in which their keys came in. */
  lemma {:induction false} RunKeepsInv(es: seq<Event>)
    ensures Inv(es, Run(es)) && Distinct(Run(es))
  {
    if es == [] {
      assert Inv([], []);
    } else {
      hide Inv, Live, Stored;
      var n := |es| - 1;
      assert es == es[..n] + [es[n]];
      RunKeepsInv(es[..n]);
      if es[n].Store? {
        StoreKeepsInv(es[..n], es[n]);
      } else {
        DropsKeepInv(es[..n], Run(es[..n]), es[n].now, "");
        LookKeepsInv(es[..n], es[n], Live(Run(es[..n]), es[n].now));
      }
    }
    InvIsBounded(es, Run(es));
  }

  // ---------- what a caller sees ----------

  /** A hit returns the last list stored under the key, less than five minutes old. */
  lemma {:induction false} HitIsFreshAndLatest(es: seq<Event>, key: string, now: int)
    requires Has(Live(Run(es), now), key)
    ensures var s := Live(Run(es), now)[IndexOf(Live(Run(es), now), key)];
            LastStored(es, key) == Some(s) && now - s.time < 300_000
  {
    hide Live, Run, Inv, IndexOf;
    RunKeepsInv(es);
    var live := Live(Run(es), now);
    LiveMembers(Run(es), now);
    DropsKeepInv(es, Run(es), now, key);
    InvIsBounded(es, live);
    assert live[IndexOf(live, key)] in live;
  }

  lemma {:induction false} SetKeepsOthers(room: seq<Slot>, put: Slot, s: Slot)
    requires s.key != put.key
    ensures s in Set(room, put) <==> s in room
  {
    hide IndexOf;
    var k := IndexOf(room, put.key);
    if s in room {
      var j :| 0 <= j < |room| && room[j] == s;
      assert Set(room, put)[j] == s;
    }
  }

  lemma {:induction false} SurvivesUnlessFirst(es: seq<Event>, live: seq<Slot>, e: Event, s: Slot)
    requires e.Store? && Inv(es, live) && s in live && s.key != e.key
    ensures s !in Set(WithRoom(live, e.key), Slot(e.key, e.models, e.now)) <==>
              && !Has(live, e.key) && |live| == CACHE_MAX_ENTRIES
              && forall t :: t in live && t != s ==> Born(es, s.key) < Born(es, t.key)
  {
    hide IndexOf, Born, LastStored;
    var room, put := WithRoom(live, e.key), Slot(e.key, e.models, e.now);
    InvIsDistinct(es, live);
    var k :| 0 <= k < |live| && live[k] == s;
    assert s in room <==> !(|room| < |live| && k == 0) by {
      var d := |live| - |room|;
      assert d <= k ==> room[k - d] == s;
    }
    SetKeepsOthers(room, put, s);
    assert k == 0 <==> forall t :: t in live && t != s ==> Born(es, s.key) < Born(es, t.key) by {
      assert live[0] in live;
    }
  }

  /** A live entry disappears only when a new key arrives at full capacity, and then it is
      the one whose key came in before all the others. */
  lemma {:induction false} EvictsOnlyTheFirstAtCapacity(es: seq<Event>, e: Event, s: Slot)
    requires e.Store? && s in Run(es) && e.now - s.time < 300_000 && s.key != e.key
    ensures var live := Live(Run(es), e.now);
            s !in Run(es + [e]) <==>
              && !Has(live, e.key) && |live| == 100
              && forall t :: t in live && t != s ==> Born(es, s.key) < Born(es, t.key)
  {
    hide Live, Inv, IndexOf, Born, LastStored;
    var live := Live(Run(es), e.now);
    assert (es + [e])[..|es|] == es;
    RunKeepsInv(es);
    DropsKeepInv(es, Run(es), e.now, e.key);
    InvIsBounded(es, live);
    LiveMembers(Run(es), e.now);
    SurvivesUnlessFirst(es, live, e, s);
  }

  // ---------- when a lookup must hit ----------

  /** A lookup hits exactly if the map holds the key with a list less than five minutes old. */
  lemma {:induction false} LookupHitsExactly(es: seq<Event>, key: string, now: int)
    ensures Has(Live(Run(es), now), key) <==> exists s :: s in Run(es) && s.key == key && now - s.time < 300_000
  {
    hide Live, Run, IndexOf, Has;
    LiveMembers(Run(es), now);
    HasMeansIn(Live(Run(es), now), key);
  }

  /** A lookup drops exactly the lists that are five minutes old or older. */
  lemma {:induction false} LookKeepsExactly(es: seq<Event>, now: int, s: Slot)
    ensures s in Run(es + [Look(now)]) <==> s in Run(es) && now - s.time < 300_000
  {
    hide Live;
    assert (es + [Look(now)])[..|es|] == es;
    LiveMembers(Run(es), now);
  }

  /** How many of the events are stores. */
  ghost function Stores(es: seq<Event>): nat {
    if es == [] then 0 else Stores(es[..|es| - 1]) + if es[|es| - 1].Store? then 1 else 0
  }

  lemma {:induction false} BornByStore(es: seq<Event>, key: string)
    ensures Born(es, key) >= 0 ==> Born(es, key) < |es| && es[Born(es, key)].Store?
  {
    if es != [] {
      hide Run, Live, Has;
      BornByStore(es[..|es| - 1], key);
    }
  }

  lemma {:induction false} CountStores(es: seq<Event>, from: nat, bs: seq<int>)
    requires from <= |es|
    requires forall i :: 0 <= i < |bs| ==> from <= bs[i] < |es| && es[bs[i]].Store?
    requires forall i, j :: 0 <= i < j < |bs| ==> bs[i] < bs[j]
    ensures |bs| <= Stores(es[from..])
    decreases |es|
  {
    if bs != [] {
      var m, last := |es| - 1, bs[|bs| - 1];
      assert es[from..][..m - from] == es[..m][from..] && es[from..][m - from] == es[m];
      var fewer := if last == m then bs[..|bs| - 1] else bs;
      CountStores(es[..m], from, fewer);
    }
  }

  /** Nothing but its own key's stores changes when a key came in. */
  lemma {:induction false} BornAt(before: seq<Event>, e: Event, rest: seq<Event>)
    requires e.Store? && !Has(Live(Run(before), e.now), e.key)
    requires forall x :: x in rest && x.Store? ==> x.key != e.key
    ensures Born(before + [e] + rest, e.key) == |before|
    decreases |rest|
  {
    hide Run, Live, Has;
    var es := before + [e] + rest;
    if rest == [] {
      assert es == before + [e] && es[..|before|] == before;
    } else {
      var n := |rest| - 1;
      assert es[..|es| - 1] == before + [e] + rest[..n] && es[|es| - 1] == rest[n];
      BornAt(before, e, rest[..n]);
    }
  }

  lemma {:induction false} StorePuts(es: seq<Event>, e: Event)
    requires e.Store?
    ensures Slot(e.key, e.models, e.now) in Run(es + [e])
  {
    hide Live, IndexOf;
    assert (es + [e])[..|es|] == es;
    var room, put := WithRoom(Live(Run(es), e.now), e.key), Slot(e.key, e.models, e.now);
    assert Set(room, put)[IndexOf(room, e.key)] == put;
  }

  lemma {:induction false} FirstHasFollowers(es: seq<Event>, now: int, s: Slot)
    requires var live := Live(Run(es), now);
             && s in live && |live| == 100 && Born(es, s.key) >= 0
             && forall t :: t in live && t != s ==> Born(es, s.key) < Born(es, t.key)
    ensures Born(es, s.key) + 1 <= |es| && Stores(es[Born(es, s.key) + 1..]) >= 99
  {
    hide Live, Run, Born, LastStored;
    RunKeepsInv(es);
    DropsKeepInv(es, Run(es), now, "");
    var live := Live(Run(es), now);
    InvIsDistinct(es, live);
    var from := Born(es, s.key) + 1;
    BornByStore(es, s.key);
    assert live[0] == s by {
      assert live[0] in live;
    }
    var bs := seq(99, i requires 0 <= i < 99 => Born(es, live[i + 1].key));
    forall i | 0 <= i < 99 ensures from <= bs[i] < |es| && es[bs[i]].Store? {
      assert live[i + 1] in live && live[i + 1] != s;
      BornByStore(es, live[i + 1].key);
    }
    CountStores(es, from, bs);
  }

  /** A list stored under a new key stays for five minutes unless a hundred others are stored. */
  lemma {:induction false} NewEntryLasts(before: seq<Event>, e: Event, rest: seq<Event>)
    requires e.Store? && !Has(Live(Run(before), e.now), e.key)
    requires forall x :: x in rest ==> x.now - e.now < 300_000 && (x.Store? ==> x.key != e.key)
    requires Stores(rest) < 100
    ensures Slot(e.key, e.models, e.now) in Run(before + [e] + rest)
    decreases |rest|
  {
    hide Run, Live, Has, IndexOf;
    var s := Slot(e.key, e.models, e.now);
    if rest == [] {
      assert before + [e] + rest == before + [e];
      StorePuts(before, e);
    } else {
      var n := |rest| - 1;
      var es, x := before + [e] + rest[..n], rest[n];
      assert before + [e] + rest == es + [x];
      NewEntryLasts(before, e, rest[..n]);
      if x.Look? {
        LookKeepsExactly(es, x.now, s);
      } else {
        EvictsOnlyTheFirstAtCapacity(es, x, s);
        BornAt(before, e, rest[..n]);
        assert es[|before| + 1..] == rest[..n];
        LiveMembers(Run(es), x.now);
        if s !in Run(es + [x]) { FirstHasFollowers(es, x.now, s); }
      }
    }
  }
}
