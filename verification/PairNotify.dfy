/** Notifications about device pairing requests (extensions/device-pair/notify.ts): a small
    state file with subscribers and marks, changed by chat commands and by a poll. */
module PairNotify {
  import opened JsText

  const NOTIFY_MAX_SEEN_AGE_MS := 24 * 60 * 60 * 1000

  datatype Mode = Persistent | Once
  datatype ThreadId = NoThread | Number(n: int) | Text(s: string)

  datatype Target = Target(to: string, accountId: Option<string>, thread: ThreadId)
  datatype Subscriber = Subscriber(target: Target, mode: Mode, addedAtMs: int)
  datatype Request = Request(requestId: string, ts: Option<int>)

  datatype State = State(subscribers: seq<Subscriber>, marks: map<string, int>)

  /** The file: absent or unreadable, or a record with the state's fields. */
  type File = Option<State>

  // ---------- keys ----------

  function Digits(n: nat): string {
    (if n < 10 then "" else Digits(n / 10)) + [(n % 10) as char + '0']
  }

  function ThreadText(t: ThreadId): string {
    match t
    case NoThread => ""
    case Number(n) => if n < 0 then "-" + Digits(-n) else Digits(n)
    case Text(s) => s
  }

  function Key(t: Target): string {
    t.to + "|" + OrEmpty(t.accountId) + "|" + ThreadText(t.thread)
  }

  /** The number that decimal digits stand for. */
  ghost function Value(s: string): int {
    if s == "" then 0 else 10 * Value(s[..|s| - 1]) + (s[|s| - 1] as int - '0' as int)
  }

  lemma {:induction false} ValueOneMore(s: string, c: char)
    ensures Value(s + [c]) == 10 * Value(s) + (c as int - '0' as int)
  {
    assert (s + [c])[..|s|] == s;
  }

  predicate AllDigits(s: string) { s != "" && forall i :: 0 <= i < |s| ==> '0' <= s[i] <= '9' }

  lemma {:induction false} NoDigits()
    ensures Value("") == 0
  {}

  lemma {:induction false} DigitsRoundTrip(n: nat)
    ensures Value(Digits(n)) == n && AllDigits(Digits(n))
  {
    hide Value;
    var c := (n % 10) as char + '0';
    if n >= 10 {
      DigitsRoundTrip(n / 10);
      ValueOneMore(Digits(n / 10), c);
    } else {
      NoDigits();
      ValueOneMore("", c);
      assert Digits(n) == "" + [c];
    }
  }

  /** Integer thread ids print alike only if they are the same. */
  lemma {:induction false} ThreadsPrintApart(m: int, n: int)
    ensures ThreadText(Number(m)) == ThreadText(Number(n)) <==> m == n
    ensures ThreadText(Number(m)) != ""
  {
    hide Digits, Value;
    var x, y := Digits(if m < 0 then -m else m), Digits(if n < 0 then -n else n);
    DigitsRoundTrip(if m < 0 then -m else m);
    DigitsRoundTrip(if n < 0 then -n else n);
    assert ("-" + x)[0] == '-' && ("-" + y)[0] == '-';
    assert ("-" + x)[1..] == x && ("-" + y)[1..] == y;
    assert x[0] != '-' && y[0] != '-';
  }

  lemma {:induction false} NoLeadingZero(n: nat)
    ensures Digits(n) != "" && (Digits(n)[0] == '0' <==> n == 0)
  {
    if n >= 10 {
      NoLeadingZero(n / 10);
      assert Digits(n)[0] == Digits(n / 10)[0];
    }
  }

  lemma {:induction false} ZeroPrints()
    ensures Digits(0) == "0"
  {}

  /** An integer thread id is printed in decimal, with a sign if negative and no leading zero. */
  lemma {:induction false} ThreadPrintsDecimal(n: int)
    ensures var text := ThreadText(Number(n));
            if n < 0 then
              text != "" && text[0] == '-' && AllDigits(text[1..]) && Value(text[1..]) == -n && text[1] != '0'
            else AllDigits(text) && Value(text) == n && (text[0] == '0' ==> text == "0")
  {
    hide Value, Digits;
    var m := if n < 0 then -n else n;
    DigitsRoundTrip(m);
    NoLeadingZero(m);
    ZeroPrints();
    assert ("-" + Digits(m))[1..] == Digits(m);
  }

  predicate SameChat(t: Target, u: Target) {
    t.to == u.to && OrEmpty(t.accountId) == OrEmpty(u.accountId) && ThreadText(t.thread) == ThreadText(u.thread)
  }

  predicate NoBar(t: Target) { '|' !in t.to && '|' !in OrEmpty(t.accountId) }

  lemma {:induction false} KeyParts(t: Target)
    ensures Key(t) == t.to + ['|'] + (OrEmpty(t.accountId) + ['|'] + ThreadText(t.thread))
  {}

  /** Chats whose address and account hold no bar share a key exactly if they agree in address,
      account and printed thread. */
  lemma {:induction false} KeysTellChatsApart(t: Target, u: Target)
    requires NoBar(t) && NoBar(u)
    ensures Key(t) == Key(u) <==> SameChat(t, u)
  {
    if Key(t) == Key(u) {
      var a, b := OrEmpty(t.accountId), OrEmpty(u.accountId);
      KeyParts(t);
      KeyParts(u);
      FirstSeparator('|', t.to, a + "|" + ThreadText(t.thread), u.to, b + "|" + ThreadText(u.thread));
      FirstSeparator('|', a, ThreadText(t.thread), b, ThreadText(u.thread));
    }
  }

  lemma {:induction false} BarInAddress(t: Target)
    requires '|' in t.to
    ensures exists u :: Key(u) == Key(t) && !SameChat(u, t)
  {
    var account, thread := OrEmpty(t.accountId), ThreadText(t.thread);
    var i :| 0 <= i < |t.to| && t.to[i] == '|';
    var u := Target(t.to[..i], Some(t.to[i + 1..]), Text(account + "|" + thread));
    assert t.to == t.to[..i] + "|" + t.to[i + 1..];
    assert Key(u) == t.to[..i] + "|" + t.to[i + 1..] + "|" + (account + "|" + thread);
    assert Key(u) == Key(t) && |u.to| < |t.to|;
  }

  lemma {:induction false} BarInAccount(t: Target)
    requires '|' in OrEmpty(t.accountId)
    ensures exists u :: Key(u) == Key(t) && !SameChat(u, t)
  {
    var account, thread := OrEmpty(t.accountId), ThreadText(t.thread);
    var i :| 0 <= i < |account| && account[i] == '|';
    var u := Target(t.to, Some(account[..i]), Text(account[i + 1..] + "|" + thread));
    assert account == account[..i] + "|" + account[i + 1..];
    assert Key(u) == t.to + "|" + account[..i] + "|" + (account[i + 1..] + "|" + thread);
    assert Key(u) == Key(t) && |account[..i]| < |account|;
  }

  lemma {:induction false} BarInThread(t: Target)
    requires '|' in ThreadText(t.thread)
    ensures exists u :: Key(u) == Key(t) && !SameChat(u, t)
  {
    var account, thread := OrEmpty(t.accountId), ThreadText(t.thread);
    var i :| 0 <= i < |thread| && thread[i] == '|';
    var u := Target(t.to, Some(account + "|" + thread[..i]), Text(thread[i + 1..]));
    assert thread == thread[..i] + "|" + thread[i + 1..];
    assert Key(u) == t.to + "|" + (account + "|" + thread[..i]) + "|" + thread[i + 1..];
    assert Key(u) == Key(t) && |OrEmpty(u.accountId)| > |account|;
  }

  lemma {:induction false} TwoBars(a: string, b: string, c: string, x: string, y: string, z: string)
    requires '|' !in x && '|' !in y && '|' !in z
    requires a + "|" + b + "|" + c == x + "|" + y + "|" + z
    ensures a == x && b == y && c == z
  {
    var s, t := a + "|" + b + "|" + c, x + "|" + y + "|" + z;
    forall i | 0 <= i < |t| && i != |x| && i != |x| + 1 + |y| ensures t[i] != '|' {
      assert t[i] == if i < |x| then x[i] else if i <= |x| + |y| then y[i - |x| - 1] else z[i - |x| - |y| - 2];
    }
    assert s[|a|] == '|' && s[|a| + 1 + |b|] == '|';
    assert |a| == |x| && |b| == |y|;
    assert a == s[..|a|] && x == t[..|x|];
    assert b == s[|a| + 1..|a| + 1 + |b|] && y == t[|x| + 1..|x| + 1 + |y|];
    assert c == s[|a| + |b| + 2..] && z == t[|x| + |y| + 2..];
  }

  /** A chat shares its key with no other exactly when none of its three parts holds a bar:
      otherwise moving a boundary gives the same key for another chat. */
  lemma {:induction false} KeyIsSafeExactly(t: Target)
    ensures (forall u :: Key(u) == Key(t) ==> SameChat(u, t)) <==> NoBar(t) && '|' !in ThreadText(t.thread)
  {
    if '|' in t.to {
      BarInAddress(t);
    } else if '|' in OrEmpty(t.accountId) {
      BarInAccount(t);
    } else if '|' in ThreadText(t.thread) {
      BarInThread(t);
    } else {
      forall u | Key(u) == Key(t) ensures SameChat(u, t) {
        TwoBars(u.to, OrEmpty(u.accountId), ThreadText(u.thread), t.to, OrEmpty(t.accountId), ThreadText(t.thread));
      }
    }
  }

  /** Position of the first subscriber with a key, or the number of subscribers. */
  function FindIndex(subs: seq<Subscriber>, key: string): (i: nat)
    ensures i <= |subs| && (i < |subs| ==> Key(subs[i].target) == key)
    ensures forall j :: 0 <= j < i ==> Key(subs[j].target) != key
  {
    if subs == [] || Key(subs[0].target) == key then 0 else 1 + FindIndex(subs[1..], key)
  }

  // ---------- reading the file ----------

  function NormalizeTarget(t: Target): Target {
    Target(Trim(t.to),
           if Trim(OrEmpty(t.accountId)) != "" then Some(Trim(OrEmpty(t.accountId))) else None,
           if t.thread.Text? then (if Trim(t.thread.s) != "" then Text(Trim(t.thread.s)) else NoThread)
           else t.thread)
  }

  function NormalizeSubscriber(x: Subscriber): seq<Subscriber> {
    if Trim(x.target.to) == "" then [] else [x.(target := NormalizeTarget(x.target))]
  }

  function NormalizeSubscribers(raw: seq<Subscriber>): seq<Subscriber> {
    if raw == [] then [] else NormalizeSubscriber(raw[0]) + NormalizeSubscribers(raw[1..])
  }

  /** Marks are kept in a plain object, which inherits these names. */
  predicate Inherited(id: string) {
    id in ["constructor", "hasOwnProperty", "isPrototypeOf", "propertyIsEnumerable", "toLocaleString", "toString",
           "valueOf", "__defineGetter__", "__defineSetter__", "__lookupGetter__", "__lookupSetter__", "__proto__"]
  }

  /** Assigning to the last of them sets no mark. */
  function NormalizeMarks(marks: map<string, int>): map<string, int> {
    map id | id in marks && Trim(id) != "" && id != "__proto__" && marks[id] > 0 :: marks[id]
  }

  function ReadNotifyState(file: File): State {
    if file.None? then State([], map[])
    else State(NormalizeSubscribers(file.value.subscribers), NormalizeMarks(file.value.marks))
  }

  // ---------- commands ----------

  /** The chat a command came from. */
  datatype Context = Context(
    channel: string, senderId: Option<string>, from: Option<string>, to: Option<string>,
    accountId: Option<string>, thread: ThreadId)

  function ResolveNotifyTarget(c: Context): (r: Option<Target>)
    ensures r.Some? ==> r.value.to != "" && Trimmed(r.value.to)
  {
    var sender, from, to := Trim(OrEmpty(c.senderId)), Trim(OrEmpty(c.from)), Trim(OrEmpty(c.to));
    var chosen := if sender != "" then sender else if from != "" then from else to;
    if chosen == "" then None
    else Some(Target(chosen, if OrEmpty(c.accountId) != "" then c.accountId else None, c.thread))
  }

  /** The chat's address is the first of sender, origin and destination that is not blank. */
  lemma {:induction false} TargetIsFirstAddress(c: Context)
    ensures var fields, r := [c.senderId, c.from, c.to], ResolveNotifyTarget(c);
            && (r.None? <==> forall i :: 0 <= i < 3 ==> Trim(OrEmpty(fields[i])) == "")
            && (r.Some? ==>
                  && (exists i :: 0 <= i < 3 && r.value.to == Trim(OrEmpty(fields[i])) != ""
                                  && forall j :: 0 <= j < i ==> Trim(OrEmpty(fields[j])) == "")
                  && OrEmpty(r.value.accountId) == OrEmpty(c.accountId) && r.value.accountId != Some("")
                  && r.value.thread == c.thread)
  {
    hide Trim;
    var fields, r := [c.senderId, c.from, c.to], ResolveNotifyTarget(c);
    if r.Some? {
      var i := if Trim(OrEmpty(c.senderId)) != "" then 0 else if Trim(OrEmpty(c.from)) != "" then 1 else 2;
      assert r.value.to == Trim(OrEmpty(fields[i])) != "";
    }
  }

  function Upserted(subs: seq<Subscriber>, t: Target, mode: Mode, now: int): seq<Subscriber> {
    var i := FindIndex(subs, Key(t));
    if i == |subs| then subs + [Subscriber(t, mode, now)]
    else if subs[i].mode == mode then subs
    else subs[i := Subscriber(t, mode, now)]
  }

  function Removed(subs: seq<Subscriber>, key: string): seq<Subscriber> {
    var i := FindIndex(subs, key);
    if i == |subs| then subs else subs[..i] + subs[i + 1..]
  }

  datatype Command = On | Off | ArmOnce | Status

  /** What a command makes of the loaded state. */
  function Commanded(s: State, command: Command, t: Target, now: int): State {
    match command
    case On => s.(subscribers := Upserted(s.subscribers, t, Persistent, now))
    case ArmOnce => s.(subscribers := Upserted(s.subscribers, t, Once, now))
    case Off => s.(subscribers := Removed(s.subscribers, Key(t)))
    case Status => s
  }

  // ---------- one poll ----------

  /** Whether a send succeeds, by position of the request and of the subscriber. */
  type Oracle = (nat, nat) -> bool

  datatype Send = Send(requestId: string, subscriber: Subscriber, ok: bool)

  /** The request has a valid stamp, not older than the given time. */
  predicate StampedFrom(r: Request, time: int) { r.ts.Some? && r.ts.value > 0 && r.ts.value >= time }

  predicate ShouldNotify(s: Subscriber, r: Request) {
    s.mode == Persistent || StampedFrom(r, s.addedAtMs)
  }

  /** The sends of one request to the first j subscribers. */
  function Round(subs: seq<Subscriber>, r: Request, i: nat, ok: Oracle, j: nat): seq<Send>
    requires j <= |subs|
  {
    if j == 0 then []
    else Round(subs, r, i, ok, j - 1)
         + if ShouldNotify(subs[j - 1], r) then [Send(r.requestId, subs[j - 1], ok(i, j - 1))] else []
  }

  predicate Delivered(sends: seq<Send>) { exists s :: s in sends && s.ok }

  /** Looking an id up finds its mark, or a property that every object has. */
  predicate Marked(marks: map<string, int>, id: string) { Inherited(id) || (id in marks && marks[id] != 0) }

  datatype Progress = Progress(marks: map<string, int>, sends: seq<Send>)

  /** Marks and sends after the first n pending requests. */
  function Polled(s: State, pending: seq<Request>, now: int, ok: Oracle, n: nat): Progress
    requires n <= |pending|
  {
    if n == 0 then Progress(s.marks, [])
    else
      var p, r := Polled(s, pending, now, ok, n - 1), pending[n - 1];
      if Marked(p.marks, r.requestId) then p
      else
        var round := Round(s.subscribers, r, n - 1, ok, |s.subscribers|);
        Progress(if Delivered(round) then p.marks[r.requestId := now] else p.marks, p.sends + round)
  }

  function PendingIds(pending: seq<Request>): set<string> {
    set i | 0 <= i < |pending| :: pending[i].requestId
  }

  function Pruned(marks: map<string, int>, pending: seq<Request>, now: int): map<string, int> {
    map id | id in marks && id in PendingIds(pending) && now - marks[id] <= NOTIFY_MAX_SEEN_AGE_MS :: marks[id]
  }

  /** Keys of one-shot subscribers that got something. */
  function Served(sends: seq<Send>): set<string> {
    set i | 0 <= i < |sends| && sends[i].ok && sends[i].subscriber.mode == Once :: Key(sends[i].subscriber.target)
  }

  function Without(subs: seq<Subscriber>, keys: set<string>): seq<Subscriber> {
    if subs == [] then []
    else (if Key(subs[0].target) in keys then [] else [subs[0]]) + Without(subs[1..], keys)
  }

  function Sends(s: State, pending: seq<Request>, now: int, ok: Oracle): seq<Send> {
    if s.subscribers == [] then []
    else Polled(s.(marks := Pruned(s.marks, pending, now)), pending, now, ok, |pending|).sends
  }

  function Ticked(s: State, pending: seq<Request>, now: int, ok: Oracle): State {
    var s1 := s.(marks := Pruned(s.marks, pending, now));
    if s.subscribers == [] then s1
    else
      var p := Polled(s1, pending, now, ok, |pending|);
      State(Without(s.subscribers, Served(p.sends)), p.marks)
  }

  // ---------- the file, event by event ----------

  datatype Event =
    | Told(c: Context, command: Command, now: int)
    | Poll(pending: seq<Request>, now: int, ok: Oracle)

  /** The file is written only when something changed. */
  function Written(file: File, next: State): File {
    if next == ReadNotifyState(file) then file else Some(next)
  }

  function Step(file: File, e: Event): File {
    var s := ReadNotifyState(file);
    match e
    case Told(c, command, now) =>
      var t := ResolveNotifyTarget(c);
      if c.channel != "telegram" || t.None? then file else Written(file, Commanded(s, command, t.value, now))
    case Poll(pending, now, ok) => Written(file, Ticked(s, pending, now, ok))
  }

  function Ran(file: File, events: seq<Event>): File {
    if events == [] then file else Step(Ran(file, events[..|events| - 1]), events[|events| - 1])
  }

  /** What an event sends, given the file it finds. */
  function Sent(file: File, e: Event): seq<Send> {
    if e.Poll? then Sends(ReadNotifyState(file), e.pending, e.now, e.ok) else []
  }

  // ---------- the loops of one command and one poll ----------

  /** Update in place, append, or leave alone; the flag says whether to write. */
  method UpsertNotifySubscriber(subs: seq<Subscriber>, t: Target, mode: Mode, now: int)
    returns (r: seq<Subscriber>, changed: bool)
    ensures r == Upserted(subs, t, mode, now) && (changed <==> r != subs)
  {
    hide Key;
    var index := FindIndex(subs, Key(t));
    var next := Subscriber(t, mode, now);
    if index == |subs| {
      return subs + [next], true;
    }
    if subs[index].mode == mode {
      return subs, false;
    }
    r := subs[index := next];
    assert r[index].mode != subs[index].mode;
    changed := true;
  }

  /** The inner loop: one request to every subscriber it concerns. */
  method NotifyAll(subs: seq<Subscriber>, r: Request, i: nat, ok: Oracle) returns (sends: seq<Send>)
    ensures sends == Round(subs, r, i, ok, |subs|)
  {
    sends := [];
    for j := 0 to |subs|
      invariant sends == Round(subs, r, i, ok, j)
    {
      if !ShouldNotify(subs[j], r) {
        continue;
      }
      sends := sends + [Send(r.requestId, subs[j], ok(i, j))];
    }
  }

  lemma {:induction false} DeliveredJoins(a: seq<Send>, b: seq<Send>)
    ensures Delivered(a + b) <==> Delivered(a) || Delivered(b)
  {}

  lemma {:induction false} WithoutShrinks(subs: seq<Subscriber>, keys: set<string>)
    ensures |Without(subs, keys)| <= |subs|
    ensures |Without(subs, keys)| == |subs| ==> Without(subs, keys) == subs
    ensures keys == {} ==> Without(subs, keys) == subs
    ensures forall s :: s in Without(subs, keys) <==> s in subs && Key(s.target) !in keys
  {
    if subs != [] {
      hide Key;
      WithoutShrinks(subs[1..], keys);
      assert subs == [subs[0]] + subs[1..];
    }
  }

  lemma {:induction false} ServedMeansDelivered(sends: seq<Send>)
    ensures Served(sends) != {} ==> Delivered(sends)
  {}

  lemma {:induction false} NoDeliveryNoMark(s: State, pending: seq<Request>, now: int, ok: Oracle, n: nat)
    requires n <= |pending|
    ensures !Delivered(Polled(s, pending, now, ok, n).sends) ==> Polled(s, pending, now, ok, n).marks == s.marks
  {
    if n > 0 {
      hide Round, Inherited;
      NoDeliveryNoMark(s, pending, now, ok, n - 1);
      var p := Polled(s, pending, now, ok, n - 1);
      DeliveredJoins(p.sends, Round(s.subscribers, pending[n - 1], n - 1, ok, |s.subscribers|));
    }
  }

  lemma {:induction false} LoadedMarksArePositive(file: File)
    ensures forall id :: id in ReadNotifyState(file).marks ==>
      ReadNotifyState(file).marks[id] > 0 && Trim(id) != "" && id != "__proto__"
  {}

  lemma {:induction false} PolledMarks(s: State, pending: seq<Request>, now: int, ok: Oracle, n: nat)
    requires n <= |pending|
    ensures MarksFollow(s, PendingIds(pending), now, Polled(s, pending, now, ok, n))
  {
    hide *;
    if n == 0 {
      PolledNone(s, pending, now, ok);
      NothingFollows(s, PendingIds(pending), now);
    } else {
      PendingIsListed(pending, n - 1);
      PolledStep(s, pending, now, ok, n - 1);
      PolledMarks(s, pending, now, ok, n - 1);
      var p, r := Polled(s, pending, now, ok, n - 1), pending[n - 1];
      var round := Round(s.subscribers, r, n - 1, ok, |s.subscribers|);
      RoundIsJustified(s.subscribers, r, n - 1, ok, |s.subscribers|);
      if !Marked(p.marks, r.requestId) { RoundFollows(s, PendingIds(pending), now, p, r.requestId, round); }
    }
  }

  lemma {:induction false} DeliveryChangesMarks(s: State, pending: seq<Request>, now: int, ok: Oracle)
    requires forall id :: id in s.marks ==> s.marks[id] != 0
    ensures Delivered(Sends(s, pending, now, ok)) ==> Ticked(s, pending, now, ok).marks != s.marks
  {
    hide Polled, Without, Served, PendingIds, Inherited;
    var s1 := s.(marks := Pruned(s.marks, pending, now));
    PolledMarks(s1, pending, now, ok, |pending|);
    if Delivered(Sends(s, pending, now, ok)) {
      var x :| x in Sends(s, pending, now, ok) && x.ok;
      assert !Marked(s1.marks, x.requestId);
    }
  }

  // ---------- the plugin around its file ----------

  class Notifier {
    var file: File

    constructor (file: File)
      ensures this.file == file
    {
      this.file := file;
    }

    /** Every command loads, may change and may write the file. */
    method HandleNotifyCommand(c: Context, command: Command, now: int)
      modifies this
      ensures file == Step(old(file), Told(c, command, now))
    {
      hide Key, Trim, ReadNotifyState;
      if c.channel != "telegram" {
        return;
      }
      var target := ResolveNotifyTarget(c);
      if target.None? {
        return;
      }
      var state := ReadNotifyState(file);
      var subs, changed := state.subscribers, false;
      match command {
        case On => subs, changed := UpsertNotifySubscriber(subs, target.value, Persistent, now);
        case ArmOnce => subs, changed := UpsertNotifySubscriber(subs, target.value, Once, now);
        case Off =>
          var i := FindIndex(subs, Key(target.value));
          if i < |subs| {
            subs, changed := subs[..i] + subs[i + 1..], true;
          }
        case Status =>
      }
      if changed {
        file := Some(state.(subscribers := subs));
      }
    }

    method NotifyPendingPairingRequests(pending: seq<Request>, now: int, ok: Oracle) returns (sends: seq<Send>)
      modifies this
      ensures sends == Sent(old(file), Poll(pending, now, ok))
      ensures file == Step(old(file), Poll(pending, now, ok))
    {
      hide Key, ReadNotifyState, Round, ShouldNotify, PendingIds, Inherited;
      var state := ReadNotifyState(file);
      ghost var s := state;
      var marks := Pruned(state.marks, pending, now);
      var changed := marks != state.marks;
      state := state.(marks := marks);
      ghost var s1 := state;
      sends := [];
      if state.subscribers != [] {
        for i := 0 to |pending|
          invariant Progress(marks, sends) == Polled(s1, pending, now, ok, i)
          invariant changed <==> s1.marks != s.marks || Delivered(sends)
          invariant file == old(file)
        {
          if !Marked(marks, pending[i].requestId) {
            var round := NotifyAll(state.subscribers, pending[i], i, ok);
            DeliveredJoins(sends, round);
            if Delivered(round) {
              marks := marks[pending[i].requestId := now];
              changed := true;
            }
            sends := sends + round;
          }
        }
        var served := Served(sends);
        if served != {} {
          var kept := Without(state.subscribers, served);
          WithoutShrinks(state.subscribers, served);
          if |kept| != |state.subscribers| {
            changed := true;
          }
          state := state.(subscribers := kept);
        }
        WithoutShrinks(s.subscribers, served);
        state := state.(marks := marks);
        assert state == Ticked(s, pending, now, ok);
        ServedMeansDelivered(sends);
        NoDeliveryNoMark(s1, pending, now, ok, |pending|);
        LoadedMarksArePositive(file);
        DeliveryChangesMarks(s, pending, now, ok);
      }
      if changed {
        file := Some(state);
      }
    }
  }

  /** Each round has one request's id and subscribers it concerns. */
  lemma {:induction false} RoundIsJustified(subs: seq<Subscriber>, r: Request, i: nat, ok: Oracle, j: nat)
    requires j <= |subs|
    ensures forall x :: x in Round(subs, r, i, ok, j) ==>
      x.requestId == r.requestId && x.subscriber in subs && ShouldNotify(x.subscriber, r)
  {
    if j > 0 {
      hide ShouldNotify;
      RoundIsJustified(subs, r, i, ok, j - 1);
    }
  }

  lemma {:induction false} PolledNone(s: State, pending: seq<Request>, now: int, ok: Oracle)
    ensures Polled(s, pending, now, ok, 0) == Progress(s.marks, [])
  {}

  /** The sends answer, in order, to the positions of the first n subscribers that the request
      concerns, and each reports what the channel answered there. */
  ghost predicate AnswersTo(
      sends: seq<Send>, at: seq<nat>, subs: seq<Subscriber>, r: Request, i: nat, ok: Oracle, n: nat)
    requires n <= |subs|
  {
    && |at| == |sends|
    && (forall k, l :: 0 <= k < l < |at| ==> at[k] < at[l])
    && (forall k :: 0 <= k < |at| ==> at[k] < n && sends[k] == Send(r.requestId, subs[at[k]], ok(i, at[k])))
    && forall j :: 0 <= j < n ==>
         (j in at <==> subs[j].mode == Persistent || (r.ts.Some? && r.ts.value > 0 && r.ts.value >= subs[j].addedAtMs))
  }

  lemma {:induction false} AnswersToOneMore(
      sends: seq<Send>, at: seq<nat>, subs: seq<Subscriber>, r: Request, i: nat, ok: Oracle, n: nat)
    requires n < |subs| && AnswersTo(sends, at, subs, r, i, ok, n)
    ensures if ShouldNotify(subs[n], r)
            then AnswersTo(sends + [Send(r.requestId, subs[n], ok(i, n))], at + [n], subs, r, i, ok, n + 1)
            else AnswersTo(sends, at, subs, r, i, ok, n + 1)
  {
    assert forall j :: j in at ==> j < n;
    assert forall j: nat :: j in at + [n] <==> j in at || j == n;
  }

  /** A round sends once to each subscriber it concerns, in order. */
  lemma {:induction false} RoundExactly(subs: seq<Subscriber>, r: Request, i: nat, ok: Oracle, n: nat)
    returns (at: seq<nat>)
    requires n <= |subs|
    ensures AnswersTo(Round(subs, r, i, ok, n), at, subs, r, i, ok, n)
  {
    at := [];
    if n > 0 {
      var before := RoundExactly(subs, r, i, ok, n - 1);
      hide AnswersTo, ShouldNotify;
      AnswersToOneMore(Round(subs, r, i, ok, n - 1), before, subs, r, i, ok, n - 1);
      at := if ShouldNotify(subs[n - 1], r) then before + [n - 1] else before;
      assert Round(subs, r, i, ok, n - 1) + [] == Round(subs, r, i, ok, n - 1);
    }
  }

  /** One more request: nothing if it is marked, else its round, and a mark if anyone was told. */
  lemma {:induction false} PolledStep(s: State, pending: seq<Request>, now: int, ok: Oracle, n: nat)
    requires n < |pending|
    ensures var p, r := Polled(s, pending, now, ok, n), pending[n];
            var round := Round(s.subscribers, r, n, ok, |s.subscribers|);
            Polled(s, pending, now, ok, n + 1) ==
              if Marked(p.marks, r.requestId) then p
              else Progress(if Delivered(round) then p.marks[r.requestId := now] else p.marks, p.sends + round)
  {
    hide Round, Delivered, Marked;
  }

  lemma {:induction false} UnmarkedBefore(marks: map<string, int>, later: map<string, int>, id: string)
    requires !Marked(later, id)
    requires id in marks ==> id in later && (later[id] == marks[id] || !Marked(marks, id))
    ensures !Marked(marks, id) && id != "__proto__"
  {}

  ghost predicate SendFollows(s: State, ids: set<string>, now: int, marks: map<string, int>, x: Send) {
    && x.requestId in ids && !Marked(s.marks, x.requestId) && x.requestId != "__proto__"
    && (x.ok ==> x.requestId in marks && marks[x.requestId] == now)
  }

  /** How far a poll has come: marks only change to the time of the poll, for pending requests
      without one, and sends concern such requests only. */
  ghost predicate MarksFollow(s: State, ids: set<string>, now: int, p: Progress) {
    && (forall id :: id in p.marks && !(id in s.marks && p.marks[id] == s.marks[id]) ==>
          p.marks[id] == now && id in ids && !Marked(s.marks, id))
    && (forall id :: id in s.marks ==> id in p.marks)
    && (forall x :: x in p.sends ==> SendFollows(s, ids, now, p.marks, x))
  }

  lemma {:induction false} NothingFollows(s: State, ids: set<string>, now: int)
    ensures MarksFollow(s, ids, now, Progress(s.marks, []))
  {}

  lemma {:induction false} PendingIsListed(pending: seq<Request>, i: nat)
    requires i < |pending|
    ensures pending[i].requestId in PendingIds(pending)
  {}

  lemma {:induction false} RoundFollows(s: State, ids: set<string>, now: int, p: Progress, id: string, round: seq<Send>)
    requires MarksFollow(s, ids, now, p) && id in ids && !Marked(p.marks, id)
    requires forall x :: x in round ==> x.requestId == id
    ensures MarksFollow(s, ids, now,
                        Progress(if Delivered(round) then p.marks[id := now] else p.marks, p.sends + round))
  {
    var q := Progress(if Delivered(round) then p.marks[id := now] else p.marks, p.sends + round);
    UnmarkedBefore(s.marks, p.marks, id);
    hide Marked;
    forall x | x in q.sends ensures SendFollows(s, ids, now, q.marks, x) {
      if x in p.sends { assert SendFollows(s, ids, now, p.marks, x); }
    }
  }

  // ---------- reading back what was written ----------

  predicate Loaded(x: Subscriber) { x.target.to != "" && NormalizeTarget(x.target) == x.target }

  lemma {:induction false} NormalizingOnce(x: Subscriber)
    ensures forall y :: y in NormalizeSubscriber(x) ==> Loaded(y)
    ensures Loaded(x) ==> NormalizeSubscriber(x) == [x]
  {}

  /** Loading cleans every subscriber, and cleans only once. */
  lemma {:induction false} NormalizingSettles(raw: seq<Subscriber>)
    ensures forall x :: x in NormalizeSubscribers(raw) ==> Loaded(x)
    ensures (forall x :: x in raw ==> Loaded(x)) ==> NormalizeSubscribers(raw) == raw
  {
    if raw != [] {
      hide NormalizeSubscriber, Loaded;
      NormalizingOnce(raw[0]);
      NormalizingSettles(raw[1..]);
      assert raw == [raw[0]] + raw[1..];
    }
  }

  /** What is read back after a poll is what the poll computed, without marks that no load keeps. */
  lemma {:induction false} PollReadsBack(file: File, pending: seq<Request>, now: int, ok: Oracle)
    ensures var next := Ticked(ReadNotifyState(file), pending, now, ok);
            ReadNotifyState(Step(file, Poll(pending, now, ok))) == next.(marks := NormalizeMarks(next.marks))
  {
    hide Polled, Served, Pruned, NormalizeSubscribers, Trim;
    var s := ReadNotifyState(file);
    var next := Ticked(s, pending, now, ok);
    LoadedMarksArePositive(file);
    if file.Some? { NormalizingSettles(file.value.subscribers); }
    assert forall x :: x in s.subscribers ==> Loaded(x);
    if s.subscribers != [] {
      var s1 := s.(marks := Pruned(s.marks, pending, now));
      WithoutShrinks(s.subscribers, Served(Polled(s1, pending, now, ok, |pending|).sends));
    }
    assert forall x :: x in next.subscribers ==> Loaded(x);
    NormalizingSettles(next.subscribers);
    assert NormalizeMarks(s.marks) == s.marks;
  }

  // ---------- keys that stay the same ----------

  predicate KeyStable(t: Target) { Key(NormalizeTarget(t)) == Key(t) }

  lemma {:induction false} TrimShrinks(s: string)
    ensures |Trim(s)| <= |s|
    ensures |Trim(s)| == |s| <==> Trimmed(s)
    ensures |Trim(s)| == |s| ==> Trim(s) == s
  {}

  /** A key survives a reload exactly when its three parts need no trimming. */
  lemma {:induction false} KeyStableExactly(t: Target)
    ensures KeyStable(t) <==>
      Trimmed(t.to) && Trimmed(OrEmpty(t.accountId)) && (t.thread.Text? ==> Trimmed(t.thread.s))
  {
    hide Trim, Trimmed;
    TrimShrinks(t.to);
    TrimShrinks(OrEmpty(t.accountId));
    if t.thread.Text? { TrimShrinks(t.thread.s); }
    var n := NormalizeTarget(t);
    assert |Key(n)| == |n.to| + |OrEmpty(n.accountId)| + |ThreadText(n.thread)| + 2;
    assert |Key(t)| == |t.to| + |OrEmpty(t.accountId)| + |ThreadText(t.thread)| + 2;
    assert OrEmpty(n.accountId) == Trim(OrEmpty(t.accountId));
    assert t.thread.Text? ==> ThreadText(n.thread) == Trim(t.thread.s);
  }

  predicate DistinctKeys(subs: seq<Subscriber>) {
    forall i, j :: 0 <= i < j < |subs| ==> Key(subs[i].target) != Key(subs[j].target)
  }

  predicate HasKey(subs: seq<Subscriber>, key: string) { FindIndex(subs, key) < |subs| }

  lemma {:induction false} NormalizingUnfolds(a: seq<Subscriber>, b: seq<Subscriber>)
    requires a != []
    ensures NormalizeSubscribers(a) == NormalizeSubscriber(a[0]) + NormalizeSubscribers(a[1..])
    ensures NormalizeSubscribers(a + b) == NormalizeSubscriber(a[0]) + NormalizeSubscribers(a[1..] + b)
  {
    hide NormalizeSubscriber;
    assert (a + b)[1..] == a[1..] + b;
  }

  lemma {:induction false} NormalizingJoins(a: seq<Subscriber>, b: seq<Subscriber>)
    ensures NormalizeSubscribers(a + b) == NormalizeSubscribers(a) + NormalizeSubscribers(b)
  {
    hide NormalizeSubscribers, NormalizeSubscriber;
    if a == [] {
      NormalizingSettles(a);
      assert a + b == b;
    } else {
      NormalizingJoins(a[1..], b);
      NormalizingUnfolds(a, b);
      Regroup(NormalizeSubscriber(a[0]), NormalizeSubscribers(a[1..]), NormalizeSubscribers(b));
    }
  }

  /** The list with one entry replaced, or added at the end. */
  function Placed(subs: seq<Subscriber>, i: nat, x: Subscriber): seq<Subscriber>
    requires i <= |subs|
  {
    if i == |subs| then subs + [x] else subs[i := x]
  }

  lemma {:induction false} NormalizingPlaced(subs: seq<Subscriber>, i: nat, x: Subscriber)
    requires i <= |subs| && Trim(x.target.to) != "" && forall y :: y in subs ==> Loaded(y)
    ensures NormalizeSubscribers(Placed(subs, i, x)) == Placed(subs, i, x.(target := NormalizeTarget(x.target)))
  {
    hide NormalizeTarget, Trim, NormalizeSubscribers;
    var head, tail := subs[..i], subs[if i < |subs| then i + 1 else i..];
    var y := x.(target := NormalizeTarget(x.target));
    assert Placed(subs, i, x) == head + [x] + tail;
    assert Placed(subs, i, y) == head + [y] + tail;
    NormalizingJoins(head + [x], tail);
    NormalizingJoins(head, [x]);
    NormalizingSettles(head);
    NormalizingSettles(tail);
    NormalizingUnfolds([x], []);
    NormalizingSettles([]);
    assert [x] + [] == [x];
  }

  lemma {:induction false} LoadedList(file: File)
    ensures forall x :: x in ReadNotifyState(file).subscribers ==> Loaded(x)
  {
    hide Loaded, NormalizeSubscribers;
    if file.Some? { NormalizingSettles(file.value.subscribers); }
  }

  lemma {:induction false} TargetHasAddress(c: Context)
    requires ResolveNotifyTarget(c).Some?
    ensures Trim(ResolveNotifyTarget(c).value.to) != ""
  {
  }

  /** The loaded list after a command from a Telegram chat: a stored target comes back
      trimmed, while the search for it used the key as given. */
  lemma {:induction false} CommandReadsBack(file: File, c: Context, command: Command, now: int)
    requires c.channel == "telegram" && ResolveNotifyTarget(c).Some?
    ensures var s, t := ReadNotifyState(file), ResolveNotifyTarget(c).value;
            var mode, i := if command.On? then Persistent else Once, FindIndex(s.subscribers, Key(t));
            ReadNotifyState(Step(file, Told(c, command, now))) ==
              match command
              case Status => s
              case Off => s.(subscribers := Removed(s.subscribers, Key(t)))
              case _ =>
                if i < |s.subscribers| && s.subscribers[i].mode == mode then s
                else s.(subscribers := Placed(s.subscribers, i, Subscriber(NormalizeTarget(t), mode, now)))
  {
    hide Key, FindIndex, NormalizeTarget, Trim, NormalizeSubscribers, Loaded, Trimmed, ResolveNotifyTarget;
    var s, t := ReadNotifyState(file), ResolveNotifyTarget(c).value;
    LoadedMarksArePositive(file);
    LoadedList(file);
    assert NormalizeMarks(s.marks) == s.marks;
    TargetHasAddress(c);
    var mode, i := if command.On? then Persistent else Once, FindIndex(s.subscribers, Key(t));
    NormalizingPlaced(s.subscribers, i, Subscriber(t, mode, now));
    if i < |s.subscribers| { NormalizingSettles(s.subscribers[..i] + s.subscribers[i + 1..]); }
    NormalizingSettles(s.subscribers);
  }

  lemma {:induction false} NotListed(subs: seq<Subscriber>, t: Target)
    requires NoBar(t) && forall x :: x in subs ==> NoBar(x.target) && !SameChat(x.target, t)
    ensures FindIndex(subs, Key(t)) == |subs|
  {
    hide Key, SameChat, NoBar;
    var i := FindIndex(subs, Key(t));
    if i < |subs| {
      assert subs[i] in subs;
      KeysTellChatsApart(subs[i].target, t);
    }
  }

  lemma {:induction false} NormalizedFields(c: Context)
    requires ResolveNotifyTarget(c).Some?
    ensures var t := ResolveNotifyTarget(c).value;
            && NormalizeTarget(t).to == t.to && OrEmpty(NormalizeTarget(t).accountId) == Trim(OrEmpty(c.accountId))
            && (c.thread.Number? ==> NormalizeTarget(t).thread == c.thread)
  {
    TargetIsFirstAddress(c);
  }

  lemma {:induction false} WithOneMore(subs: seq<Subscriber>, x: Subscriber)
    ensures Placed(subs, |subs|, x) == subs + [x]
    ensures (subs + [x])[..|subs|] == subs && (subs + [x])[|subs|] == x
  {}

  /** A chat that no listed one is the same as is added, and nothing else changes. */
  lemma {:induction false} NewChatIsAdded(file: File, c: Context, command: Command, now: int)
    requires c.channel == "telegram" && ResolveNotifyTarget(c).Some? && (command.On? || command.ArmOnce?)
    requires var s, t := ReadNotifyState(file), ResolveNotifyTarget(c).value;
             NoBar(t) && forall x :: x in s.subscribers ==> NoBar(x.target) && !SameChat(x.target, t)
    ensures var s, t := ReadNotifyState(file), ResolveNotifyTarget(c).value;
            var next := ReadNotifyState(Step(file, Told(c, command, now)));
            && |next.subscribers| == |s.subscribers| + 1 && next.marks == s.marks
            && next.subscribers[..|s.subscribers|] == s.subscribers
            && var x := next.subscribers[|s.subscribers|];
               && x.target.to == t.to && OrEmpty(x.target.accountId) == Trim(OrEmpty(c.accountId))
               && (c.thread.Number? ==> x.target.thread == c.thread)
               && x.mode == (if command.On? then Persistent else Once) && x.addedAtMs == now
  {
    hide ReadNotifyState, Key, ResolveNotifyTarget, Step, SameChat, NoBar, Trim, FindIndex, NormalizeTarget;
    var s, t := ReadNotifyState(file), ResolveNotifyTarget(c).value;
    NormalizedFields(c);
    CommandReadsBack(file, c, command, now);
    NotListed(s.subscribers, t);
    WithOneMore(s.subscribers, Subscriber(NormalizeTarget(t), if command.On? then Persistent else Once, now));
  }

  lemma {:induction false} TrimAddsNothing(s: string, c: char)
    requires c !in s
    ensures c !in Trim(s)
  {
    var before, after := TrimDropsBlankEnds(s);
    assert forall i :: 0 <= i < |Trim(s)| ==> Trim(s)[i] == s[|before| + i];
  }

  lemma {:induction false} OnlyTheThread(c: Context, thread: ThreadId)
    requires ResolveNotifyTarget(c).Some?
    ensures ResolveNotifyTarget(c.(thread := thread)) == Some(ResolveNotifyTarget(c).value.(thread := thread))
    ensures NoBar(ResolveNotifyTarget(c).value) ==> NoBar(ResolveNotifyTarget(c).value.(thread := thread))
  {}

  lemma {:induction false} OtherTopic(c: Context, m: int, n: int, u: Target)
    requires ResolveNotifyTarget(c).Some? && NoBar(ResolveNotifyTarget(c).value) && m != n
    requires u.to == ResolveNotifyTarget(c).value.to && OrEmpty(u.accountId) == Trim(OrEmpty(c.accountId))
    requires u.thread == Number(m)
    ensures NoBar(u) && !SameChat(u, ResolveNotifyTarget(c).value.(thread := Number(n)))
  {
    hide Trim, ThreadText;
    TargetIsFirstAddress(c);
    TrimAddsNothing(OrEmpty(c.accountId), '|');
    ThreadsPrintApart(m, n);
  }

  /** Two topics of one chat are two subscribers: after `on` in each of them both are listed. */
  lemma {:induction false} TopicsAreSeparate(file: File, c: Context, m: int, n: int, now: int, later: int)
    requires c.channel == "telegram" && ResolveNotifyTarget(c).Some? && m != n
    requires var s, t := ReadNotifyState(file), ResolveNotifyTarget(c).value;
             NoBar(t) && forall x :: x in s.subscribers ==>
               && NoBar(x.target)
               && !SameChat(x.target, t.(thread := Number(m))) && !SameChat(x.target, t.(thread := Number(n)))
    ensures var s, t := ReadNotifyState(file), ResolveNotifyTarget(c).value;
            var once := Step(file, Told(c.(thread := Number(m)), On, now));
            var subs := ReadNotifyState(Step(once, Told(c.(thread := Number(n)), On, later))).subscribers;
            && |subs| == |s.subscribers| + 2 && subs[..|s.subscribers|] == s.subscribers
            && subs[|s.subscribers|].target.to == subs[|s.subscribers| + 1].target.to == t.to
            && subs[|s.subscribers|].target.thread == Number(m) && subs[|s.subscribers| + 1].target.thread == Number(n)
  {
    hide ReadNotifyState, ResolveNotifyTarget, Step, SameChat, NoBar, Trim, ThreadText, NormalizeTarget, OrEmpty;
    var c1, c2 := c.(thread := Number(m)), c.(thread := Number(n));
    OnlyTheThread(c, Number(m));
    OnlyTheThread(c, Number(n));
    NewChatIsAdded(file, c1, On, now);
    var s, once := ReadNotifyState(file), Step(file, Told(c1, On, now));
    var subs := ReadNotifyState(once).subscribers;
    var x := subs[|s.subscribers|];
    OtherTopic(c, m, n, x.target);
    assert subs == s.subscribers + [x];
    NewChatIsAdded(once, c2, On, later);
  }

  // ---------- one entry for each chat ----------

  lemma {:induction false} PlacedKeepsKeysDistinct(subs: seq<Subscriber>, x: Subscriber)
    requires DistinctKeys(subs)
    ensures DistinctKeys(Placed(subs, FindIndex(subs, Key(x.target)), x))
  {}

  /** Removing takes out the first entry with the key and keeps the others in order. */
  lemma {:induction false} RemovedExactly(a: seq<Subscriber>, x: Subscriber, b: seq<Subscriber>)
    requires forall y :: y in a ==> Key(y.target) != Key(x.target)
    ensures Removed(a + [x] + b, Key(x.target)) == a + b
  {
    hide Key;
    var subs := a + [x] + b;
    var i := FindIndex(subs, Key(x.target));
    assert subs[|a|] == x && forall j :: 0 <= j < |a| ==> subs[j] == a[j] && a[j] in a;
    assert i == |a|;
    assert subs[..i] == a && subs[i + 1..] == b;
  }

  lemma {:induction false} RemovedKeepsKeysDistinct(subs: seq<Subscriber>, key: string)
    requires DistinctKeys(subs)
    ensures DistinctKeys(Removed(subs, key))
    ensures forall x :: x in Removed(subs, key) <==> x in subs && Key(x.target) != key
  {
    hide Key;
    var n := FindIndex(subs, key);
    if n < |subs| {
      var next := Removed(subs, key);
      assert forall i :: 0 <= i < |next| ==> next[i] == if i < n then subs[i] else subs[i + 1];
      forall x | x in subs && Key(x.target) != key ensures x in next {
        var i :| 0 <= i < |subs| && subs[i] == x;
        assert next[if i < n then i else i - 1] == x;
      }
    }
  }

  /** Whatever a chat says keeps the keys distinct, if its own key survives a reload. */
  lemma {:induction false} CommandKeepsKeysDistinct(file: File, c: Context, command: Command, now: int)
    requires DistinctKeys(ReadNotifyState(file).subscribers)
    requires ResolveNotifyTarget(c).Some? ==> KeyStable(ResolveNotifyTarget(c).value)
    ensures DistinctKeys(ReadNotifyState(Step(file, Told(c, command, now))).subscribers)
  {
    if c.channel == "telegram" && ResolveNotifyTarget(c).Some? {
      hide ReadNotifyState, Key, ResolveNotifyTarget, NormalizeTarget, Step, DistinctKeys, FindIndex, Placed, Removed;
      CommandReadsBack(file, c, command, now);
      var subs, t := ReadNotifyState(file).subscribers, ResolveNotifyTarget(c).value;
      PlacedKeepsKeysDistinct(subs, Subscriber(NormalizeTarget(t), if command.On? then Persistent else Once, now));
      RemovedKeepsKeysDistinct(subs, Key(t));
    }
  }

  lemma {:induction false} WithoutKeepsKeysDistinct(subs: seq<Subscriber>, keys: set<string>)
    requires DistinctKeys(subs)
    ensures DistinctKeys(Without(subs, keys))
  {
    if subs != [] {
      hide Key;
      WithoutKeepsKeysDistinct(subs[1..], keys);
      WithoutShrinks(subs[1..], keys);
    }
  }

  predicate Clean(e: Event) {
    e.Told? && ResolveNotifyTarget(e.c).Some? ==> KeyStable(ResolveNotifyTarget(e.c).value)
  }

  lemma {:induction false} PollKeepsKeysDistinct(file: File, pending: seq<Request>, now: int, ok: Oracle)
    requires DistinctKeys(ReadNotifyState(file).subscribers)
    ensures DistinctKeys(ReadNotifyState(Step(file, Poll(pending, now, ok))).subscribers)
  {
    hide ReadNotifyState, DistinctKeys, Step, Polled, Without, Served, Pruned;
    var s := ReadNotifyState(file);
    PollReadsBack(file, pending, now, ok);
    WithoutKeepsKeysDistinct(s.subscribers,
      Served(Polled(s.(marks := Pruned(s.marks, pending, now)), pending, now, ok, |pending|).sends));
  }

  /** Over every run, the loaded list has one entry for each key. */
  lemma {:induction false} RunKeepsKeysDistinct(file: File, events: seq<Event>)
    requires DistinctKeys(ReadNotifyState(file).subscribers)
    requires forall k :: 0 <= k < |events| ==> Clean(events[k])
    ensures DistinctKeys(ReadNotifyState(Ran(file, events)).subscribers)
  {
    if events != [] {
      hide ReadNotifyState, DistinctKeys, Step, KeyStable, ResolveNotifyTarget;
      var n := |events| - 1;
      RunKeepsKeysDistinct(file, events[..n]);
      var before, e := Ran(file, events[..n]), events[n];
      assert Clean(e);
      match e
      case Told(c, command, now) => CommandKeepsKeysDistinct(before, c, command, now);
      case Poll(pending, now, ok) => PollKeepsKeysDistinct(before, pending, now, ok);
    }
  }

  /** For a chat that is not listed, `off` takes back `on` or `once` exactly when the chat's
      key survives a reload. */
  lemma {:induction false} OffUndoesOnExactly(file: File, c: Context, command: Command, now: int, later: int)
    requires c.channel == "telegram" && ResolveNotifyTarget(c).Some? && (command.On? || command.ArmOnce?)
    requires !HasKey(ReadNotifyState(file).subscribers, Key(ResolveNotifyTarget(c).value))
    ensures ReadNotifyState(Step(Step(file, Told(c, command, now)), Told(c, Off, later))) == ReadNotifyState(file)
            <==> KeyStable(ResolveNotifyTarget(c).value)
  {
    hide ReadNotifyState, Key, ResolveNotifyTarget, NormalizeTarget, Step;
    var s, t := ReadNotifyState(file), ResolveNotifyTarget(c).value;
    CommandReadsBack(file, c, command, now);
    CommandReadsBack(Step(file, Told(c, command, now)), c, Off, later);
    var x := Subscriber(NormalizeTarget(t), if command.On? then Persistent else Once, now);
    assert ReadNotifyState(Step(file, Told(c, command, now))).subscribers == s.subscribers + [x];
    var i := FindIndex(s.subscribers + [x], Key(t));
    assert forall j :: 0 <= j < |s.subscribers| ==> (s.subscribers + [x])[j] == s.subscribers[j];
    assert i >= |s.subscribers|;
    if KeyStable(t) {
      assert (s.subscribers + [x])[|s.subscribers|] == x;
      assert i == |s.subscribers|;
    }
  }

  lemma {:induction false} FoundLast(subs: seq<Subscriber>, x: Subscriber, key: string)
    requires !HasKey(subs, key)
    ensures FindIndex(subs + [x], key) == if Key(x.target) == key then |subs| else |subs| + 1
  {
    hide Key;
    var i := FindIndex(subs + [x], key);
    assert forall j :: 0 <= j < |subs| ==> (subs + [x])[j] == subs[j];
    assert (subs + [x])[|subs|] == x;
  }

  /** A chat that is not listed and says the same thing twice is listed once exactly when its
      key survives a reload. */
  lemma {:induction false} TwiceIsListedOnceExactly(file: File, c: Context, command: Command, now: int, later: int)
    requires c.channel == "telegram" && ResolveNotifyTarget(c).Some? && (command.On? || command.ArmOnce?)
    requires var subs, t := ReadNotifyState(file).subscribers, ResolveNotifyTarget(c).value;
             DistinctKeys(subs) && !HasKey(subs, Key(t)) && !HasKey(subs, Key(NormalizeTarget(t)))
    ensures DistinctKeys(
              ReadNotifyState(Step(Step(file, Told(c, command, now)), Told(c, command, later))).subscribers)
            <==> KeyStable(ResolveNotifyTarget(c).value)
  {
    hide ReadNotifyState, Key, ResolveNotifyTarget, NormalizeTarget, Step;
    var subs, t := ReadNotifyState(file).subscribers, ResolveNotifyTarget(c).value;
    var mode := if command.On? then Persistent else Once;
    var e1, e2 := Told(c, command, now), Told(c, command, later);
    CommandReadsBack(file, c, command, now);
    CommandReadsBack(Step(file, e1), c, command, later);
    var x, y := Subscriber(NormalizeTarget(t), mode, now), Subscriber(NormalizeTarget(t), mode, later);
    var once := ReadNotifyState(Step(file, e1)).subscribers;
    var twice := ReadNotifyState(Step(Step(file, e1), e2)).subscribers;
    assert once == subs + [x];
    PlacedKeepsKeysDistinct(subs, x);
    FoundLast(subs, x, Key(t));
    if !KeyStable(t) {
      assert twice == once + [y];
      assert twice[|subs|] == x && twice[|subs| + 1] == y;
    }
  }

  lemma {:induction false} EmptyFile()
    ensures ReadNotifyState(None) == State([], map[])
  {
  }

  // ---------- what one poll sends and keeps ----------

  /** The next request adds sends only about itself, and only when it has no mark. */
  lemma {:induction false} PolledGrows(s: State, pending: seq<Request>, now: int, ok: Oracle, n: nat)
    requires n < |pending|
    ensures var p, q := Polled(s, pending, now, ok, n), Polled(s, pending, now, ok, n + 1);
            && p.sends <= q.sends
            && (forall k :: |p.sends| <= k < |q.sends| ==>
                  && q.sends[k].requestId == pending[n].requestId && !Marked(p.marks, pending[n].requestId)
                  && q.sends[k].subscriber in s.subscribers && ShouldNotify(q.sends[k].subscriber, pending[n]))
            && (now != 0 ==> forall id :: Marked(p.marks, id) ==> Marked(q.marks, id))
  {
    hide Round, ShouldNotify, Inherited;
    RoundIsJustified(s.subscribers, pending[n], n, ok, |s.subscribers|);
    var p := Polled(s, pending, now, ok, n);
    var round := Round(s.subscribers, pending[n], n, ok, |s.subscribers|);
    if !Marked(p.marks, pending[n].requestId) {
      assert Polled(s, pending, now, ok, n + 1).sends == p.sends + round;
      assert forall k :: |p.sends| <= k < |p.sends + round| ==> (p.sends + round)[k] in round;
    }
  }

  predicate Concerns(x: Send, pending: seq<Request>, n: nat)
    requires n <= |pending|
  {
    exists i: nat :: i < n && pending[i].requestId == x.requestId && ShouldNotify(x.subscriber, pending[i])
  }

  lemma {:induction false} SendsConcern(s: State, pending: seq<Request>, now: int, ok: Oracle, n: nat)
    requires n <= |pending|
    ensures forall x :: x in Polled(s, pending, now, ok, n).sends ==>
      x.subscriber in s.subscribers && Concerns(x, pending, n)
  {
    hide Polled, ShouldNotify, Marked;
    if n > 0 {
      PolledGrows(s, pending, now, ok, n - 1);
      SendsConcern(s, pending, now, ok, n - 1);
      var p, q := Polled(s, pending, now, ok, n - 1), Polled(s, pending, now, ok, n);
      forall k: nat | k < |q.sends| ensures q.sends[k].subscriber in s.subscribers && Concerns(q.sends[k], pending, n)
      {
        if k < |p.sends| {
          assert q.sends[k] == p.sends[k];
          assert p.sends[k] in p.sends;
        }
      }
    } else {
      PolledNone(s, pending, now, ok);
    }
  }

  predicate MarkedRecently(marks: map<string, int>, id: string, now: int) {
    id in marks && now - marks[id] <= NOTIFY_MAX_SEEN_AGE_MS
  }

  lemma {:induction false} OneShotHearsOfNewOnly(x: Subscriber, r: Request)
    requires ShouldNotify(x, r)
    ensures x.mode == Once ==> StampedFrom(r, x.addedAtMs)
  {
  }

  /** Every message is about a pending request without a recent mark, and goes to a subscriber;
      a one-shot subscriber hears only of requests stamped at or after its arming. */
  lemma {:induction false} SendsAreJustified(file: File, pending: seq<Request>, now: int, ok: Oracle)
    ensures var s := ReadNotifyState(file);
            forall x :: x in Sent(file, Poll(pending, now, ok)) ==>
              && x.subscriber in s.subscribers
              && !Inherited(x.requestId) && !MarkedRecently(s.marks, x.requestId, now)
              && exists i: nat ::
                   && i < |pending| && pending[i].requestId == x.requestId
                   && (x.subscriber.mode == Once ==> StampedFrom(pending[i], x.subscriber.addedAtMs))
  {
    hide ReadNotifyState, Polled, PendingIds, ShouldNotify, Inherited;
    var s := ReadNotifyState(file);
    LoadedMarksArePositive(file);
    var s1 := s.(marks := Pruned(s.marks, pending, now));
    SendsConcern(s1, pending, now, ok, |pending|);
    PolledMarks(s1, pending, now, ok, |pending|);
    forall x | x in Sent(file, Poll(pending, now, ok))
      ensures !Inherited(x.requestId) && !MarkedRecently(s.marks, x.requestId, now)
      ensures exists i: nat ::
                && i < |pending| && pending[i].requestId == x.requestId
                && (x.subscriber.mode == Once ==> StampedFrom(pending[i], x.subscriber.addedAtMs))
    {
      assert !Marked(s1.marks, x.requestId);
      assert Concerns(x, pending, |pending|);
      var i: nat :| i < |pending| && pending[i].requestId == x.requestId && ShouldNotify(x.subscriber, pending[i]);
      OneShotHearsOfNewOnly(x.subscriber, pending[i]);
    }
  }

  predicate Got(sends: seq<Send>, x: Subscriber) { exists m :: m in sends && m.ok && m.subscriber == x }

  /** The list without the one-shot subscribers that got something. */
  ghost function Unserved(subs: seq<Subscriber>, sends: seq<Send>): seq<Subscriber> {
    if subs == [] then []
    else (if subs[0].mode == Once && Got(sends, subs[0]) then [] else [subs[0]]) + Unserved(subs[1..], sends)
  }

  lemma {:induction false} ServedIsGot(all: seq<Subscriber>, sends: seq<Send>, i: nat)
    requires DistinctKeys(all) && i < |all| && forall m :: m in sends ==> m.subscriber in all
    ensures Key(all[i].target) in Served(sends) <==> all[i].mode == Once && Got(sends, all[i])
  {}

  lemma {:induction false} WithoutIsUnserved(all: seq<Subscriber>, from: nat, sends: seq<Send>)
    requires DistinctKeys(all) && from <= |all| && forall m :: m in sends ==> m.subscriber in all
    ensures Without(all[from..], Served(sends)) == Unserved(all[from..], sends)
    decreases |all| - from
  {
    if from < |all| {
      hide Key, Served, Got, DistinctKeys;
      ServedIsGot(all, sends, from);
      WithoutIsUnserved(all, from + 1, sends);
      assert all[from..][1..] == all[from + 1..];
    }
  }

  /** With distinct keys, a poll drops from the list exactly the one-shot subscribers that got
      a message, and no persistent one. */
  lemma {:induction false} PollDropsExactlyTheServed(file: File, pending: seq<Request>, now: int, ok: Oracle)
    requires DistinctKeys(ReadNotifyState(file).subscribers)
    ensures var e, subs := Poll(pending, now, ok), ReadNotifyState(file).subscribers;
            ReadNotifyState(Step(file, e)).subscribers == Unserved(subs, Sent(file, e))
  {
    hide ReadNotifyState, DistinctKeys, Step, Polled, Without, Served, Pruned;
    var s := ReadNotifyState(file);
    PollReadsBack(file, pending, now, ok);
    var s1 := s.(marks := Pruned(s.marks, pending, now));
    SendsConcern(s1, pending, now, ok, |pending|);
    WithoutIsUnserved(s.subscribers, 0, Sent(file, Poll(pending, now, ok)));
    assert s.subscribers[0..] == s.subscribers;
  }

  lemma {:induction false} PendingIdsAre(pending: seq<Request>)
    ensures forall id :: id in PendingIds(pending) <==> exists i :: 0 <= i < |pending| && pending[i].requestId == id
  {}

  /** After a poll, every mark belongs to a pending request and is at most a day old. */
  lemma {:induction false} MarksArePendingAndRecent(file: File, pending: seq<Request>, now: int, ok: Oracle)
    ensures var marks := ReadNotifyState(Step(file, Poll(pending, now, ok))).marks;
            forall id :: id in marks ==>
              (exists i :: 0 <= i < |pending| && pending[i].requestId == id) && now - marks[id] <= 86_400_000
  {
    hide ReadNotifyState, Step, Polled, Without, Served, PendingIds, Trim, Inherited;
    PollReadsBack(file, pending, now, ok);
    PendingIdsAre(pending);
    var s := ReadNotifyState(file);
    PolledMarks(s.(marks := Pruned(s.marks, pending, now)), pending, now, ok, |pending|);
  }

  // ---------- at most one round ----------

  /** A success leaves a mark that can be read back, unless the id is blank or the clock is
      not past zero. */
  lemma {:induction false} SuccessLeavesMark(file: File, pending: seq<Request>, now: int, ok: Oracle, x: Send)
    requires x in Sent(file, Poll(pending, now, ok)) && x.ok
    ensures var marks := ReadNotifyState(Step(file, Poll(pending, now, ok))).marks;
            if Trim(x.requestId) != "" && now > 0 then x.requestId in marks && marks[x.requestId] == now
            else x.requestId !in marks
  {
    hide ReadNotifyState, Step, Polled, Without, Served, PendingIds, Trim, Inherited;
    PollReadsBack(file, pending, now, ok);
    var s := ReadNotifyState(file);
    PolledMarks(s.(marks := Pruned(s.marks, pending, now)), pending, now, ok, |pending|);
  }

  lemma {:induction false} QuietCommand(file: File, c: Context, command: Command, now: int)
    requires c.channel != "telegram" || ResolveNotifyTarget(c).None?
    ensures Step(file, Told(c, command, now)) == file
  {
  }

  /** While the request stays pending and the mark is recent, a mark outlives any event. */
  lemma {:induction false} MarkSurvives(file: File, e: Event, id: string)
    requires id in ReadNotifyState(file).marks
    requires e.Poll? ==> id in PendingIds(e.pending) && MarkedRecently(ReadNotifyState(file).marks, id, e.now)
    ensures var marks := ReadNotifyState(Step(file, e)).marks;
            id in marks && marks[id] == ReadNotifyState(file).marks[id]
  {
    hide ReadNotifyState, Step, Polled, Without, Served, PendingIds, Trim, ResolveNotifyTarget, Inherited;
    var s := ReadNotifyState(file);
    LoadedMarksArePositive(file);
    match e
    case Told(c, command, now) =>
      if c.channel == "telegram" && ResolveNotifyTarget(c).Some? {
        CommandReadsBack(file, c, command, now);
      } else {
        QuietCommand(file, c, command, now);
      }
    case Poll(pending, now, ok) =>
      PollReadsBack(file, pending, now, ok);
      PolledMarks(s.(marks := Pruned(s.marks, pending, now)), pending, now, ok, |pending|);
  }

  lemma {:induction false} RanSteps(file: File, events: seq<Event>, i: nat)
    requires i < |events|
    ensures Ran(file, events[..i + 1]) == Step(Ran(file, events[..i]), events[i])
  {
    assert events[..i + 1][..i] == events[..i];
  }

  predicate MarkedAt(marks: map<string, int>, id: string, time: int) { id in marks && marks[id] == time }

  lemma {:induction false} MarkSurvivesRun(file: File, events: seq<Event>, i: nat, j: nat, id: string, marked: int)
    requires i <= j <= |events|
    requires MarkedAt(ReadNotifyState(Ran(file, events[..i])).marks, id, marked)
    requires forall k :: i <= k < j && events[k].Poll? ==>
      id in PendingIds(events[k].pending) && events[k].now - marked <= NOTIFY_MAX_SEEN_AGE_MS
    ensures MarkedAt(ReadNotifyState(Ran(file, events[..j])).marks, id, marked)
    decreases j
  {
    if i < j {
      hide ReadNotifyState, Step, PendingIds, Ran;
      MarkSurvivesRun(file, events, i, j - 1, id, marked);
      RanSteps(file, events, j - 1);
      MarkSurvives(Ran(file, events[..j - 1]), events[j - 1], id);
    }
  }

  /** Over every run of commands and polls: once anyone was told of a request, no later poll
      sends it while it stays pending and the success is at most a day old. */
  lemma {:induction false} RequestIsAnnouncedOnce(file: File, events: seq<Event>, i: nat, j: nat, x: Send)
    requires i < j < |events| && events[i].Poll? && events[j].Poll?
    requires x in Sent(Ran(file, events[..i]), events[i]) && x.ok
    requires Trim(x.requestId) != "" && events[i].now > 0
    requires forall k :: i < k <= j && events[k].Poll? ==>
      x.requestId in PendingIds(events[k].pending) && events[k].now - events[i].now <= 86_400_000
    ensures forall y :: y in Sent(Ran(file, events[..j]), events[j]) ==> y.requestId != x.requestId
  {
    hide ReadNotifyState, Step, PendingIds, Trim, Sent, Ran;
    var e := events[i];
    SuccessLeavesMark(Ran(file, events[..i]), e.pending, e.now, e.ok, x);
    RanSteps(file, events, i);
    MarkSurvivesRun(file, events, i + 1, j, x.requestId, e.now);
    var last := events[j];
    SendsAreJustified(Ran(file, events[..j]), last.pending, last.now, last.ok);
  }

  /** Within one poll, nothing more is sent about a request that anyone was told of, even if
      it is listed again. */
  lemma {:induction false} AnnouncedOnceWithinAPoll(
      s: State, pending: seq<Request>, now: int, ok: Oracle, m: nat, n: nat, x: Send)
    requires m <= n <= |pending| && now != 0
    requires x in Polled(s, pending, now, ok, m).sends && x.ok
    ensures |Polled(s, pending, now, ok, m).sends| <= |Polled(s, pending, now, ok, n).sends|
    ensures forall k :: |Polled(s, pending, now, ok, m).sends| <= k < |Polled(s, pending, now, ok, n).sends| ==>
              Polled(s, pending, now, ok, n).sends[k].requestId != x.requestId
    ensures Marked(Polled(s, pending, now, ok, n).marks, x.requestId)
    decreases n
  {
    if m == n {
      hide Polled, Inherited;
      PolledMarks(s, pending, now, ok, n);
    } else {
      hide Polled, ShouldNotify, Inherited;
      AnnouncedOnceWithinAPoll(s, pending, now, ok, m, n - 1, x);
      PolledGrows(s, pending, now, ok, n - 1);
    }
  }

  lemma {:induction false} NotYetSent(s: State, pending: seq<Request>, now: int, ok: Oracle, n: nat, id: string)
    requires n <= |pending| && forall j :: 0 <= j < n ==> pending[j].requestId != id
    ensures forall y :: y in Polled(s, pending, now, ok, n).sends ==> y.requestId != id
  {
    hide Polled, ShouldNotify;
    SendsConcern(s, pending, now, ok, n);
  }

  lemma {:induction false} RoundReaches(subs: seq<Subscriber>, r: Request, i: nat, ok: Oracle, n: nat, j: nat)
    requires j < n <= |subs| && ShouldNotify(subs[j], r)
    ensures exists y :: y in Round(subs, r, i, ok, n) && y.requestId == r.requestId && y.subscriber == subs[j]
  {
    hide ShouldNotify;
    if j < n - 1 {
      RoundReaches(subs, r, i, ok, n - 1, j);
      var y :| y in Round(subs, r, i, ok, n - 1) && y.requestId == r.requestId && y.subscriber == subs[j];
      assert y in Round(subs, r, i, ok, n);
    } else {
      var y := Send(r.requestId, subs[j], ok(i, j));
      assert Round(subs, r, i, ok, n) == Round(subs, r, i, ok, n - 1) + [y];
      assert y in Round(subs, r, i, ok, n);
    }
  }

  predicate NoneTold(sends: seq<Send>, id: string) { forall y :: y in sends && y.ok ==> y.requestId != id }

  lemma {:induction false} NoneToldJoins(sends: seq<Send>, round: seq<Send>, roundId: string, id: string)
    requires forall y :: y in round ==> y.requestId == roundId
    ensures NoneTold(sends + round, id) ==> NoneTold(sends, id) && (Delivered(round) ==> roundId != id)
  {
    if NoneTold(sends + round, id) {
      assert forall y :: y in sends || y in round ==> y in sends + round;
    }
  }

  /** Without a success nothing is marked: the request is tried again at the next poll. */
  lemma {:induction false} NoSuccessNoMark(s: State, pending: seq<Request>, now: int, ok: Oracle, n: nat, id: string)
    requires n <= |pending|
    ensures var p := Polled(s, pending, now, ok, n);
            NoneTold(p.sends, id) ==>
              (id in p.marks <==> id in s.marks) && (id in s.marks ==> p.marks[id] == s.marks[id])
  {
    hide *;
    if n > 0 {
      PolledStep(s, pending, now, ok, n - 1);
      NoSuccessNoMark(s, pending, now, ok, n - 1, id);
      var r := pending[n - 1];
      var round := Round(s.subscribers, r, n - 1, ok, |s.subscribers|);
      RoundIsJustified(s.subscribers, r, n - 1, ok, |s.subscribers|);
      NoneToldJoins(Polled(s, pending, now, ok, n - 1).sends, round, r.requestId, id);
    } else {
      PolledNone(s, pending, now, ok);
    }
  }

  /** An unmarked request is sent, at its first mention, to every subscriber it concerns. */
  lemma {:induction false} UnmarkedIsSent(
      s: State, pending: seq<Request>, now: int, ok: Oracle, n: nat, i: nat, x: Subscriber)
    requires i < n <= |pending| && x in s.subscribers && ShouldNotify(x, pending[i])
    requires !Marked(s.marks, pending[i].requestId)
    requires forall j :: 0 <= j < i ==> pending[j].requestId != pending[i].requestId
    ensures exists y :: && y in Polled(s, pending, now, ok, n).sends
                        && y.requestId == pending[i].requestId && y.subscriber == x
    decreases n
  {
    hide Polled, Round, ShouldNotify, Inherited;
    var id := pending[i].requestId;
    PolledGrows(s, pending, now, ok, n - 1);
    if i < n - 1 {
      UnmarkedIsSent(s, pending, now, ok, n - 1, i, x);
      var y :| y in Polled(s, pending, now, ok, n - 1).sends && y.requestId == id && y.subscriber == x;
      assert y in Polled(s, pending, now, ok, n).sends;
    } else {
      NotYetSent(s, pending, now, ok, i, id);
      NoSuccessNoMark(s, pending, now, ok, i, id);
      var j :| 0 <= j < |s.subscribers| && s.subscribers[j] == x;
      RoundReaches(s.subscribers, pending[i], i, ok, |s.subscribers|, j);
      PolledStep(s, pending, now, ok, i);
    }
  }

  /** A request listed once goes to exactly the subscribers it concerns, unless it has a recent
      mark: to the persistent ones, and to one-shot ones if it is stamped at or after arming. */
  lemma {:induction false} RequestReachesExactly(
      file: File, pending: seq<Request>, now: int, ok: Oracle, i: nat, x: Subscriber)
    requires i < |pending| && x in ReadNotifyState(file).subscribers
    requires forall j :: 0 <= j < |pending| && pending[j].requestId == pending[i].requestId ==> j == i
    ensures var id, ts := pending[i].requestId, pending[i].ts;
            (exists y :: y in Sent(file, Poll(pending, now, ok)) && y.requestId == id && y.subscriber == x) <==>
              && !Inherited(id) && !MarkedRecently(ReadNotifyState(file).marks, id, now)
              && (x.mode == Persistent || (ts.Some? && ts.value > 0 && ts.value >= x.addedAtMs))
  {
    hide ReadNotifyState, Polled, Inherited;
    var s := ReadNotifyState(file);
    LoadedMarksArePositive(file);
    SendsAreJustified(file, pending, now, ok);
    var s1 := s.(marks := Pruned(s.marks, pending, now));
    var id := pending[i].requestId;
    if !Inherited(id) && !MarkedRecently(s.marks, id, now) && ShouldNotify(x, pending[i]) {
      UnmarkedIsSent(s1, pending, now, ok, |pending|, i, x);
    }
  }

  /** What is marked when the next event reads the file: what was marked recently and is still
      pending, and what anyone was told of in this poll. */
  lemma {:induction false} MarksExactly(file: File, pending: seq<Request>, now: int, ok: Oracle, id: string)
    ensures var e, s := Poll(pending, now, ok), ReadNotifyState(file);
            var marks := ReadNotifyState(Step(file, e)).marks;
            var told := exists y :: y in Sent(file, e) && y.ok && y.requestId == id;
            && (id in marks <==>
                  || (id in PendingIds(pending) && MarkedRecently(s.marks, id, now))
                  || (told && Trim(id) != "" && now > 0))
            && (id in marks ==> marks[id] == if told then now else s.marks[id])
  {
    hide ReadNotifyState, Step, Polled, Without, Served, PendingIds, Trim, Inherited;
    var s, e := ReadNotifyState(file), Poll(pending, now, ok);
    var s1 := s.(marks := Pruned(s.marks, pending, now));
    LoadedMarksArePositive(file);
    PollReadsBack(file, pending, now, ok);
    PolledMarks(s1, pending, now, ok, |pending|);
    NoSuccessNoMark(s1, pending, now, ok, |pending|, id);
    if y :| y in Sent(file, e) && y.ok && y.requestId == id {
      SuccessLeavesMark(file, pending, now, ok, y);
    }
  }

  lemma {:induction false} FirstMention(pending: seq<Request>, id: string) returns (i: nat)
    requires id in PendingIds(pending)
    ensures i < |pending| && pending[i].requestId == id
    ensures forall j :: 0 <= j < i ==> pending[j].requestId != id
  {
    i := 0;
    while pending[i].requestId != id
      invariant i < |pending| && forall j :: 0 <= j < i ==> pending[j].requestId != id
      decreases |pending| - i
    {
      i := i + 1;
    }
  }

  /** Two polls in a row, with a persistent subscriber left for the second: a request that
      was announced and is still pending is announced again exactly when its id is blank, the
      first clock was not past zero, or the mark is more than a day old. */
  lemma {:induction false} AnnouncedAgainExactly(file: File, first: Event, second: Event, x: Send, y: Subscriber)
    requires first.Poll? && second.Poll? && x in Sent(file, first) && x.ok
    requires x.requestId in PendingIds(second.pending)
    requires y in ReadNotifyState(Step(file, first)).subscribers && y.mode == Persistent
    ensures (exists z :: z in Sent(Step(file, first), second) && z.requestId == x.requestId)
            <==> Trim(x.requestId) == "" || first.now <= 0 || second.now - first.now > 86_400_000
  {
    hide ReadNotifyState, Step, Trim, Polled, Inherited;
    var file1 := Step(file, first);
    SuccessLeavesMark(file, first.pending, first.now, first.ok, x);
    SendsAreJustified(file, first.pending, first.now, first.ok);
    SendsAreJustified(file1, second.pending, second.now, second.ok);
    var s := ReadNotifyState(file1);
    var s1 := s.(marks := Pruned(s.marks, second.pending, second.now));
    if Trim(x.requestId) == "" || first.now <= 0 || second.now - first.now > NOTIFY_MAX_SEEN_AGE_MS {
      var i := FirstMention(second.pending, x.requestId);
      UnmarkedIsSent(s1, second.pending, second.now, second.ok, |second.pending|, i, y);
    }
  }
}
