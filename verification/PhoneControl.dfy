/** Arming and disarming phone commands (extensions/phone-control/index.ts): a reversible
    edit of the gateway's allow and deny lists, with an undo record saved on the side. */
module PhoneControl {
  import opened JsText
  import opened OrderedNames

  datatype Group = Camera | Screen | Writes | All

  const CAMERA_COMMANDS := ["camera.snap", "camera.clip"]
  const SCREEN_COMMANDS := ["screen.record"]
  const WRITE_COMMANDS := ["calendar.add", "contacts.add", "reminders.add", "sms.send"]
  const DEFAULT_DURATION_MS := 10 * 60_000

  function GroupCommands(group: Group): seq<string> {
    match group
    case Camera => UniqSorted(CAMERA_COMMANDS)
    case Screen => UniqSorted(SCREEN_COMMANDS)
    case Writes => UniqSorted(WRITE_COMMANDS)
    case All => UniqSorted(CAMERA_COMMANDS + SCREEN_COMMANDS + WRITE_COMMANDS)
  }

  /** The undo record, in both versions found on disk. */
  datatype ArmState =
    | V1(armedAtMs: int, expiresAtMs: Option<int>, removedFromDeny: seq<string>)
    | V2(armedAtMs: int, expiresAtMs: Option<int>, group: Group, armedCommands: seq<string>,
         addedToAllow: seq<string>, removedFromDeny: seq<string>)

  datatype State = State(allow: seq<string>, deny: seq<string>, armed: Option<ArmState>)

  // ---------- what arming and disarming compute ----------

  /** Lists and undo record after arming `commands`. */
  function Armed(s: State, group: Group, commands: seq<string>, now: int, expiresAtMs: int): State {
    State(
      UniqSorted(s.allow + commands),
      UniqSorted(Minus(UniqSorted(s.deny), commands)),
      Some(V2(now, Some(expiresAtMs), group, UniqSorted(commands),
              UniqSorted(Minus(commands, UniqSorted(s.allow))),
              UniqSorted(Common(commands, UniqSorted(s.deny))))))
  }

  function AddedToAllow(record: ArmState): seq<string> {
    if record.V1? then [] else record.addedToAllow
  }

  /** Entries the disarm takes off the allow list. */
  function ToRemove(s: State): seq<string>
    requires s.armed.Some?
  {
    Common(AddedToAllow(s.armed.value), UniqSorted(s.allow))
  }

  /** Entries the disarm puts back on the deny list. */
  function ToRestore(s: State): seq<string>
    requires s.armed.Some?
  {
    Minus(s.armed.value.removedFromDeny, UniqSorted(s.deny))
  }

  /** Lists after disarming; they are rewritten only if some entry moves. */
  function Disarmed(s: State): State {
    if s.armed.None? then s
    else if ToRemove(s) == [] && ToRestore(s) == [] then s.(armed := None)
    else State(UniqSorted(Minus(UniqSorted(s.allow), AddedToAllow(s.armed.value))),
               UniqSorted(UniqSorted(s.deny) + s.armed.value.removedFromDeny),
               None)
  }

  /** The record asks to be undone by `now`. */
  predicate Expired(s: State, now: int) {
    s.armed.Some? && s.armed.value.expiresAtMs.Some? && now >= s.armed.value.expiresAtMs.value
  }

  // ---------- the plugin as an object ----------

  datatype Action = Arm(group: Option<Group>, durationMs: Option<int>) | Disarm | Report

  predicate Authorized(channel: string, scopes: seq<string>) {
    channel != "webchat" || "operator.admin" in scopes
  }

  datatype Event =
    | Command(channel: string, scopes: seq<string>, action: Action, now: int)
    | Tick(now: int)
    | Edit(allow: seq<string>, deny: seq<string>)

  function Next(s: State, e: Event): State {
    match e
    case Command(channel, scopes, action, now) =>
      if action.Report? || !Authorized(channel, scopes) then s
      else if action.Disarm? then Disarmed(s)
      else if action.group.None? then s
      else
        var duration := if action.durationMs.Some? then action.durationMs.value else DEFAULT_DURATION_MS;
        Armed(s, action.group.value, GroupCommands(action.group.value), now, now + duration)
    case Tick(now) => if Expired(s, now) then Disarmed(s) else s
    case Edit(allow, deny) => s.(allow := allow, deny := deny)
  }

  /** A JavaScript Set of strings: entries in insertion order, each once. */
  function SetAdd(s: seq<string>, x: string): seq<string> { if x in s then s else s + [x] }
  function SetDelete(s: seq<string>, x: string): seq<string> { Minus(s, [x]) }

  lemma SameEntriesSameForm(a: seq<string>, b: seq<string>)
    requires forall x :: x in a <==> x in b
    ensures UniqSorted(a) == UniqSorted(b) && (a == [] <==> b == [])
  {
    CanonicalFormIsExact(a, b);
    if a != [] { assert a[0] in b; }
    if b != [] { assert b[0] in a; }
  }

  /** Allow commands and stop denying them, listing what that changed. */
  method Permit(allow: seq<string>, deny: seq<string>, commands: seq<string>)
    returns (allowSet: seq<string>, denySet: seq<string>,
             addedToAllow: seq<string>, removedFromDeny: seq<string>)
    requires StrictlySorted(commands)
    ensures UniqSorted(allowSet) == UniqSorted(allow + commands)
    ensures UniqSorted(denySet) == UniqSorted(Minus(deny, commands))
    ensures addedToAllow == Minus(commands, allow) && removedFromDeny == Common(commands, deny)
  {
    hide UniqSorted, StrictlySorted;
    allowSet, denySet, addedToAllow, removedFromDeny := allow, deny, [], [];
    for i := 0 to |commands|
      invariant forall x :: x in allowSet <==> x in allow || x in commands[..i]
      invariant forall x :: x in denySet <==> x in deny && x !in commands[..i]
      invariant addedToAllow == Keep(commands[..i], allow, false)
      invariant removedFromDeny == Keep(commands[..i], deny, true)
    {
      var cmd := commands[i];
      SortedIsDistinct(commands, i);
      assert commands[..i + 1] == commands[..i] + [cmd];
      KeepOneMore(commands[..i], cmd, allow, false);
      KeepOneMore(commands[..i], cmd, deny, true);
      if cmd !in allowSet {
        allowSet := SetAdd(allowSet, cmd);
        addedToAllow := addedToAllow + [cmd];
      }
      if cmd in denySet {
        denySet := SetDelete(denySet, cmd);
        removedFromDeny := removedFromDeny + [cmd];
      }
    }
    assert commands[..|commands|] == commands;
    SameEntriesSameForm(allowSet, allow + commands);
    SameEntriesSameForm(denySet, Minus(deny, commands));
  }

  /** Delete commands from a set, listing those that were in it. */
  method TakeOff(names: seq<string>, commands: seq<string>) returns (rest: seq<string>, removed: seq<string>)
    ensures UniqSorted(rest) == UniqSorted(Minus(names, commands))
    ensures UniqSorted(removed) == UniqSorted(Common(commands, names))
    ensures removed == [] <==> Common(commands, names) == []
  {
    rest, removed := names, [];
    for i := 0 to |commands|
      invariant forall x :: x in rest <==> x in names && x !in commands[..i]
      invariant forall x :: x in removed <==> x in names && x in commands[..i]
    {
      if commands[i] in rest {
        rest := SetDelete(rest, commands[i]);
        removed := removed + [commands[i]];
      }
    }
    assert commands[..|commands|] == commands;
    SameEntriesSameForm(removed, Common(commands, names));
    SameEntriesSameForm(rest, Minus(names, commands));
  }

  /** Add commands to a set, listing those that were not in it. */
  method PutBack(names: seq<string>, commands: seq<string>) returns (all: seq<string>, restored: seq<string>)
    ensures UniqSorted(all) == UniqSorted(names + commands)
    ensures UniqSorted(restored) == UniqSorted(Minus(commands, names))
    ensures restored == [] <==> Minus(commands, names) == []
  {
    all, restored := names, [];
    for i := 0 to |commands|
      invariant forall x :: x in all <==> x in names || x in commands[..i]
      invariant forall x :: x in restored <==> x !in names && x in commands[..i]
    {
      if commands[i] !in all {
        all := SetAdd(all, commands[i]);
        restored := restored + [commands[i]];
      }
    }
    assert commands[..|commands|] == commands;
    SameEntriesSameForm(restored, Minus(commands, names));
    SameEntriesSameForm(all, names + commands);
  }

  lemma GroupCommandsAreCanonical(group: Group)
    ensures StrictlySorted(GroupCommands(group)) && UniqSorted(GroupCommands(group)) == GroupCommands(group)
    ensures forall x :: x in GroupCommands(group) ==> Trimmed(x) && x != []
  {
    match group
    case Camera => CanonicalIsStable(CAMERA_COMMANDS);
    case Screen => CanonicalIsStable(SCREEN_COMMANDS);
    case Writes => CanonicalIsStable(WRITE_COMMANDS);
    case All => CanonicalIsStable(CAMERA_COMMANDS + SCREEN_COMMANDS + WRITE_COMMANDS);
  }

  lemma AllowAlike(allow: seq<string>, commands: seq<string>)
    ensures UniqSorted(UniqSorted(allow) + commands) == UniqSorted(allow + commands)
  {
    CanonicalIsStable(allow);
    NamesOfConcat(UniqSorted(allow), commands);
    NamesOfConcat(allow, commands);
    CanonicalFormIsExact(UniqSorted(allow) + commands, allow + commands);
  }

  class Plugin {
    var allowCommands: seq<string>
    var denyCommands: seq<string>
    var armState: Option<ArmState>

    function Value(): State
      reads this
    {
      State(allowCommands, denyCommands, armState)
    }

    constructor (allow: seq<string>, deny: seq<string>, armed: Option<ArmState>)
      ensures Value() == State(allow, deny, armed)
    {
      allowCommands, denyCommands, armState := allow, deny, armed;
    }

    method ArmGroup(group: Group, durationMs: Option<int>, now: int)
      modifies this
      ensures Value() == Armed(old(Value()), group, GroupCommands(group), now,
                               now + if durationMs.Some? then durationMs.value else DEFAULT_DURATION_MS)
    {
      hide UniqSorted, GroupCommands, Minus, Common;
      var expiresAtMs := now + if durationMs.Some? then durationMs.value else DEFAULT_DURATION_MS;
      var commands := GroupCommands(group);
      GroupCommandsAreCanonical(group);
      var allow0, deny0 := UniqSorted(allowCommands), UniqSorted(denyCommands);
      var allowSet, denySet, addedToAllow, removedFromDeny := Permit(allow0, deny0, commands);
      AllowAlike(allowCommands, commands);
      allowCommands := UniqSorted(allowSet);
      denyCommands := UniqSorted(denySet);
      armState := Some(V2(now, Some(expiresAtMs), group, UniqSorted(commands),
                          UniqSorted(addedToAllow), UniqSorted(removedFromDeny)));
    }

    method DisarmNow() returns (changed: bool, restored: seq<string>, removed: seq<string>)
      modifies this
      ensures Value() == Disarmed(old(Value()))
      ensures old(armState).None? ==> !changed && restored == removed == []
      ensures old(armState).Some? ==>
                && removed == UniqSorted(ToRemove(old(Value())))
                && restored == UniqSorted(ToRestore(old(Value())))
                && changed == (ToRemove(old(Value())) != [] || ToRestore(old(Value())) != [])
    {
      if armState.None? {
        return false, [], [];
      }
      hide UniqSorted, Minus, Common;
      var record := armState.value;
      var allow0, deny0 := UniqSorted(allowCommands), UniqSorted(denyCommands);
      var allow, deny;
      allow, removed := TakeOff(allow0, AddedToAllow(record));
      deny, restored := PutBack(deny0, record.removedFromDeny);
      changed := |removed| > 0 || |restored| > 0;
      if changed {
        allowCommands := UniqSorted(allow);
        denyCommands := UniqSorted(deny);
      }
      removed, restored := UniqSorted(removed), UniqSorted(restored);
      armState := None;
    }

    /** The command handler's branches that can change state. */
    method Handle(channel: string, scopes: seq<string>, action: Action, now: int)
      modifies this
      ensures Value() == Next(old(Value()), Command(channel, scopes, action, now))
    {
      hide UniqSorted, Armed, Disarmed, GroupCommands;
      if action.Report? || !Authorized(channel, scopes) {
        return;
      }
      if action.Disarm? {
        var _, _, _ := DisarmNow();
      } else if action.group.Some? {
        ArmGroup(action.group.value, action.durationMs, now);
      }
    }

    /** The expiry timer. */
    method ExpiryTick(now: int)
      modifies this
      ensures Value() == Next(old(Value()), Tick(now))
    {
      hide UniqSorted, Armed, Disarmed;
      if armState.None? || armState.value.expiresAtMs.None? || now < armState.value.expiresAtMs.value {
        return;
      }
      var _, _, _ := DisarmNow();
    }
  }

  // ---------- what arming and disarming promise ----------

  /** A state's lists in canonical form. */
  ghost function Lists(s: State): (r: (seq<string>, seq<string>)) {
    (UniqSorted(s.allow), UniqSorted(s.deny))
  }

  ghost predicate Clean(commands: seq<string>) {
    forall x :: x in commands ==> Trimmed(x) && x != []
  }

  lemma CanonicalEntries(values: seq<string>)
    ensures Clean(UniqSorted(values)) && Names(UniqSorted(values)) == Names(values)
    ensures UniqSorted(UniqSorted(values)) == UniqSorted(values)
  {
    CanonicalIsStable(values);
  }

  /** Arming, name by name: the commands become allowed and stop being denied, no other name
      moves, and the record lists exactly the names that moved. */
  lemma ArmMovesExactlyTheCommands(s: State, g: Group, cs: seq<string>, now: int, until: int)
    requires Clean(cs)
    ensures var t := Armed(s, g, cs, now, until);
            && (forall c :: c in t.allow <==> c in Names(s.allow) || c in cs)
            && (forall c :: c in t.deny <==> c in Names(s.deny) && c !in cs)
            && (forall c :: c in t.armed.value.addedToAllow <==> c in cs && c !in Names(s.allow))
            && (forall c :: c in t.armed.value.removedFromDeny <==> c in cs && c in Names(s.deny))
            && Lists(t) == (t.allow, t.deny)
  {
    hide UniqSorted, Minus, Common;
    var added, gone := Minus(cs, UniqSorted(s.allow)), Common(cs, UniqSorted(s.deny));
    var kept := Minus(UniqSorted(s.deny), cs);
    CanonicalEntries(s.deny);
    NamesOfConcat(s.allow, cs);
    CleanListNames(cs);
    CleanListNames(added);
    CleanListNames(gone);
    CleanListNames(kept);
    CanonicalEntries(s.allow + cs);
    CanonicalEntries(kept);
  }

  /** Disarming, name by name, whatever the lists have become since arming: only names saved
      in the record move. */
  lemma DisarmMovesOnlySavedCommands(s: State)
    requires s.armed.Some?
    ensures var t := Disarmed(s);
            && t.armed.None?
            && Names(t.allow) ==
                 Names(s.allow) - (if s.armed.value.V1? then {} else set c | c in s.armed.value.addedToAllow)
            && Names(t.deny) == Names(s.deny) + Names(s.armed.value.removedFromDeny)
  {
    hide UniqSorted, Minus, Common;
    var added, back := AddedToAllow(s.armed.value), s.armed.value.removedFromDeny;
    CanonicalEntries(s.allow);
    CanonicalEntries(s.deny);
    var taken, restored := ToRemove(s), ToRestore(s);
    if taken == [] && restored == [] {
      forall c | c in Names(s.allow) ensures c !in added {
        assert c in added ==> c in taken;
      }
      forall c | c in Names(back) ensures c in Names(s.deny) {
        var v :| v in back && Trim(v) != [] && Trim(v) == c;
        assert v !in UniqSorted(s.deny) ==> v in restored;
        assert Trim(v) == v;
      }
    } else {
      var kept := Minus(UniqSorted(s.allow), added);
      CleanListNames(kept);
      CanonicalEntries(kept);
      NamesOfConcat(UniqSorted(s.deny), back);
      CanonicalEntries(UniqSorted(s.deny) + back);
    }
  }

  /** Canonical lists stay canonical through a disarm. */
  lemma DisarmedListsAreCanonical(s: State)
    requires Lists(s) == (s.allow, s.deny)
    ensures Lists(Disarmed(s)) == (Disarmed(s).allow, Disarmed(s).deny)
  {
    hide UniqSorted, Minus, Common;
    if s.armed.Some? {
      CanonicalEntries(Minus(UniqSorted(s.allow), AddedToAllow(s.armed.value)));
      CanonicalEntries(UniqSorted(s.deny) + s.armed.value.removedFromDeny);
    }
  }

  /** Disarming undoes the last arm, from any state: both lists return, in canonical form,
      to what they were just before it. */
  lemma DisarmUndoesArm(s: State, g: Group, now: int, until: int)
    ensures var t := Disarmed(Armed(s, g, GroupCommands(g), now, until));
            t == State(UniqSorted(s.allow), UniqSorted(s.deny), None)
  {
    hide UniqSorted, Minus, Common;
    var cs := GroupCommands(g);
    GroupCommandsAreCanonical(g);
    var a := Armed(s, g, cs, now, until);
    ArmMovesExactlyTheCommands(s, g, cs, now, until);
    DisarmMovesOnlySavedCommands(a);
    var t := Disarmed(a);
    CanonicalEntries(a.allow);
    CanonicalEntries(a.deny);
    CleanListNames(a.allow);
    CleanListNames(a.deny);
    CleanListNames(a.armed.value.removedFromDeny);
    assert Names(t.allow) == Names(s.allow);
    assert Names(t.deny) == Names(s.deny);
    CanonicalFormIsExact(t.allow, s.allow);
    CanonicalFormIsExact(t.deny, s.deny);
    DisarmedListsAreCanonical(a);
  }

  /** Arming twice overwrites the undo record: one disarm goes back only to the first arm.
      It reaches the original lists exactly when the first arm had nothing to do. */
  lemma SecondArmForgetsTheFirst(s: State, g1: Group, g2: Group, t1: int, u1: int, t2: int, u2: int)
    ensures var once := Armed(s, g1, GroupCommands(g1), t1, u1);
            var end := Disarmed(Armed(once, g2, GroupCommands(g2), t2, u2));
            && Lists(end) == Lists(once)
            && (Lists(end) == Lists(s) <==>
                  forall c :: c in GroupCommands(g1) ==> c in Names(s.allow) && c !in Names(s.deny))
  {
    hide UniqSorted, GroupCommands, Disarmed;
    var cs := GroupCommands(g1);
    GroupCommandsAreCanonical(g1);
    var once := Armed(s, g1, cs, t1, u1);
    ArmMovesExactlyTheCommands(s, g1, cs, t1, u1);
    DisarmUndoesArm(once, g2, t2, u2);
    CanonicalEntries(once.allow);
    CanonicalEntries(once.deny);
    CanonicalEntries(s.allow);
    CanonicalEntries(s.deny);
    if forall c :: c in cs ==> c in Names(s.allow) && c !in Names(s.deny) {
      SortedIsUnique(UniqSorted(once.allow), UniqSorted(s.allow));
      SortedIsUnique(UniqSorted(once.deny), UniqSorted(s.deny));
    }
    if Lists(once) == Lists(s) {
      forall c | c in cs ensures c in Names(s.allow) && c !in Names(s.deny) {
        assert c in once.allow && c !in once.deny;
      }
    }
  }

  /** A timer tick disarms exactly a record whose expiry has come. */
  lemma TickDisarmsAtExpiry(s: State, now: int)
    ensures s.armed.Some? && s.armed.value.expiresAtMs.Some? && s.armed.value.expiresAtMs.value <= now ==>
              Next(s, Tick(now)).armed.None?
    ensures s.armed.Some? && (s.armed.value.expiresAtMs.None? || now < s.armed.value.expiresAtMs.value) ==>
              Next(s, Tick(now)) == s
  {}

  // ---------- runs ----------

  ghost function Run(s: State, es: seq<Event>): State {
    if es == [] then s else Next(Run(s, es[..|es| - 1]), es[|es| - 1])
  }

  ghost predicate Arms(e: Event) {
    e.Command? && e.action.Arm? && e.action.group.Some? && Authorized(e.channel, e.scopes)
  }

  /** The lists just before the last arm of a run, or the initial ones. */
  ghost function Baseline(s: State, es: seq<Event>): (r: (seq<string>, seq<string>)) {
    if es == [] then Lists(s)
    else if Arms(es[|es| - 1]) then Lists(Run(s, es[..|es| - 1]))
    else Baseline(s, es[..|es| - 1])
  }

  lemma NothingToDisarm(s: State)
    requires s.armed.None?
    ensures Disarmed(s) == s
  {}

  lemma DisarmIsFinal(s: State)
    ensures Disarmed(s).armed.None? && Disarmed(Disarmed(s)) == Disarmed(s)
  {}

  /** In every run without outside edits the saved record leads back to the lists before the
      last arm, and after a disarm or expiry the lists are those. */
  lemma {:induction false} RecordLeadsBack(s: State, es: seq<Event>)
    requires s.armed.None? && forall e :: e in es ==> !e.Edit?
    ensures Lists(Disarmed(Run(s, es))) == Baseline(s, es)
  {
    hide UniqSorted, Armed, Disarmed, GroupCommands;
    if es == [] {
      NothingToDisarm(s);
    } else {
      var n := |es| - 1;
      assert es[n] in es && forall e :: e in es[..n] ==> e in es;
      RecordLeadsBack(s, es[..n]);
      var t, e := Run(s, es[..n]), es[n];
      DisarmIsFinal(t);
      if Arms(e) {
        var g := e.action.group.value;
        var d := if e.action.durationMs.Some? then e.action.durationMs.value else DEFAULT_DURATION_MS;
        DisarmUndoesArm(t, g, e.now, e.now + d);
        CanonicalEntries(t.allow);
        CanonicalEntries(t.deny);
      }
    }
  }

  /** Each arm happens while disarmed. */
  ghost predicate Alternates(s: State, es: seq<Event>) {
    forall i :: 0 <= i < |es| && Arms(es[i]) ==> Run(s, es[..i]).armed.None?
  }

  /** A run that never arms twice in a row always returns to where it began: whenever it is
      disarmed, and from wherever it is armed, both lists are the initial ones. */
  lemma {:induction false} AlternatingRunsReturn(s: State, es: seq<Event>)
    requires s.armed.None? && (forall e :: e in es ==> !e.Edit?) && Alternates(s, es)
    ensures Baseline(s, es) == Lists(s)
    ensures Run(s, es).armed.None? ==> Lists(Run(s, es)) == Lists(s)
  {
    hide UniqSorted, Armed, Disarmed, GroupCommands;
    if es != [] {
      var n := |es| - 1;
      assert forall e :: e in es[..n] ==> e in es;
      forall i | 0 <= i < n && Arms(es[..n][i]) ensures Run(s, es[..n][..i]).armed.None? {
        assert es[..n][..i] == es[..i];
      }
      AlternatingRunsReturn(s, es[..n]);
    }
    RecordLeadsBack(s, es);
    if Run(s, es).armed.None? { NothingToDisarm(Run(s, es)); }
  }

  // ---------- from an arm to its expiry ----------

  lemma {:induction false} AllTrimmed()
    ensures forall c :: c in CAMERA_COMMANDS + SCREEN_COMMANDS + WRITE_COMMANDS ==> Trimmed(c) && c != []
  {}

  /** The commands of each group. */
  lemma {:induction false} GroupsExactly(g: Group, c: string)
    ensures c in GroupCommands(g) <==>
      || (g in {Camera, All} && c in {"camera.snap", "camera.clip"})
      || (g in {Screen, All} && c == "screen.record")
      || (g in {Writes, All} && c in {"calendar.add", "contacts.add", "reminders.add", "sms.send"})
  {
    AllTrimmed();
    hide Trim, UniqSorted;
    CleanListNames(CAMERA_COMMANDS);
    CleanListNames(SCREEN_COMMANDS);
    CleanListNames(WRITE_COMMANDS);
    CleanListNames(CAMERA_COMMANDS + SCREEN_COMMANDS + WRITE_COMMANDS);
  }

  /** The chat may change what the phone allows. */
  ghost predicate MayChange(channel: string, scopes: seq<string>) {
    channel == "webchat" ==> "operator.admin" in scopes
  }

  /** Nothing that concerns an arm until it expires: earlier ticks, reports, commands without
      permission, arms without a group. */
  ghost predicate Quiet(e: Event, until: int) {
    match e
    case Tick(now) => now < until
    case Command(channel, scopes, action, _) =>
      action.Report? || !MayChange(channel, scopes) || (action.Arm? && action.group.None?)
    case Edit(_, _) => false
  }

  lemma {:induction false} RunFrom(s: State, e: Event, es: seq<Event>)
    ensures Run(s, [e] + es) == Run(Next(s, e), es)
  {
    hide Next;
    if es == [] {
      assert [e] + es == [e] && [e][..0] == [];
      assert Run(s, [e]) == Next(Run(s, []), e);
    } else {
      var n := |es| - 1;
      RunFrom(s, e, es[..n]);
      assert ([e] + es)[..n + 1] == [e] + es[..n] && ([e] + es)[n + 1] == es[n];
    }
  }

  lemma {:induction false} QuietKeeps(s: State, es: seq<Event>)
    requires s.armed.Some? && s.armed.value.expiresAtMs.Some?
    requires forall e :: e in es ==> Quiet(e, s.armed.value.expiresAtMs.value)
    ensures Run(s, es) == s
  {
    if es != [] {
      hide Armed, Disarmed;
      QuietKeeps(s, es[..|es| - 1]);
      assert Quiet(es[|es| - 1], s.armed.value.expiresAtMs.value);
    }
  }

  lemma {:induction false} ArmIsArmed(
      s: State, channel: string, scopes: seq<string>, g: Group, d: Option<int>, t: int)
    requires MayChange(channel, scopes)
    ensures Next(s, Command(channel, scopes, Arm(Some(g), d), t)) ==
            Armed(s, g, GroupCommands(g), t, t + if d.Some? then d.value else 600_000)
  {
    hide Armed, GroupCommands;
  }

  lemma {:induction false} ArmedRecord(s: State, g: Group, t: int, until: int)
    ensures var held := Armed(s, g, GroupCommands(g), t, until);
            && (forall c :: c in held.allow <==> c in Names(s.allow) || c in GroupCommands(g))
            && (forall c :: c in held.deny <==> c in Names(s.deny) && c !in GroupCommands(g))
            && held.armed.Some? && held.armed.value.V2? && held.armed.value.group == g
            && held.armed.value.armedAtMs == t && held.armed.value.armedCommands == GroupCommands(g)
            && held.armed.value.expiresAtMs == Some(until)
  {
    GroupCommandsAreCanonical(g);
    hide UniqSorted, GroupCommands, Names;
    ArmMovesExactlyTheCommands(s, g, GroupCommands(g), t, until);
  }

  lemma {:induction false} TickEnds(s: State, now: int)
    requires s.armed.Some? && s.armed.value.expiresAtMs.Some? && s.armed.value.expiresAtMs.value <= now
    ensures Next(s, Tick(now)) == Disarmed(s)
  {
    hide Disarmed;
  }

  lemma {:induction false} DisarmCommand(s: State, channel: string, scopes: seq<string>, now: int)
    requires MayChange(channel, scopes)
    ensures Next(s, Command(channel, scopes, Disarm, now)) == Disarmed(s)
  {
    hide Disarmed;
  }

  lemma {:induction false} RunOneMore(s: State, es: seq<Event>, e: Event)
    ensures Run(s, es + [e]) == Next(Run(s, es), e)
  {
    hide Next;
    assert (es + [e])[..|es|] == es;
  }

  /** A permitted arm at t for d, ten minutes unless given, holds until t + d: reports, refused
      commands and earlier ticks leave its commands allowed and not denied, and its record in
      place. The first tick at or past t + d, or a permitted disarm at any time, leaves no record
      and the lists from before the arm. */
  lemma {:induction false} ArmHoldsUntilExpiry(
      s: State, channel: string, scopes: seq<string>, g: Group, d: Option<int>, t: int, es: seq<Event>, last: int)
    requires MayChange(channel, scopes)
    requires var until := t + if d.Some? then d.value else 600_000;
             until <= last && forall e :: e in es ==> Quiet(e, until)
    ensures var arm := Command(channel, scopes, Arm(Some(g), d), t);
            var held := Run(s, [arm] + es);
            && (forall c :: c in held.allow <==> c in Names(s.allow) || c in GroupCommands(g))
            && (forall c :: c in held.deny <==> c in Names(s.deny) && c !in GroupCommands(g))
            && held.armed.Some? && held.armed.value.V2? && held.armed.value.group == g
            && held.armed.value.armedAtMs == t && held.armed.value.armedCommands == GroupCommands(g)
            && held.armed.value.expiresAtMs == Some(t + if d.Some? then d.value else 600_000)
            && Run(s, [arm] + es + [Tick(last)]) == State(UniqSorted(s.allow), UniqSorted(s.deny), None)
            && forall from, with, now :: MayChange(from, with) ==>
                 Run(s, [arm] + es + [Command(from, with, Disarm, now)]) == Run(s, [arm] + es + [Tick(last)])
  {
    hide Armed, Disarmed, UniqSorted, GroupCommands, Next, Run, Quiet, Names;
    var arm, until := Command(channel, scopes, Arm(Some(g), d), t), t + if d.Some? then d.value else 600_000;
    var held := Armed(s, g, GroupCommands(g), t, until);
    ArmIsArmed(s, channel, scopes, g, d, t);
    ArmedRecord(s, g, t, until);
    RunFrom(s, arm, es);
    QuietKeeps(held, es);
    RunOneMore(s, [arm] + es, Tick(last));
    TickEnds(held, last);
    forall from, with, now | MayChange(from, with)
      ensures Run(s, [arm] + es + [Command(from, with, Disarm, now)]) == Disarmed(held)
    {
      RunOneMore(s, [arm] + es, Command(from, with, Disarm, now));
      DisarmCommand(held, from, with, now);
    }
    DisarmUndoesArm(s, g, t, until);
  }
}
