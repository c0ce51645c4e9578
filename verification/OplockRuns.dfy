/** The promises of the lock guards, over every run. */
module OplockRuns {
  import opened Oplock
  import opened Sequences
  import opened OplockGuards
  import opened OplockLaws
  import opened OplockSteps

  // ---------------------------------------------------------------- //
  // In every reachable state

  predicate HasLock(u: User) {
    u.held && !Waiting(u)
  }

  // One user at a time has the lock; _inuse counts the live bumps; an owner is disposed at most once,
  // exactly the owners that have asked for it are disposed or about to be, and only the entry's own
  // one can be about to be.
  lemma ReachableStates(s: State, steps: seq<Step>)
    requires Init(s) && Allowed(s, steps)
    ensures var t := Run(s, steps);
      && (forall i, j :: 0 <= i < j < |t.users| ==> !(HasLock(t.users[i]) && HasLock(t.users[j])))
      && t.entry.inuse == Total(t.users)
      && NoDup(t.disposals)
      && (forall o :: o in t.requested <==> o in t.disposals || (t.entry.disposed && Owned(t.entry, o)))
      && (t.entry.ptr == None ==> t.entry.inuse == 0)
  {
    InitOk(s);
    RunKeeps(s, steps);
    var t := Run(s, steps);
    forall i, j | 0 <= i < j < |t.users| ensures !(HasLock(t.users[i]) && HasLock(t.users[j])) {
      assert UserOk(t, i) && UserOk(t, j);
    }
    if t.entry.ptr == None {
      NobodyWithoutOwner(t, t.users);
    }
  }

  // Who has a live bump has an entry that is its own and not disposed, whatever has happened.
  lemma BumpedIsSafe(s: State, steps: seq<Step>, i: nat)
    requires Init(s) && Allowed(s, steps)
    requires i < |Run(s, steps).users| && Bumped(Run(s, steps).users[i])
    ensures var t := Run(s, steps);
      Owned(t.entry, t.users[i].owner) && t.users[i].owner in t.linked && t.users[i].owner !in t.disposals
  {
    InitOk(s);
    RunKeeps(s, steps);
    assert UserOk(Run(s, steps), i);
  }

  // The steps of the others.
  predicate OfOthers(steps: seq<Step>, i: nat) {
    forall k :: 0 <= k < |steps| ==> steps[k].Act? ==> steps[k].i != i
  }

  lemma {:induction false} OthersLeaveAlone(s: State, steps: seq<Step>, i: nat)
    requires Inv(s) && Allowed(s, steps) && OfOthers(steps, i) && i < |s.users|
    ensures Inv(Run(s, steps)) && |Run(s, steps).users| == |s.users| && Run(s, steps).users[i] == s.users[i]
    decreases |steps|
  {
    if steps != [] {
      var t := FirstStep(s, steps);
      NextKeeps(s, steps[0]);
      assert |t.users| == |s.users| && t.users[i] == s.users[i];
      OthersLeaveAlone(t, steps[1..], i);
    }
  }

  // The end of a TempRelease in a bumped scope, after any run: it finds the entry its own, and when it
  // gets the mutex the lock is held again.
  lemma TempReacquires(s: State, steps: seq<Step>, i: nat)
    requires Init(s) && Allowed(s, steps)
    requires i < |Run(s, steps).users| && Bumped(Run(s, steps).users[i])
    ensures var t := Run(s, steps);
      MayAct(t, i, TempEnd) ==> Do(t, i, TempEnd).users[i] == t.users[i].(pc := Reacquiring)
    ensures var t := Run(s, steps);
      t.users[i].pc == Reacquiring && MayAct(t, i, TakeLock) ==>
        var u, t' := t.users[i], Do(t, i, TakeLock);
        && u.stack.Push? && u.stack.top.Temp?
        && t'.users[i] == User(u.owner, true, u.stack.rest, Idle) && t'.holder == Some(i) && t'.entry == t.entry
  {
    InitOk(s);
    RunKeeps(s, steps);
    assert UserOk(Run(s, steps), i);
  }

  lemma {:induction false} OwnerStays(s: State, steps: seq<Step>, i: nat)
    requires Allowed(s, steps) && i < |s.users|
    ensures i < |Run(s, steps).users| && Run(s, steps).users[i].owner == s.users[i].owner
    decreases |steps|
  {
    if steps != [] {
      var t := FirstStep(s, steps);
      OwnerStays(t, steps[1..], i);
    }
  }

  // So a TempRelease in a bumped scope gives its user back as it was, whatever others do meanwhile and
  // whatever guards the user itself opens and leaves in between.
  lemma TempRestores(s: State, i: nat, steps: seq<Step>)
    requires Inv(s) && MayAct(s, i, TempBegin) && Bumped(s.users[i])
    requires Allowed(Do(s, i, TempBegin), steps)
    ensures var s1 := Do(s, i, TempBegin);
      var t := Run(s1, steps);
      && i < |t.users|
      && (t.users[i].stack == s1.users[i].stack && t.users[i].pc == Reacquiring && MayAct(t, i, TakeLock) ==>
            Do(t, i, TakeLock).users[i] == s.users[i])
  {
    var s1 := Do(s, i, TempBegin);
    NextKeeps(s, Act(i, TempBegin));
    RunKeeps(s1, steps);
    OwnerStays(s1, steps, i);
    assert UserOk(s, i) && UserOk(Run(s1, steps), i);
  }

  // A guard that disposes is never turned away by free_entry, so the mutex is released.
  lemma OnlyOwnersFree(s: State, i: nat)
    requires Inv(s) && i < |s.users| && s.users[i].held
    ensures forall e: Entry<Owner> :: e.ptr == s.entry.ptr ==> FreeEntry(e, s.users[i].owner, s.users[i].owner).released
  {
    assert UserOk(s, i);
  }

  // ---------------------------------------------------------------- //
  // When disposal happens

  // The end of a lock scope, on leaving it or early, with the lock held.
  predicate Closes(s: State, step: Step, dispose: bool) {
    && step.Act? && step.i < |s.users| && (step.action.Leave? || step.action.EarlyRelease?)
    && var u := s.users[step.i];
    u.held && u.stack.Push? && u.stack.top.Scope? && (dispose ==> u.stack.top.dispose)
  }

  // The bumps that stay when a scope is closed.
  function LeftInUse(s: State, step: Step): nat
    requires Closes(s, step, false)
  {
    if s.users[step.i].stack.top.bump then Debump(s.entry).inuse else s.entry.inuse
  }

  // An object is disposed in exactly two kinds of step: when its own guard that asks for disposal ends
  // with nobody using the entry any more, and when alloc_entry finds the entry due.
  lemma DisposalExactly(s: State, step: Step)
    requires Inv(s) && May(s, step)
    ensures var disposes := if step.Alloc? then s.entry.ptr.Some?
                            else Closes(s, step, true) && LeftInUse(s, step) == 0;
      && (Next(s, step).disposals != s.disposals <==> disposes)
      && (disposes ==> s.entry.ptr.Some? && Next(s, step).disposals == s.disposals + [s.entry.ptr.value]
                       && s.entry.ptr.value !in Next(s, step).linked)
  {
    match step
    case Alloc(o) => DisposedWhen(s.entry, o, o);
    case Act(i, a) =>
      assert UserOk(s, i);
      if Closes(s, step, true) {
        var u := s.users[i];
        DisposedWhen(if u.stack.top.bump then Debump(s.entry) else s.entry, u.owner, u.owner);
      }
  }

  // In every run alloc_entry can give the entry away exactly when nobody holds its mutex and it has no
  // owner or a disposal due.
  lemma TakenWhenFree(s: State, steps: seq<Step>, o: Owner)
    requires Init(s) && Allowed(s, steps) && o !in Run(s, steps).owners
    ensures var t := Run(s, steps);
      MayAlloc(t, o) <==> t.holder == None && (t.entry.ptr == None || (t.entry.disposed && t.entry.inuse == 0))
  {
    InitOk(s);
    RunKeeps(s, steps);
    AllocExactly(Run(s, steps), o);
  }

  // Disposal of an entry in use is not done when the use ends (include/RDIOplocks.h:58-60 says it is)
  // but left to alloc_entry, unless the guard that ends the use asks for disposal once more.
  lemma LastUse(s: State, step: Step)
    requires Inv(s) && May(s, step) && step.Act? && s.entry.disposed
    requires s.entry.inuse == 1 && Next(s, step).entry.inuse == 0
    ensures Next(s, step).disposals != s.disposals <==> Closes(s, step, true)
    ensures !Closes(s, step, true) ==> Pending(Next(s, step).entry)
  {
    assert UserOk(s, step.i);
    BumpsWithin(s.users, step.i);
  }

  // A disposed entry is bumped again in one way only: by a conditional scope over a lock that is held.
  // (include/RDIOplocks.h:53-54 wants it not to be bumped at all.)
  lemma BumpsOnceDisposed(s: State, step: Step)
    requires Inv(s) && May(s, step) && step.Act? && s.entry.disposed
    ensures Next(s, step).entry.inuse > s.entry.inuse <==> step.action == CondBegin(true) && s.users[step.i].held
  {
    assert UserOk(s, step.i);
  }

  // _inuseone is broadcast exactly when the count goes from 2 to 1 other than by the end of a wait.
  lemma BroadcastExactly(s: State, step: Step)
    requires Inv(s) && May(s, step)
    ensures var falls := s.entry.inuse == 2 && Next(s, step).entry.inuse == 1;
      Next(s, step).broadcasts == s.broadcasts + (if falls && (step.Act? ==> step.action != WaitEnd) then 1 else 0)
  {
    match step
    case Alloc(o) =>
    case Act(i, a) =>
      assert UserOk(s, i);
      BumpsWithin(s.users, i);
  }

  // ---------------------------------------------------------------- //
  // Runs that go wrong

  predicate Leads(s: State, step: Step, t: State) {
    May(s, step) && Next(s, step) == t
  }

  // Each step leads from one state to the next.
  predicate Visits(states: seq<State>, steps: seq<Step>) {
    |states| == |steps| + 1 && forall k :: 0 <= k < |steps| ==> Leads(states[k], steps[k], states[k + 1])
  }

  lemma {:induction false} VisitsRun(states: seq<State>, steps: seq<Step>)
    requires Visits(states, steps)
    ensures Allowed(states[0], steps) && Run(states[0], steps) == states[|steps|]
    decreases |steps|
  {
    if steps != [] {
      var n := |steps| - 1;
      VisitsRun(states[..n + 1], steps[..n]);
      assert Leads(states[n], steps[n], states[n + 1]);
      OneMore(states[0], steps[..n], states[n], steps[n]);
      assert steps[..n] + [steps[n]] == steps;
    }
  }

  // An entry of owner 0 and two users of that owner.
  function Pair(entry: Entry<Owner>, holder: Option<nat>, first: User, second: User): State {
    State(entry, holder, [first, second], {0}, {0}, {}, [], 0)
  }

  function Idler(held: bool, stack: Stack): User {
    User(0, held, stack, Idle)
  }

  function Used(inuse: nat): Entry<Owner> {
    Entry(inuse, Some(0), false, None, false)
  }

  function Once(bump: bool): nat {
    if bump then 1 else 0
  }

  // The first user has its lock released for a while.
  function Released(bump: bool): State {
    Pair(Used(Once(bump)), None, Idler(false, Push(Temp, Push(Scope(bump, true, false), Empty))), Idler(false, Empty))
  }

  lemma ReleasedReachable(bump: bool) returns (s: State, steps: seq<Step>)
    ensures Init(s) && Allowed(s, steps) && Run(s, steps) == Released(bump)
  {
    var other := Idler(false, Empty);
    s := Pair(Used(0), None, other, other);
    steps := [Act(0, ScopeBegin(bump)), Act(0, TakeLock), Act(0, TempBegin)];
    var s1 := Pair(Used(0), None, User(0, false, Empty, Scoping(bump)), other);
    var s2 := Pair(Used(Once(bump)), Some(0), Idler(true, Push(Scope(bump, true, false), Empty)), other);
    assert Leads(s, steps[0], s1) && Leads(s1, steps[1], s2) && Leads(s2, steps[2], Released(bump));
    VisitsRun([s, s1, s2, Released(bump)], steps);
  }

  // Then the second disposes the object in a scope like the first's: the entry is disposed at once if
  // nobody uses it.
  function Disposed(bump: bool): State {
    var s := Released(bump).(requested := {0});
    if bump then s.(entry := Entry(1, Some(0), true, Some(0), true), broadcasts := 1)
    else s.(entry := Entry(0, None, false, None, true), linked := {}, disposals := [0])
  }

  function Disposing(bump: bool): seq<Step> {
    [Act(1, ScopeBegin(bump)), Act(1, TakeLock), Act(1, SetDispose), Act(1, Leave)]
  }

  // The second user about to leave its scope, and having left it.
  function AboutToDispose(bump: bool): State {
    Pair(Used(2 * Once(bump)), Some(1), Released(bump).users[0], Idler(true, Push(Scope(bump, true, true), Empty)))
  }

  lemma DisposesOnLeaving(bump: bool)
    ensures Leads(AboutToDispose(bump), Act(1, Leave), Disposed(bump))
  {
  }

  lemma DisposesMeanwhile(bump: bool)
    ensures Allowed(Released(bump), Disposing(bump)) && Run(Released(bump), Disposing(bump)) == Disposed(bump)
  {
    var r, p, first := Released(bump), Disposing(bump), Released(bump).users[0];
    var r1 := Pair(r.entry, None, first, User(0, false, Empty, Scoping(bump)));
    var r2 := Pair(Used(2 * Once(bump)), Some(1), first, Idler(true, Push(Scope(bump, true, false), Empty)));
    assert Leads(r, p[0], r1) && Leads(r1, p[1], r2) && Leads(r2, p[2], AboutToDispose(bump));
    DisposesOnLeaving(bump);
    VisitsRun([r, r1, r2, AboutToDispose(bump), Disposed(bump)], p);
  }

  lemma DisposedReachable(bump: bool) returns (s: State, steps: seq<Step>)
    ensures Init(s) && Allowed(s, steps) && Run(s, steps) == Disposed(bump)
  {
    s, steps := ReleasedReachable(bump);
    DisposesMeanwhile(bump);
    Then(s, steps, Disposing(bump));
    steps := steps + Disposing(bump);
  }

  // One user has its bumped lock released while another disposes the object; when the first is done,
  // the entry is out of use and the object still not disposed.
  lemma DisposalLeftBehind() returns (s: State, steps: seq<Step>)
    ensures Init(s) && Allowed(s, steps)
    ensures var t := Run(s, steps); t.requested == {0} && Pending(t.entry) && t.disposals == []
  {
    s, steps := DisposedReachable(true);
    var d, scope := Disposed(true), Push(Scope(true, true, false), Empty);
    var p := [Act(0, TempEnd), Act(0, TakeLock), Act(0, Leave)];
    var d1 := d.(users := [User(0, false, Push(Temp, scope), Reacquiring), d.users[1]]);
    var d2 := d.(users := [Idler(true, scope), d.users[1]], holder := Some(0));
    var d3 := d.(users := [Idler(false, Empty), d.users[1]], entry := d.entry.(inuse := 0));
    assert Leads(d, p[0], d1) && Leads(d1, p[1], d2) && Leads(d2, p[2], d3);
    VisitsRun([d, d1, d2, d3], p);
    Then(s, steps, p);
    steps := steps + p;
  }

  // Without a bump the lock may not come back.
  lemma TempLosesLock() returns (s: State, steps: seq<Step>)
    ensures Init(s) && Allowed(s, steps) && MayAct(Run(s, steps), 0, TempEnd)
    ensures var t := Do(Run(s, steps), 0, TempEnd); t.users[0].pc == Idle && !t.users[0].held
  {
    s, steps := DisposedReachable(false);
  }
}
