/** An entry whose disposal is due, and the lock status around a conditional scope. */
module OplockPending {
  import opened Oplock
  import opened Sequences
  import opened OplockGuards
  import opened OplockLaws
  import opened OplockRuns

  // ---------------------------------------------------------------- //
  // alloc_entry expects that an entry, once it is disposed and out of use, stays so until it is given
  // to a new owner (lib/RDIOplocks.cc:381-387 logs an internal error otherwise)

  predicate HasTemp(st: Stack) {
    st.Push? && (st.top.Temp? || HasTemp(st.rest))
  }

  // A due entry nobody holds, and nobody of its owner has a lock released for a while.
  predicate Settled(s: State) {
    && Pending(s.entry) && s.holder == None
    && forall i :: 0 <= i < |s.users| && Owned(s.entry, s.users[i].owner) ==> !HasTemp(s.users[i].stack)
  }

  predicate NoAlloc(steps: seq<Step>) {
    forall k :: 0 <= k < |steps| ==> steps[k].Act?
  }

  lemma SettledStep(s: State, i: nat, a: Action)
    requires Inv(s) && Settled(s) && MayAct(s, i, a)
    ensures Do(s, i, a).entry == s.entry && Settled(Do(s, i, a))
  {
    var s' := Do(s, i, a);
    assert UserOk(s, i);
    BumpsWithin(s.users, i);
    assert Owned(s.entry, s'.users[i].owner) ==> !HasTemp(s'.users[i].stack);
  }

  // The expectation holds for a settled entry: no step but its allocation changes it.
  lemma {:induction false} SettledStays(s: State, steps: seq<Step>)
    requires Inv(s) && Settled(s) && Allowed(s, steps) && NoAlloc(steps)
    ensures Run(s, steps).entry == s.entry && Settled(Run(s, steps))
    decreases |steps|
  {
    if steps != [] {
      var t := FirstStep(s, steps);
      SettledStep(s, steps[0].i, steps[0].action);
      NextKeeps(s, steps[0]);
      SettledStays(t, steps[1..]);
    }
  }

  function Depth(st: Stack): nat {
    if st == Empty then 0 else 1 + Depth(st.rest)
  }

  // A user of the owner that has a lock released somewhere below can get back to it, lock the entry
  // and bump it.
  lemma {:induction false} Revive(s: State, i: nat) returns (steps: seq<Step>)
    requires Inv(s) && Pending(s.entry) && s.holder == None
    requires i < |s.users| && Owned(s.entry, s.users[i].owner) && HasTemp(s.users[i].stack)
    ensures Allowed(s, steps) && Run(s, steps).entry.inuse == 1
    ensures NoAlloc(steps)
    decreases if s.users[i].pc == Idle || s.users[i].pc == Reacquiring then 0 else 1, Depth(s.users[i].stack)
  {
    var u := s.users[i];
    assert UserOk(s, i);
    BumpsWithin(s.users, i);
    var step := Act(i, if u.pc != Idle then TakeLock else if u.stack.top.Temp? then TempEnd else Leave);
    var t := Next(s, step);
    NextKeeps(s, step);
    if u.pc == Reacquiring {
      OneStep(s, step);
      OneMore(s, [step], t, Act(i, CondBegin(true)));
      steps := [step] + [Act(i, CondBegin(true))];
    } else if u.pc == Idle && u.stack.top.Temp? {
      var again := Act(i, TakeLock);
      OneStep(s, step);
      OneMore(s, [step], t, again);
      OneMore(s, [step] + [again], Next(t, again), Act(i, CondBegin(true)));
      steps := [step] + [again] + [Act(i, CondBegin(true))];
    } else {
      var rest := Revive(t, i);
      OneStep(s, step);
      Then(s, [step], rest);
      steps := [step] + rest;
    }
  }

  // So a due entry that nobody holds stays as it is until it is allocated exactly when it is settled.
  lemma DueStaysExactly(s: State)
    requires Inv(s) && Pending(s.entry) && s.holder == None
    ensures Settled(s) <==>
      forall steps: seq<Step> :: Allowed(s, steps) && NoAlloc(steps) ==> Run(s, steps).entry == s.entry
  {
    if Settled(s) {
      forall steps: seq<Step> | Allowed(s, steps) && NoAlloc(steps)
        ensures Run(s, steps).entry == s.entry
      {
        SettledStays(s, steps);
      }
    } else {
      var i: nat :| i < |s.users| && Owned(s.entry, s.users[i].owner) && HasTemp(s.users[i].stack);
      var steps := Revive(s, i);
      assert Run(s, steps).entry != s.entry;
    }
  }

  // A run to a due entry that is not settled: of three users, one has a lock without a bump released,
  // one a lock with a bump, and the third disposes the object; then the second is done.
  function Three(inuse: nat, holder: Option<nat>, first: User, second: User, third: User): State {
    State(Used(inuse), holder, [first, second, third], {0}, {0}, {}, [], 0)
  }

  function ReleasedStack(bump: bool): Stack {
    Push(Temp, Push(Scope(bump, true, false), Empty))
  }

  function TwoReleased(): State {
    Three(1, None, Idler(false, ReleasedStack(false)), Idler(false, ReleasedStack(true)), Idler(false, Empty))
  }

  lemma OneReleased() returns (s: State, steps: seq<Step>)
    ensures Init(s) && Allowed(s, steps)
    ensures Run(s, steps) ==
      Three(0, None, Idler(false, ReleasedStack(false)), Idler(false, Empty), Idler(false, Empty))
  {
    var u := Idler(false, Empty);
    s := Three(0, None, u, u, u);
    steps := [Act(0, ScopeBegin(false)), Act(0, TakeLock), Act(0, TempBegin)];
    var s1 := Three(0, None, User(0, false, Empty, Scoping(false)), u, u);
    var s2 := Three(0, Some(0), Idler(true, Push(Scope(false, true, false), Empty)), u, u);
    var s3 := Three(0, None, Idler(false, ReleasedStack(false)), u, u);
    assert Leads(s, steps[0], s1) && Leads(s1, steps[1], s2) && Leads(s2, steps[2], s3);
    VisitsRun([s, s1, s2, s3], steps);
  }

  lemma TwoReleasedReachable() returns (s: State, steps: seq<Step>)
    ensures Init(s) && Allowed(s, steps) && Run(s, steps) == TwoReleased()
  {
    s, steps := OneReleased();
    var u, first := Idler(false, Empty), Idler(false, ReleasedStack(false));
    var p := [Act(1, ScopeBegin(true)), Act(1, TakeLock), Act(1, TempBegin)];
    var r := Three(0, None, first, u, u);
    var r1 := Three(0, None, first, User(0, false, Empty, Scoping(true)), u);
    var r2 := Three(1, Some(1), first, Idler(true, Push(Scope(true, true, false), Empty)), u);
    assert Leads(r, p[0], r1) && Leads(r1, p[1], r2) && Leads(r2, p[2], TwoReleased());
    VisitsRun([r, r1, r2, TwoReleased()], p);
    Then(s, steps, p);
    steps := steps + p;
  }

  function TwoDisposed(): State {
    TwoReleased().(entry := Entry(1, Some(0), true, Some(0), true), requested := {0})
  }

  lemma ThirdDisposes() returns (steps: seq<Step>)
    ensures Allowed(TwoReleased(), steps) && Run(TwoReleased(), steps) == TwoDisposed()
  {
    var r := TwoReleased();
    steps := [Act(2, ScopeBegin(false)), Act(2, TakeLock), Act(2, SetDispose), Act(2, Leave)];
    var r1 := r.(users := r.users[2 := User(0, false, Empty, Scoping(false))]);
    var r2 := r.(users := r.users[2 := Idler(true, Push(Scope(false, true, false), Empty))], holder := Some(2));
    var r3 := r2.(users := r.users[2 := Idler(true, Push(Scope(false, true, true), Empty))]);
    assert Leads(r, steps[0], r1) && Leads(r1, steps[1], r2);
    assert Leads(r2, steps[2], r3) && Leads(r3, steps[3], TwoDisposed());
    VisitsRun([r, r1, r2, r3, TwoDisposed()], steps);
  }

  lemma TwoDisposedReachable() returns (s: State, steps: seq<Step>)
    ensures Init(s) && Allowed(s, steps) && Run(s, steps) == TwoDisposed()
  {
    s, steps := TwoReleasedReachable();
    var p := ThirdDisposes();
    Then(s, steps, p);
    steps := steps + p;
  }

  lemma UnsettledReachable() returns (s: State, steps: seq<Step>)
    ensures Init(s) && Allowed(s, steps)
    ensures var t := Run(s, steps); Inv(t) && Pending(t.entry) && t.holder == None && !Settled(t)
  {
    s, steps := TwoDisposedReachable();
    var d, scope := TwoDisposed(), Push(Scope(true, true, false), Empty);
    var p := [Act(1, TempEnd), Act(1, TakeLock), Act(1, Leave)];
    var d1 := d.(users := d.users[1 := User(0, false, Push(Temp, scope), Reacquiring)]);
    var d2 := d.(users := d.users[1 := Idler(true, scope)], holder := Some(1));
    var d3 := d.(users := d.users[1 := Idler(false, Empty)], entry := d.entry.(inuse := 0));
    assert Leads(d, p[0], d1) && Leads(d1, p[1], d2) && Leads(d2, p[2], d3);
    VisitsRun([d, d1, d2, d3], p);
    Then(s, steps, p);
    steps := steps + p;
    InitOk(s);
    RunKeeps(s, steps);
    assert HasTemp(d3.users[0].stack);
  }

  // ---------------------------------------------------------------- //
  // The lock status before a COND scope is the one after it (include/RDIOplocksMacros.h:160-165)

  // Nothing but conditional scopes and waits above a conditional scope that found the lock held.
  predicate Over(st: Stack, base: Stack) {
    st == base || (st.Push? && ((st.top.Cond? && st.top.initialHeld) || st.top.Wait?) && Over(st.rest, base))
  }

  predicate FoundHeld(base: Stack) {
    base.Push? && base.top.Cond? && base.top.initialHeld
  }

  // User i neither releases the lock for a while nor leaves the scope.
  predicate Inside(s: State, steps: seq<Step>, i: nat, base: Stack)
    decreases |steps|
  {
    steps == [] ||
    (&& i < |s.users|
     && steps[0] != Act(i, TempBegin)
     && (steps[0] == Act(i, Leave) ==> s.users[i].stack != base)
     && Inside(After(s, steps[0]), steps[1..], i, base))
  }

  lemma StaysHeldStep(s: State, step: Step, i: nat, base: Stack)
    requires Inv(s) && May(s, step) && i < |s.users|
    requires FoundHeld(base) && s.users[i].held && s.users[i].pc == Idle && Over(s.users[i].stack, base)
    requires step != Act(i, TempBegin) && (step == Act(i, Leave) ==> s.users[i].stack != base)
    ensures var u := Next(s, step).users[i]; u.held && u.pc == Idle && Over(u.stack, base)
  {
    assert UserOk(s, i);
  }

  lemma {:induction false} StaysHeld(s: State, steps: seq<Step>, i: nat, base: Stack)
    requires Inv(s) && Allowed(s, steps) && Inside(s, steps, i, base) && i < |s.users|
    requires FoundHeld(base) && s.users[i].held && s.users[i].pc == Idle && Over(s.users[i].stack, base)
    ensures var t := Run(s, steps); Inv(t) && i < |t.users| && t.users[i].held && Over(t.users[i].stack, base)
    decreases |steps|
  {
    if steps != [] {
      var t := FirstStep(s, steps);
      NextKeeps(s, steps[0]);
      StaysHeldStep(s, steps[0], i, base);
      StaysHeld(t, steps[1..], i, base);
    }
  }

  // A conditional scope opened over a held lock leaves it held, whatever others do meanwhile.
  lemma CondKeepsHeld(s: State, i: nat, bump: bool, steps: seq<Step>)
    requires Inv(s) && MayAct(s, i, CondBegin(bump)) && s.users[i].held
    requires var s1 := Do(s, i, CondBegin(bump)); Allowed(s1, steps) && Inside(s1, steps, i, s1.users[i].stack)
    ensures var t := Run(Do(s, i, CondBegin(bump)), steps);
      && i < |t.users|
      && (t.users[i].stack == Do(s, i, CondBegin(bump)).users[i].stack && MayAct(t, i, Leave) ==>
          Do(t, i, Leave).users[i] == s.users[i])
  {
    var s1 := Do(s, i, CondBegin(bump));
    NextKeeps(s, Act(i, CondBegin(bump)));
    assert UserOk(s, i) && UserOk(s1, i);
    StaysHeld(s1, steps, i, s1.users[i].stack);
    var t := Run(s1, steps);
    assert UserOk(t, i);
    OwnerStays(s1, steps, i);
  }
}
