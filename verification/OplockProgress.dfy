/** From every state the guards can lead to they can all be closed again: no guard waits for a mutex that
    is never freed, and no request for disposal is lost. */
module OplockProgress {
  import opened Sequences
  import opened OplockGuards
  import opened OplockLaws
  import opened OplockSteps
  import opened OplockPending

  // A user with nothing open, and one on its way there: what it does next, and how far it is.
  predicate Done(u: User) {
    !u.held && u.stack == Empty && u.pc == Idle
  }

  function Closing(u: User): Action {
    if u.pc != Idle then TakeLock
    else if u.stack == Empty then Leave
    else match u.stack.top
      case Temp => TempEnd
      case Wait(_) => WaitEnd
      case _ => Leave
  }

  function Left(u: User): nat {
    3 * Depth(u.stack) + match u.pc case Idle => 1 case Reacquiring => 0 case _ => 5
  }

  // The user can go on when nobody else has the mutex.
  predicate CanClose(s: State, i: nat) {
    && i < |s.users| && (s.holder == None || s.holder == Some(i))
    && (s.users[i].pc.Scoping? || s.users[i].pc.Conding? ==> Room(s))
  }

  lemma CloseStep(s: State, i: nat)
    requires Inv(s) && CanClose(s, i) && !Done(s.users[i])
    ensures var a := Closing(s.users[i]);
      && MayAct(s, i, a)
      && var t := Do(s, i, a);
        && Inv(t) && CanClose(t, i) && Left(t.users[i]) < Left(s.users[i])
        && t.owners == s.owners && s.requested <= t.requested
  {
    assert UserOk(s, i);
    NextKeeps(s, Act(i, Closing(s.users[i])));
  }

  // A user closes all its guards by itself.
  lemma {:induction false} Close(s: State, i: nat) returns (steps: seq<Step>)
    requires Inv(s) && CanClose(s, i)
    ensures Allowed(s, steps) && NoAlloc(steps)
    ensures var t := Run(s, steps);
      && Inv(t) && t.users == s.users[i := User(s.users[i].owner, false, Empty, Idle)] && t.holder == None
      && t.owners == s.owners && s.requested <= t.requested
    decreases Left(s.users[i])
  {
    assert UserOk(s, i);
    if Done(s.users[i]) {
      steps := [];
    } else {
      CloseStep(s, i);
      var step := Act(i, Closing(s.users[i]));
      OneStep(s, step);
      var rest := Close(Next(s, step), i);
      Then(s, [step], rest);
      steps := [step] + rest;
    }
  }

  predicate AllDone(s: State, n: nat) {
    forall i :: 0 <= i < |s.users| && i < n ==> Done(s.users[i])
  }

  // One user after the other, from user n on.
  lemma {:induction false} CloseFrom(s: State, n: nat) returns (steps: seq<Step>)
    requires Inv(s) && Room(s) && s.holder == None && n <= |s.users| && AllDone(s, n)
    ensures Allowed(s, steps) && NoAlloc(steps)
    ensures var t := Run(s, steps);
      && Inv(t) && AllDone(t, |t.users|) && t.holder == None && t.owners == s.owners && s.requested <= t.requested
    decreases |s.users| - n
  {
    if n == |s.users| {
      steps := [];
    } else {
      var first := Close(s, n);
      var t := Run(s, first);
      TotalPut(s.users, n, t.users[n]);
      var rest := CloseFrom(t, n + 1);
      Then(s, first, rest);
      steps := first + rest;
    }
  }

  // In every state with room in _inuse all users can close their guards; then the entry is out of use and
  // its mutex free.
  lemma AllCanClose(s: State) returns (steps: seq<Step>)
    requires Inv(s) && Room(s)
    ensures Allowed(s, steps) && NoAlloc(steps)
    ensures var t := Run(s, steps);
      && Inv(t) && AllDone(t, |t.users|) && t.holder == None && t.entry.inuse == 0
      && t.owners == s.owners && s.requested <= t.requested
  {
    var first := [];
    if s.holder.Some? {
      first := Close(s, s.holder.value);
      TotalPut(s.users, s.holder.value, Run(s, first).users[s.holder.value]);
    }
    var t := Run(s, first);
    var rest := CloseFrom(t, 0);
    Then(s, first, rest);
    steps := first + rest;
    NothingOpen(Run(s, steps).users);
  }

  // So after every run, whoever has asked for disposal is disposed in some continuation: all guards close
  // and, if the disposal is then still due, the entry goes to a new owner.
  lemma EveryRequestIsServed(s: State, steps: seq<Step>, o: Owner) returns (more: seq<Step>)
    requires Init(s) && Allowed(s, steps) && Room(Run(s, steps)) && o !in Run(s, steps).owners
    ensures Allowed(s, steps + more)
    ensures forall p :: p in Run(s, steps).requested ==> p in Run(s, steps + more).disposals
  {
    InitOk(s);
    RunKeeps(s, steps);
    var t := Run(s, steps);
    more := AllCanClose(t);
    var u := Run(t, more);
    Then(s, steps, more);
    if u.entry.disposed {
      AllocExactly(u, o);
      AllocDoes(u, o);
      OneMore(s, steps + more, u, Alloc(o));
      assert steps + more + [Alloc(o)] == steps + (more + [Alloc(o)]);
      more := more + [Alloc(o)];
    }
  }

  // ---------------------------------------------------------------- //
  // Undisturbed, every guard gives back what it took

  // A lock that nobody has is had by whoever opens a scope, conditional or not,
  lemma LockIsHad(s: State, i: nat, a: Action)
    requires Inv(s) && i < |s.users| && s.users[i].pc == Idle && !s.users[i].held && (a.ScopeBegin? || a.CondBegin?)
    requires s.holder == None && s.entry.ptr == Some(s.users[i].owner) && !s.entry.disposed && (a.bump ==> Room(s))
    ensures MayAct(s, i, a) && MayAct(Do(s, i, a), i, TakeLock)
    ensures var t, u := Do(Do(s, i, a), i, TakeLock), s.users[i];
      && t.holder == Some(i) && t.entry == s.entry.(inuse := s.entry.inuse + One(a.bump))
      && t.users[i] == User(u.owner, true, Push(if a.ScopeBegin? then Scope(a.bump, true, false)
                                                else Cond(a.bump, false, true), u.stack), Idle)
  {
    assert UserOk(s, i);
  }

  // and leaving the scope then restores everything.
  lemma ScopeRoundTrip(s: State, i: nat, a: Action)
    requires Inv(s) && i < |s.users| && s.users[i].pc == Idle && !s.users[i].held && (a.ScopeBegin? || a.CondBegin?)
    requires s.holder == None && s.entry.ptr == Some(s.users[i].owner) && !s.entry.disposed && (a.bump ==> Room(s))
    ensures var steps := [Act(i, a), Act(i, TakeLock), Act(i, Leave)];
      Allowed(s, steps) && Run(s, steps) == s.(broadcasts := s.broadcasts + One(a.bump && s.entry.inuse == 1))
  {
    LockIsHad(s, i, a);
    var s1 := Do(s, i, a);
    var s2 := Do(s1, i, TakeLock);
    OneStep(s, Act(i, a));
    OneMore(s, [Act(i, a)], s1, Act(i, TakeLock));
    OneMore(s, [Act(i, a)] + [Act(i, TakeLock)], s2, Act(i, Leave));
    assert [Act(i, a)] + [Act(i, TakeLock)] + [Act(i, Leave)] == [Act(i, a), Act(i, TakeLock), Act(i, Leave)];
    assert Do(s2, i, Leave).users == s.users;
  }

  // So does a conditional scope over a held lock,
  lemma CondRoundTrip(s: State, i: nat, bump: bool)
    requires Inv(s) && MayAct(s, i, CondBegin(bump)) && s.users[i].held
    ensures var t := Do(s, i, CondBegin(bump));
      && t.entry.inuse == s.entry.inuse + One(bump) && MayAct(t, i, Leave)
      && Do(t, i, Leave) == s.(broadcasts := s.broadcasts + One(bump && s.entry.inuse == 1))
  {
    assert UserOk(s, i);
    assert Do(Do(s, i, CondBegin(bump)), i, Leave).users == s.users;
  }

  // a lock released for a while,
  lemma ReleaseRoundTrip(s: State, i: nat)
    requires Inv(s) && MayAct(s, i, TempBegin)
    ensures Allowed(s, [Act(i, TempBegin), Act(i, TempEnd), Act(i, TakeLock)])
    ensures Run(s, [Act(i, TempBegin), Act(i, TempEnd), Act(i, TakeLock)]) == s
  {
    assert UserOk(s, i);
    var s1 := Do(s, i, TempBegin);
    var s2 := Do(s1, i, TempEnd);
    OneStep(s, Act(i, TempBegin));
    OneMore(s, [Act(i, TempBegin)], s1, Act(i, TempEnd));
    OneMore(s, [Act(i, TempBegin)] + [Act(i, TempEnd)], s2, Act(i, TakeLock));
    assert Do(s2, i, TakeLock).users == s.users;
    assert [Act(i, TempBegin)] + [Act(i, TempEnd)] + [Act(i, TakeLock)]
           == [Act(i, TempBegin), Act(i, TempEnd), Act(i, TakeLock)];
  }

  // and a wait.
  lemma WaitRoundTrip(s: State, i: nat, onInuseOne: bool)
    requires Inv(s) && MayAct(s, i, WaitBegin(onInuseOne))
    ensures var t := Do(s, i, WaitBegin(onInuseOne));
      t.holder == None && MayAct(t, i, WaitEnd) && Do(t, i, WaitEnd) == s
  {
    assert UserOk(s, i);
    assert Do(Do(s, i, WaitBegin(onInuseOne)), i, WaitEnd).users == s.users;
  }
}
