/** What each step of the guards does to the entry, the mutex and the user that takes it, field by
    field.  `bump` is whether the guard is one of the bumping classes. */
module OplockSteps {
  import opened Oplock
  import opened Sequences
  import opened OplockGuards
  import opened OplockLaws

  function One(b: bool): nat {
    if b then 1 else 0
  }

  // A step that changes nothing but the user that takes it.
  predicate OnlyUser(s: State, t: State, i: nat)
    requires i < |s.users| == |t.users|
  {
    t == s.(users := s.users[i := t.users[i]])
  }

  // A step that changes nothing but that user, the use count and the mutex.
  predicate OnlyUse(s: State, t: State, i: nat)
    requires i < |s.users| == |t.users|
  {
    t == s.(users := s.users[i := t.users[i]], entry := s.entry.(inuse := t.entry.inuse), holder := t.holder)
  }

  // ---------------------------------------------------------------- //
  // Opening

  // A lock scope goes on to the mutex exactly if the object's pointer is the entry, which is its own and
  // not disposed; otherwise it is open without the lock.
  lemma ScopeBeginDoes(s: State, i: nat, bump: bool)
    requires MayAct(s, i, ScopeBegin(bump))
    ensures var u, t := s.users[i], Do(s, i, ScopeBegin(bump));
      && OnlyUser(s, t, i)
      && t.users[i] == if u.owner in s.linked && s.entry.ptr == Some(u.owner) && !s.entry.disposed
                       then User(u.owner, false, u.stack, Scoping(bump))
                       else User(u.owner, false, Push(Scope(bump, false, false), u.stack), Idle)
  {
  }

  // A conditional one keeps a lock that is held, and bumps it; else it does as a lock scope.
  lemma CondBeginDoes(s: State, i: nat, bump: bool)
    requires MayAct(s, i, CondBegin(bump))
    ensures var u, t := s.users[i], Do(s, i, CondBegin(bump));
      && OnlyUse(s, t, i) && t.holder == s.holder
      && t.entry.inuse == s.entry.inuse + One(u.owner in s.linked && u.held && bump)
      && t.users[i] ==
           if u.owner !in s.linked then User(u.owner, false, Push(Cond(bump, u.held, false), u.stack), Idle)
           else if u.held then User(u.owner, true, Push(Cond(bump, true, true), u.stack), Idle)
           else if s.entry.ptr == Some(u.owner) && !s.entry.disposed
           then User(u.owner, false, u.stack, Conding(bump))
           else User(u.owner, false, Push(Cond(bump, false, false), u.stack), Idle)
  {
  }

  // With the mutex, either has the lock exactly if the entry is still its object's and not disposed, and
  // bumps it then and only then.
  lemma TakeLockDoes(s: State, i: nat)
    requires MayAct(s, i, TakeLock) && s.users[i].pc != Reacquiring
    ensures var u, t := s.users[i], Do(s, i, TakeLock);
      var got := s.entry.ptr == Some(u.owner) && !s.entry.disposed;
      && OnlyUse(s, t, i)
      && t.entry.inuse == s.entry.inuse + One(got && u.pc.bump)
      && t.holder == (if got then Some(i) else None)
      && t.users[i] ==
           User(u.owner, got,
                Push(if u.pc.Scoping? then Scope(u.pc.bump, got, false) else Cond(u.pc.bump, false, got), u.stack),
                Idle)
  {
  }

  // ---------------------------------------------------------------- //
  // Closing

  lemma SetDisposeDoes(s: State, i: nat)
    requires MayAct(s, i, SetDispose)
    ensures var u, t := s.users[i], Do(s, i, SetDispose);
      var g := u.stack.top;
      && OnlyUser(s, t, i)
      && t.users[i] == User(u.owner, u.held, Push(Scope(g.bump, g.live, true), u.stack.rest), Idle)
  {
  }

  // The entry and the mutex after the end of a lock scope with the lock held: one use less for a bump,
  // and then, if disposal was asked for, the entry is nobody's or waits for its last use to end.
  lemma UnlockDoes(s: State, i: nat, bump: bool, dispose: bool)
    requires Inv(s) && i < |s.users| && s.users[i].held && (bump ==> s.entry.inuse > 0)
    ensures var o, t, left := s.users[i].owner, Unlock(s, i, bump, dispose), s.entry.inuse - One(bump);
      && t.users == s.users && t.owners == s.owners && t.holder == None
      && t.entry == (if !dispose then s.entry.(inuse := left)
                     else if left == 0 then Entry(0, None, false, s.entry.info, true)
                     else Entry(left, Some(o), true, Some(o), true))
      && t.linked == (if dispose && left == 0 then s.linked - {o} else s.linked)
      && t.disposals == (if dispose && left == 0 then s.disposals + [o] else s.disposals)
      && t.requested == (if dispose then s.requested + {o} else s.requested)
      && t.broadcasts == s.broadcasts + One(bump && s.entry.inuse == 2)
  {
    assert UserOk(s, i);
  }

  // A lock scope that ends, on leaving it or early, does that if it has the lock, and nothing otherwise;
  // released early, it stays open without the lock.
  lemma ScopeEndDoes(s: State, i: nat, a: Action)
    requires Inv(s) && MayAct(s, i, a) && (a.EarlyRelease? || (a.Leave? && s.users[i].stack.top.Scope?))
    ensures var u, t := s.users[i], Do(s, i, a);
      var g := u.stack.top;
      var early := Push(Scope(g.bump, false, g.dispose), u.stack.rest);
      && (u.held ==> (g.bump ==> s.entry.inuse > 0)
                     && OnlyUser(Unlock(s, i, g.bump, g.dispose), t, i)
                     && t.users[i] == User(u.owner, false, if a.Leave? then u.stack.rest else early, Idle))
      && (!u.held ==> OnlyUser(s, t, i)
                      && t.users[i] == User(u.owner, false, if a.Leave? then u.stack.rest else u.stack, Idle))
  {
    assert UserOk(s, i);
    BumpsWithin(s.users, i);
  }

  // A conditional scope gives up its own bump and a lock it took itself.
  lemma CondEndDoes(s: State, i: nat)
    requires Inv(s) && MayAct(s, i, Leave) && s.users[i].stack.top.Cond?
    ensures var u, t := s.users[i], Do(s, i, Leave);
      var g := u.stack.top;
      && (u.held && g.bump ==> s.entry.inuse > 0)
      && t.users == s.users[i := User(u.owner, u.held && g.initialHeld, u.stack.rest, Idle)]
      && t.entry == s.entry.(inuse := s.entry.inuse - One(u.held && g.bump))
      && t.holder == (if u.held && !g.initialHeld then None else s.holder)
      && t.broadcasts == s.broadcasts + One(u.held && g.bump && s.entry.inuse == 2)
      && t.linked == s.linked && t.owners == s.owners && t.requested == s.requested && t.disposals == s.disposals
  {
    assert UserOk(s, i);
    BumpsWithin(s.users, i);
  }

  // ---------------------------------------------------------------- //
  // Releasing for a while, and waiting

  lemma TempBeginDoes(s: State, i: nat)
    requires Inv(s) && MayAct(s, i, TempBegin)
    ensures var u, t := s.users[i], Do(s, i, TempBegin);
      OnlyUse(s, t, i) && t.entry == s.entry && t.holder == None
      && t.users[i] == User(u.owner, false, Push(Temp, u.stack), Idle)
  {
    assert UserOk(s, i);
  }

  // The lock is tried for again exactly if the entry is still the object's, disposed or not ...
  lemma TempEndDoes(s: State, i: nat)
    requires MayAct(s, i, TempEnd)
    ensures var u, t := s.users[i], Do(s, i, TempEnd);
      && OnlyUser(s, t, i)
      && (s.entry.ptr == Some(u.owner) ==> t.users[i] == u.(pc := Reacquiring))
      && (s.entry.ptr != Some(u.owner) ==> t.users[i] == User(u.owner, false, u.stack.rest, Idle))
  {
  }

  // ... and is back exactly if it is still so when the mutex is there.
  lemma ReacquireDoes(s: State, i: nat)
    requires MayAct(s, i, TakeLock) && s.users[i].pc == Reacquiring && s.users[i].stack.Push?
    ensures var u, t := s.users[i], Do(s, i, TakeLock);
      var got := s.entry.ptr == Some(u.owner);
      && OnlyUse(s, t, i) && t.entry == s.entry
      && t.holder == (if got then Some(i) else None)
      && t.users[i] == User(u.owner, got, u.stack.rest, Idle)
  {
  }

  // A wait bumps an entry that is not disposed, a wait for the last use bumps none; the mutex is free.
  lemma WaitBeginDoes(s: State, i: nat, onInuseOne: bool)
    requires MayAct(s, i, WaitBegin(onInuseOne))
    ensures var u, t := s.users[i], Do(s, i, WaitBegin(onInuseOne));
      var bumps := !onInuseOne && !s.entry.disposed;
      && OnlyUse(s, t, i)
      && t.entry.inuse == s.entry.inuse + One(bumps) && t.holder == None
      && t.users[i] == User(u.owner, true, Push(Wait(bumps), u.stack), Idle)
  {
  }

  lemma WaitEndDoes(s: State, i: nat)
    requires Inv(s) && MayAct(s, i, WaitEnd)
    ensures var u, t := s.users[i], Do(s, i, WaitEnd);
      && OnlyUse(s, t, i)
      && t.entry.inuse == s.entry.inuse - One(u.stack.top.bumped) && t.holder == Some(i)
      && t.users[i] == User(u.owner, true, u.stack.rest, Idle)
  {
    assert UserOk(s, i);
    BumpsWithin(s.users, i);
  }

  // ---------------------------------------------------------------- //
  // A new owner

  // The entry goes to a new owner exactly when its mutex is free and nobody needs it: it has no owner,
  // or the disposal of its owner is due.
  lemma AllocExactly(s: State, o: Owner)
    requires Inv(s) && o !in s.owners
    ensures MayAlloc(s, o) <==> s.holder == None && (s.entry.ptr == None || (s.entry.disposed && s.entry.inuse == 0))
  {
    if s.entry.ptr == None {
      NobodyWithoutOwner(s, s.users);
    }
  }

  // It is as new, its pointer the new owner's alone, and the old owner, if there is one, disposed.
  lemma AllocDoes(s: State, o: Owner)
    requires Inv(s) && MayAlloc(s, o)
    ensures var t := DoAlloc(s, o);
      && t.entry == Entry(0, Some(o), false, None, false) && t.linked == {o} && t.owners == s.owners + {o}
      && t.disposals == (if s.entry.ptr.Some? then s.disposals + [s.entry.ptr.value] else s.disposals)
      && t.users == s.users && t.holder == None && t.requested == s.requested && t.broadcasts == s.broadcasts
  {
  }
}
