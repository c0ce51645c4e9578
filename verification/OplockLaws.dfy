/** What holds in every run of the guards over an entry, however the users' steps interleave. */
module OplockLaws {
  import opened Oplock
  import opened Sequences
  import opened OplockGuards

  // ---------------------------------------------------------------- //
  // Counting bumps

  lemma {:induction false} BumpsWithin(users: seq<User>, i: nat)
    requires i < |users|
    ensures BumpsOf(users[i].stack) <= Total(users)
  {
    if i < |users| - 1 {
      BumpsWithin(users[..|users| - 1], i);
    }
  }

  lemma {:induction false} TotalPut(users: seq<User>, i: nat, u: User)
    requires i < |users|
    ensures Total(users[i := u]) == Total(users) - BumpsOf(users[i].stack) + BumpsOf(u.stack)
  {
    var n := |users| - 1;
    if i < n {
      assert users[i := u][..n] == users[..n][i := u];
      TotalPut(users[..n], i, u);
    } else {
      assert users[i := u][..n] == users[..n];
    }
  }

  lemma {:induction false} NothingOpen(users: seq<User>)
    requires forall i :: 0 <= i < |users| ==> users[i].stack == Empty
    ensures Total(users) == 0
  {
    if users != [] {
      NothingOpen(users[..|users| - 1]);
    }
  }

  // ---------------------------------------------------------------- //
  // The invariant

  // Whether a user with this stack has the lock, if nothing has failed since the guards were opened.
  predicate Level(st: Stack) {
    match st
    case Empty => false
    case Push(Scope(_, live, _), _) => live
    case Push(Cond(_, _, live), _) => live
    case Push(Temp, _) => false
    case Push(Wait(_), _) => true
  }

  // A Scope is not opened over a lock a bump protects; a Cond finds the lock held only where it can
  // be, and surely where a bump protects it; a lock released for a while or waited on was held.
  predicate WellNested(st: Stack) {
    match st
    case Empty => true
    case Push(g, rest) =>
      && WellNested(rest) && !(rest.Push? && rest.top.Wait?)
      && match g
         case Scope(_, _, _) => !(Level(rest) && BumpsOf(rest) > 0)
         case Cond(_, initialHeld, live) =>
           && (initialHeld ==> Level(rest) && live)
           && (Level(rest) && BumpsOf(rest) > 0 ==> initialHeld)
         case Temp => Level(rest)
         case Wait(_) => Level(rest) && BumpsOf(rest) > 0
  }

  // What a user knows of itself: a bump keeps the lock status what the nesting says it is.
  predicate Consistent(u: User) {
    && WellNested(u.stack)
    && (u.held ==> Level(u.stack))
    && (Level(u.stack) && Bumped(u) ==> u.held)
    && (u.pc == Reacquiring ==> u.stack.Push? && u.stack.top.Temp?)
    && (u.pc.Scoping? || u.pc.Conding? ==> !u.held && !Waiting(u))
  }

  // The mutex is held by the one user that believes to have it and does not wait; a user that has the
  // lock or a live bump owns the entry.
  predicate UserOk(s: State, i: nat)
    requires i < |s.users|
  {
    var u := s.users[i];
    && Consistent(u)
    && (s.holder == Some(i) <==> u.held && !Waiting(u))
    && (u.held || Bumped(u) ==> Owned(s.entry, u.owner))
  }

  predicate UsersOk(s: State) {
    forall i: nat :: i < |s.users| ==> UserOk(s, i)
  }

  predicate EntryOk(s: State) {
    var e := s.entry;
    && e.inuse == Total(s.users) < INUSE_LIMIT
    && (s.holder.Some? ==> s.holder.value < |s.users|)
    && (e.ptr == None ==> !e.disposed && e.free)
    && (e.disposed ==> e.free && e.info == e.ptr)
  }

  // Who has been disposed, and who is to be.
  ghost predicate HistoryOk(s: State) {
    && (forall o :: o in s.linked <==> Owned(s.entry, o))
    && (forall o :: Owned(s.entry, o) ==> o in s.owners && o !in s.disposals)
    && (forall o :: o in s.disposals ==> o in s.owners)
    && NoDup(s.disposals)
    && (forall o :: o in s.requested <==> o in s.disposals || (s.entry.disposed && Owned(s.entry, o)))
  }

  ghost predicate Inv(s: State) {
    UsersOk(s) && EntryOk(s) && HistoryOk(s)
  }

  lemma InitOk(s: State)
    requires Init(s)
    ensures Inv(s)
  {
    NothingOpen(s.users);
  }

  // Nobody but i has anything to do with an entry out of use whose mutex is i's or nobody's.
  lemma Unclaimed(s: State, i: nat, j: nat)
    requires j < |s.users| && UserOk(s, j) && j != i && (s.holder == None || s.holder == Some(i))
    requires Total(s.users) == (if i < |s.users| then BumpsOf(s.users[i].stack) else 0)
    ensures !s.users[j].held && !Bumped(s.users[j])
  {
    var u := s.users[j];
    if i < |s.users| {
      TotalPut(s.users, i, s.users[i].(stack := Empty));
      BumpsWithin(s.users[i := s.users[i].(stack := Empty)], j);
    } else {
      BumpsWithin(s.users, j);
    }
  }

  // An entry without owner is out of use.
  lemma {:induction false} NobodyWithoutOwner(s: State, users: seq<User>)
    requires UsersOk(s) && s.entry.ptr == None && users <= s.users
    ensures Total(users) == 0
  {
    if users != [] {
      assert UserOk(s, |users| - 1);
      NobodyWithoutOwner(s, users[..|users| - 1]);
    }
  }

  // A step of user i leaves the others as they should be, if it takes or frees the mutex as its own
  // and changes the owner only of an entry out of use.
  lemma OthersOk(s: State, s': State, i: nat)
    requires UsersOk(s) && i < |s.users| == |s'.users| && s'.users == s.users[i := s'.users[i]]
    requires s'.holder == s.holder || (s.holder in {None, Some(i)} && s'.holder in {None, Some(i)})
    requires s'.entry.ptr == s.entry.ptr || (s.holder == Some(i) && Total(s.users) == BumpsOf(s.users[i].stack))
    requires UserOk(s', i)
    ensures UsersOk(s')
  {
    forall j: nat | j < |s'.users| && j != i ensures UserOk(s', j) {
      assert UserOk(s, j) && s'.users[j] == s.users[j];
      if s'.entry.ptr != s.entry.ptr {
        Unclaimed(s, i, j);
      }
    }
  }

  // ---------------------------------------------------------------- //
  // Every step keeps it

  lemma OpeningUser(s: State, i: nat, a: Action)
    requires Inv(s) && MayAct(s, i, a) && (a.ScopeBegin? || a.CondBegin? || a.TempBegin? || a.WaitBegin?)
    ensures UserOk(Do(s, i, a), i)
  {
    assert UserOk(s, i);
  }

  lemma ScopeBeginKeeps(s: State, i: nat, bump: bool)
    requires Inv(s) && MayAct(s, i, ScopeBegin(bump))
    ensures Inv(Do(s, i, ScopeBegin(bump)))
  {
    var s' := Do(s, i, ScopeBegin(bump));
    assert UserOk(s, i);
    TotalPut(s.users, i, s'.users[i]);
    OpeningUser(s, i, ScopeBegin(bump));
    OthersOk(s, s', i);
  }

  lemma CondBeginKeeps(s: State, i: nat, bump: bool)
    requires Inv(s) && MayAct(s, i, CondBegin(bump))
    ensures Inv(Do(s, i, CondBegin(bump)))
  {
    var s' := Do(s, i, CondBegin(bump));
    assert UserOk(s, i);
    TotalPut(s.users, i, s'.users[i]);
    OpeningUser(s, i, CondBegin(bump));
    OthersOk(s, s', i);
  }

  lemma ReleaseKeeps(s: State, i: nat, a: Action)
    requires Inv(s) && MayAct(s, i, a) && (a.TempBegin? || a.WaitBegin?)
    ensures Inv(Do(s, i, a))
  {
    var s' := Do(s, i, a);
    assert UserOk(s, i);
    TotalPut(s.users, i, s'.users[i]);
    OpeningUser(s, i, a);
    OthersOk(s, s', i);
  }

  lemma TakeLockUser(s: State, i: nat)
    requires Inv(s) && MayAct(s, i, TakeLock)
    ensures UserOk(Do(s, i, TakeLock), i)
  {
    assert UserOk(s, i);
  }

  // A bump that is made is one more use.
  lemma TakeLockBumps(s: State, i: nat)
    requires MayAct(s, i, TakeLock) && Consistent(s.users[i]) && s.entry.inuse < INUSE_LIMIT
    ensures var t := Do(s, i, TakeLock);
      && t.entry.inuse < INUSE_LIMIT
      && t.entry.inuse - s.entry.inuse == BumpsOf(t.users[i].stack) - BumpsOf(s.users[i].stack)
      && t.entry == s.entry.(inuse := t.entry.inuse)
      && (t.holder.Some? ==> t.holder == Some(i))
  {
  }

  lemma TakeLockEntry(s: State, i: nat)
    requires EntryOk(s) && MayAct(s, i, TakeLock) && Consistent(s.users[i])
    ensures EntryOk(Do(s, i, TakeLock))
  {
    var t := Do(s, i, TakeLock);
    TakeLockBumps(s, i);
    TotalPut(s.users, i, t.users[i]);
    assert t.users == s.users[i := t.users[i]];
  }

  lemma TakeLockHistory(s: State, i: nat)
    requires HistoryOk(s) && MayAct(s, i, TakeLock)
    ensures HistoryOk(Do(s, i, TakeLock))
  {
    var e, e' := s.entry, Do(s, i, TakeLock).entry;
    assert e'.ptr == e.ptr && e'.disposed == e.disposed;
  }

  lemma TakeLockKeeps(s: State, i: nat)
    requires Inv(s) && MayAct(s, i, TakeLock)
    ensures Inv(Do(s, i, TakeLock))
  {
    assert UserOk(s, i);
    TakeLockUser(s, i);
    TakeLockEntry(s, i);
    TakeLockHistory(s, i);
    OthersOk(s, Do(s, i, TakeLock), i);
  }

  lemma TempEndKeeps(s: State, i: nat)
    requires Inv(s) && MayAct(s, i, TempEnd)
    ensures Inv(Do(s, i, TempEnd))
  {
    var s' := Do(s, i, TempEnd);
    assert UserOk(s, i);
    TotalPut(s.users, i, s'.users[i]);
    assert UserOk(s', i);
    OthersOk(s, s', i);
  }

  lemma SetDisposeKeeps(s: State, i: nat)
    requires Inv(s) && MayAct(s, i, SetDispose)
    ensures Inv(Do(s, i, SetDispose))
  {
    var s' := Do(s, i, SetDispose);
    assert UserOk(s, i);
    TotalPut(s.users, i, s'.users[i]);
    assert UserOk(s', i);
    OthersOk(s, s', i);
  }

  lemma WaitEndKeeps(s: State, i: nat)
    requires Inv(s) && MayAct(s, i, WaitEnd)
    ensures Inv(Do(s, i, WaitEnd))
  {
    var s' := Do(s, i, WaitEnd);
    assert UserOk(s, i);
    BumpsWithin(s.users, i);
    TotalPut(s.users, i, s'.users[i]);
    assert UserOk(s', i);
    OthersOk(s, s', i);
  }

  // The end of a scope whose lock is held: free_entry finds its caller the owner.
  lemma UnlockOk(s: State, i: nat, bump: bool, dispose: bool, u': User)
    requires Inv(s) && i < |s.users| && s.users[i].held && !Waiting(s.users[i])
    requires Consistent(u') && !u'.held && u'.owner == s.users[i].owner
    requires BumpsOf(s.users[i].stack) == BumpsOf(u'.stack) + (if bump then 1 else 0)
    ensures Inv(Put(Unlock(s, i, bump, dispose), i, u'))
  {
    var s' := Put(Unlock(s, i, bump, dispose), i, u');
    assert UserOk(s, i);
    BumpsWithin(s.users, i);
    TotalPut(s.users, i, u');
    assert UserOk(s', i);
    OthersOk(s, s', i);
  }

  lemma LeaveCondKeeps(s: State, i: nat)
    requires Inv(s) && MayAct(s, i, Leave) && s.users[i].stack.top.Cond?
    ensures Inv(Do(s, i, Leave))
  {
    var s' := Do(s, i, Leave);
    var u, g := s.users[i], s.users[i].stack.top;
    assert UserOk(s, i);
    if u.held && !g.initialHeld {
      UnlockOk(s, i, g.bump, false, s'.users[i]);
    } else {
      BumpsWithin(s.users, i);
      TotalPut(s.users, i, s'.users[i]);
      assert UserOk(s', i);
      OthersOk(s, s', i);
    }
  }

  lemma LeaveScopeKeeps(s: State, i: nat, a: Action)
    requires Inv(s) && MayAct(s, i, a) && (a.Leave? || a.EarlyRelease?) && s.users[i].stack.top.Scope?
    ensures Inv(Do(s, i, a))
  {
    var s' := Do(s, i, a);
    var u, g := s.users[i], s.users[i].stack.top;
    assert UserOk(s, i);
    if u.held {
      UnlockOk(s, i, g.bump, g.dispose, s'.users[i]);
    } else {
      TotalPut(s.users, i, s'.users[i]);
      assert UserOk(s', i);
      OthersOk(s, s', i);
    }
  }

  lemma AllocKeeps(s: State, o: Owner)
    requires Inv(s) && MayAlloc(s, o)
    ensures Inv(DoAlloc(s, o))
  {
    var s' := DoAlloc(s, o);
    forall j: nat | j < |s.users| ensures UserOk(s', j) {
      assert UserOk(s, j);
      Unclaimed(s, |s.users|, j);
    }
  }

  lemma NextKeeps(s: State, step: Step)
    requires Inv(s) && May(s, step)
    ensures Inv(Next(s, step))
  {
    match step
    case Alloc(o) => AllocKeeps(s, o);
    case Act(i, a) =>
      match a {
        case TakeLock => TakeLockKeeps(s, i);
        case SetDispose => SetDisposeKeeps(s, i);
        case TempEnd => TempEndKeeps(s, i);
        case WaitEnd => WaitEndKeeps(s, i);
        case Leave => if s.users[i].stack.top.Cond? { LeaveCondKeeps(s, i); } else { LeaveScopeKeeps(s, i, a); }
        case EarlyRelease => LeaveScopeKeeps(s, i, a);
        case TempBegin => ReleaseKeeps(s, i, a);
        case WaitBegin(_) => ReleaseKeeps(s, i, a);
        case ScopeBegin(bump) => ScopeBeginKeeps(s, i, bump);
        case CondBegin(bump) => CondBeginKeeps(s, i, bump);
      }
  }

  lemma {:induction false} RunKeeps(s: State, steps: seq<Step>)
    requires Inv(s) && Allowed(s, steps)
    ensures Inv(Run(s, steps))
    decreases |steps|
  {
    if steps != [] {
      var t := FirstStep(s, steps);
      NextKeeps(s, steps[0]);
      RunKeeps(t, steps[1..]);
    }
  }
}
