/** The guard classes run the steps of OplockGuards: where the entry, the `held` location and the
    object's pointer are as a state says, they are as the state after the step says when the call ends.
    An owner is the address of its pointer. */
module OplockRefinement {
  import Oplock
  import opened Sequences
  import opened OplockEntry
  import opened OplockGuards
  import opened OplockLaws
  import opened OplockScopes

  // ---------------------------------------------------------------- //
  // What the objects say

  ghost function Address(o: Option<Slot>): Option<Owner> {
    if o.Some? then Some(o.value.address) else None
  }

  ghost function Abstract(e: Oplock.Entry<Slot>): Oplock.Entry<Owner> {
    Oplock.Entry(e.inuse, Address(e.ptr), e.disposed, Address(e.info), e.free)
  }

  ghost predicate ShowsEntry(e: OplockEntry.Entry, s: State)
    reads e
  {
    s.entry == Abstract(e.Value()) && (s.holder.Some? <==> e.locked)
  }

  // The entry, and what user i knows of it; two objects are not at one address.
  ghost predicate Shows(e: OplockEntry.Entry, optr: Slot, held: Held, s: State, i: nat)
    reads e, optr, held
  {
    && ShowsEntry(e, s)
    && i < |s.users| && s.users[i].owner == optr.address && s.users[i].held == held.held
    && (optr.oplockptr == null || optr.oplockptr == e) && (optr.oplockptr == e <==> optr.address in s.linked)
    && (e.ptr != null && e.ptr.address == optr.address ==> e.ptr == optr)
  }

  // The object of a guard on the user's stack; one that has had the lock has the entry.
  ghost predicate IsScope(e: OplockEntry.Entry, g: ScopeLock, guard: Guard)
    reads g
  {
    && !g.waiting && (g.entry == null || g.entry == e)
    && guard.Scope? && guard.bump == g.bump && (guard.live ==> g.entry == e)
    && (guard.dispose <==> g.disposeInfo != null) && (guard.dispose ==> g.disposeInfo == g.optr)
  }

  ghost predicate IsCond(e: OplockEntry.Entry, g: CondLock, guard: Guard)
    reads g
  {
    && !g.waiting && (g.entry == null || g.entry == e)
    && guard.Cond? && guard.bump == g.bump && guard.initialHeld == g.initialHeld && (guard.live ==> g.entry == e)
  }

  // ---------------------------------------------------------------- //
  // Lock scopes

  method ScopeBegins(ghost e: OplockEntry.Entry, optr: Slot, held: Held, bump: bool, ghost s: State, ghost i: nat)
    returns (g: ScopeLock, ghost t: State)
    requires Shows(e, optr, held, s, i) && MayAct(s, i, ScopeBegin(bump))
    modifies held
    ensures t == Do(s, i, ScopeBegin(bump)) && Shows(e, optr, held, t, i)
    ensures g.optr == optr && g.held == held && g.bump == bump && g.disposeInfo == null
    ensures if t.users[i].pc == Scoping(bump) then g.waiting && g.entry == e
            else t.users[i].stack.Push? && IsScope(e, g, t.users[i].stack.top)
  {
    g := new ScopeLock(held, optr, bump);
    t := Do(s, i, ScopeBegin(bump));
  }

  method ScopeTakes(ghost e: OplockEntry.Entry, g: ScopeLock, ghost s: State, ghost i: nat) returns (ghost t: State)
    requires Inv(s) && Shows(e, g.optr, g.held, s, i) && g.waiting && g.entry == e && g.disposeInfo == null
    requires MayAct(s, i, TakeLock) && s.users[i].pc == Scoping(g.bump)
    modifies g`waiting, g.held, e
    ensures t == Do(s, i, TakeLock) && Shows(e, g.optr, g.held, t, i)
    ensures t.users[i].stack.Push? && IsScope(e, g, t.users[i].stack.top)
  {
    assert UserOk(s, i);
    g.TakeLock();
    t := Do(s, i, TakeLock);
  }

  // RDI_OPLOCK_SET_DISPOSE_INFO
  method ScopeSetsDispose(ghost e: OplockEntry.Entry, g: ScopeLock, ghost s: State, ghost i: nat)
    returns (ghost t: State)
    requires Shows(e, g.optr, g.held, s, i) && MayAct(s, i, SetDispose) && IsScope(e, g, s.users[i].stack.top)
    modifies g`disposeInfo
    ensures t == Do(s, i, SetDispose) && Shows(e, g.optr, g.held, t, i) && IsScope(e, g, t.users[i].stack.top)
  {
    g.disposeInfo := g.optr;
    t := Do(s, i, SetDispose);
  }

  // The end of a scope, on leaving it or early.
  method ScopeEnds(ghost e: OplockEntry.Entry, g: ScopeLock, locks: Oplocks, ghost s: State, ghost i: nat,
                   ghost a: Action)
    returns (disposal: Slot?, ghost t: State)
    requires Inv(s) && Shows(e, g.optr, g.held, s, i) && locks.Valid() && (e.onFreeList <==> e in locks.freelist)
    requires MayAct(s, i, a) && (a == Leave || a == EarlyRelease) && IsScope(e, g, s.users[i].stack.top)
    modifies g.held, e, g.optr, locks`freelist
    ensures t == Do(s, i, a) && Shows(e, g.optr, g.held, t, i)
    ensures a == EarlyRelease ==> IsScope(e, g, t.users[i].stack.top)
    ensures t.disposals == if disposal != null then s.disposals + [disposal.address] else s.disposals
  {
    assert UserOk(s, i);
    var broadcast;
    disposal, broadcast := g.Leave(locks);
    t := Do(s, i, a);
  }

  // ---------------------------------------------------------------- //
  // Conditional scopes

  method CondBegins(ghost e: OplockEntry.Entry, optr: Slot, held: Held, bump: bool, ghost s: State, ghost i: nat)
    returns (g: CondLock, ghost t: State)
    requires Inv(s) && Shows(e, optr, held, s, i) && MayAct(s, i, CondBegin(bump))
    modifies held, e
    ensures t == Do(s, i, CondBegin(bump)) && Shows(e, optr, held, t, i)
    ensures g.optr == optr && g.held == held && g.bump == bump && g.initialHeld == s.users[i].held
    ensures if t.users[i].pc == Conding(bump) then g.waiting && g.entry == e
            else t.users[i].stack.Push? && IsCond(e, g, t.users[i].stack.top)
  {
    assert UserOk(s, i);
    g := new CondLock(held, optr, bump);
    t := Do(s, i, CondBegin(bump));
  }

  method CondTakes(ghost e: OplockEntry.Entry, g: CondLock, ghost s: State, ghost i: nat) returns (ghost t: State)
    requires Inv(s) && Shows(e, g.optr, g.held, s, i) && g.waiting && g.entry == e && !g.initialHeld
    requires MayAct(s, i, TakeLock) && s.users[i].pc == Conding(g.bump)
    modifies g`waiting, g.held, e
    ensures t == Do(s, i, TakeLock) && Shows(e, g.optr, g.held, t, i)
    ensures t.users[i].stack.Push? && IsCond(e, g, t.users[i].stack.top)
  {
    assert UserOk(s, i);
    g.TakeLock();
    t := Do(s, i, TakeLock);
  }

  method CondEnds(ghost e: OplockEntry.Entry, g: CondLock, ghost s: State, ghost i: nat) returns (ghost t: State)
    requires Inv(s) && Shows(e, g.optr, g.held, s, i)
    requires MayAct(s, i, Leave) && IsCond(e, g, s.users[i].stack.top)
    modifies g.held, e
    ensures t == Do(s, i, Leave) && Shows(e, g.optr, g.held, t, i)
  {
    assert UserOk(s, i);
    var broadcast := g.Leave();
    t := Do(s, i, Leave);
  }

  // ---------------------------------------------------------------- //
  // Releases for a while, and waits

  method TempBegins(ghost e: OplockEntry.Entry, optr: Slot, held: Held, ghost s: State, ghost i: nat)
    returns (g: TempRelease, ghost t: State)
    requires Inv(s) && Shows(e, optr, held, s, i) && MayAct(s, i, TempBegin)
    modifies held, e
    ensures t == Do(s, i, TempBegin) && Shows(e, optr, held, t, i)
    ensures g.optr == optr && g.held == held && g.entry == e && !g.waiting
  {
    assert UserOk(s, i);
    g := new TempRelease(held, optr);
    t := Do(s, i, TempBegin);
  }

  method TempEnds(ghost e: OplockEntry.Entry, g: TempRelease, ghost s: State, ghost i: nat) returns (ghost t: State)
    requires Inv(s) && Shows(e, g.optr, g.held, s, i) && g.entry == e && !g.waiting && MayAct(s, i, TempEnd)
    modifies g`waiting, g.held
    ensures t == Do(s, i, TempEnd) && Shows(e, g.optr, g.held, t, i)
    ensures g.waiting <==> t.users[i].pc == Reacquiring
  {
    assert UserOk(s, i);
    g.Leave();
    t := Do(s, i, TempEnd);
  }

  method TempTakes(ghost e: OplockEntry.Entry, g: TempRelease, ghost s: State, ghost i: nat) returns (ghost t: State)
    requires Inv(s) && Shows(e, g.optr, g.held, s, i) && g.entry == e && g.waiting
    requires MayAct(s, i, TakeLock) && s.users[i].pc == Reacquiring
    modifies g`waiting, g.held, e`locked
    ensures t == Do(s, i, TakeLock) && Shows(e, g.optr, g.held, t, i) && !g.waiting
  {
    assert UserOk(s, i);
    g.TakeLock();
    t := Do(s, i, TakeLock);
  }

  // RDI_OPLOCK_WAIT and RDI_OPLOCK_INUSEONE_WAIT; the latter only frees the mutex meanwhile.
  method WaitBegins(e: OplockEntry.Entry, optr: Slot, held: Held, onInuseOne: bool, ghost s: State, ghost i: nat)
    returns (doBumpDebump: bool, ghost t: State)
    requires Inv(s) && Shows(e, optr, held, s, i) && MayAct(s, i, WaitBegin(onInuseOne))
    modifies e
    ensures t == Do(s, i, WaitBegin(onInuseOne)) && Shows(e, optr, held, t, i)
    ensures t.users[i].stack.Push? && t.users[i].stack.top == Wait(doBumpDebump)
  {
    assert UserOk(s, i);
    t := Do(s, i, WaitBegin(onInuseOne));
    if onInuseOne {
      doBumpDebump := false;
      e.Release();
    } else {
      doBumpDebump := e.WaitBegin();
    }
  }

  method WaitEnds(e: OplockEntry.Entry, optr: Slot, held: Held, doBumpDebump: bool, ghost s: State, ghost i: nat)
    returns (ghost t: State)
    requires Inv(s) && Shows(e, optr, held, s, i)
    requires MayAct(s, i, WaitEnd) && s.users[i].stack.top == Wait(doBumpDebump)
    modifies e
    ensures t == Do(s, i, WaitEnd) && Shows(e, optr, held, t, i)
  {
    BumpsWithin(s.users, i);
    e.WaitEnd(doBumpDebump);
    t := Do(s, i, WaitEnd);
  }

  // ---------------------------------------------------------------- //
  // A new owner

  method Allocates(locks: Oplocks, k: nat, optr: Slot, ghost s: State) returns (disposal: Slot?, ghost t: State)
    requires locks.Valid() && k < |locks.freelist|
    requires ShowsEntry(locks.freelist[k], s) && MayAlloc(s, optr.address)
    modifies locks`freelist, locks.freelist[k], if locks.freelist[k].ptr != null then {locks.freelist[k].ptr} else {}
    ensures t == DoAlloc(s, optr.address) && ShowsEntry(old(locks.freelist[k]), t)
    ensures t.disposals == if disposal != null then s.disposals + [disposal.address] else s.disposals
  {
    disposal := locks.TakeEntry(optr, k);
    t := DoAlloc(s, optr.address);
  }
}
