/** RDIOplockEntry and RDIOplocks (include/RDIOplocks.h, lib/RDIOplocks.cc) as they run: an entry
    while its mutex is held, and the free list. */
module OplockEntry {
  import opened Oplock
  import opened Sequences

  // The _oplockptr of an object, at its address.
  class Slot {
    const address: nat
    var oplockptr: Entry?

    constructor (address: nat)
      ensures this.address == address && oplockptr == null
    {
      this.address, oplockptr := address, null;
    }
  }

  ghost function Opt(s: Slot?): Option<Slot> {
    if s == null then None else Some(s)
  }

  class Entry {
    var inuse: nat
    var ptr: Slot?
    var disposed: bool
    var disposeInfo: Slot?
    var onFreeList: bool
    var locked: bool

    ghost function Value(): Oplock.Entry<Slot>
      reads this
    {
      Oplock.Entry(inuse, Opt(ptr), disposed, Opt(disposeInfo), onFreeList)
    }

    constructor ()
      ensures Value() == Oplock.Entry(0, None, false, None, false) && !locked
    {
      inuse, ptr, disposed, disposeInfo, onFreeList, locked := 0, null, false, null, false, false;
    }

    // The two halves of acquire and reacquire: the look before the mutex is locked, and the one
    // after, which unlocks it again if the entry has gone meanwhile.
    method Look(optr: Slot, evenDisposed: bool) returns (ok: bool)
      ensures ok <==> if evenDisposed then Owned(Value(), optr) else Available(Value(), optr)
      ensures ok <==> ptr == optr && (evenDisposed || !disposed)
    {
      if ptr != optr || (!evenDisposed && disposed) {
        return false;
      }
      return true;
    }

    method Lock(optr: Slot, evenDisposed: bool) returns (ok: bool)
      requires !locked
      modifies `locked
      ensures ok <==> if evenDisposed then Owned(Value(), optr) else Available(Value(), optr)
      ensures ok <==> ptr == optr && (evenDisposed || !disposed)
      ensures locked <==> ok
    {
      locked := true;
      ok := Look(optr, evenDisposed);
      if !ok {
        locked := false;
      }
    }

    method Release()
      requires locked
      modifies `locked
      ensures !locked
    {
      locked := false;
    }

    method Bump()
      requires locked && inuse < INUSE_LIMIT
      modifies `inuse
      ensures Value() == Oplock.Bump(old(Value()))
      ensures inuse == (old(inuse) + 1) % 0x1_0000
    {
      inuse := (inuse + 1) % INUSE_LIMIT;
    }

    method Debump() returns (broadcast: bool)
      requires locked
      modifies `inuse
      ensures Value() == Oplock.Debump(old(Value()))
      ensures broadcast <==> DebumpBroadcasts(old(Value()))
      ensures inuse == if old(inuse) == 0 then 0 else old(inuse) - 1
      ensures broadcast <==> old(inuse) == 2
    {
      broadcast := false;
      if inuse != 0 {
        inuse := inuse - 1;
        if inuse == 1 {
          broadcast := true;
        }
      }
    }

    // The two sides of wait.  The mutex is free in between.
    method WaitBegin() returns (doBumpDebump: bool)
      requires locked && (!disposed ==> inuse < INUSE_LIMIT)
      modifies `inuse, `locked
      ensures doBumpDebump <==> !disposed
      ensures Value() == BumpIf(old(Value()), doBumpDebump)
      ensures inuse == if disposed then old(inuse) else (old(inuse) + 1) % 0x1_0000
      ensures !locked
    {
      doBumpDebump := !disposed;
      if doBumpDebump {
        inuse := (inuse + 1) % INUSE_LIMIT;
      }
      locked := false;
    }

    method WaitEnd(doBumpDebump: bool)
      requires !locked && (doBumpDebump ==> inuse > 0)
      modifies `inuse, `locked
      ensures Value() == if doBumpDebump then Oplock.Debump(old(Value())) else old(Value())
      ensures inuse == old(inuse) - if doBumpDebump then 1 else 0
      ensures locked
    {
      locked := true;
      if doBumpDebump {
        inuse := inuse - 1;
      }
    }

    method Assign(optr: Slot)
      modifies this
      ensures Value() == Assigned(optr) && locked == old(locked)
      ensures Value() == Oplock.Entry(0, Some(optr), false, None, false)
    {
      onFreeList := false;
      disposeInfo := null;
      inuse := 0;
      disposed := false;
      ptr := optr;
    }
  }

  class Oplocks {
    var freelist: seq<Entry>
    var shutDown: bool

    ghost predicate Valid()
      reads this, freelist
    {
      NoDup(freelist) && forall e :: e in freelist ==> e.onFreeList
    }

    constructor ()
      ensures Valid() && freelist == [] && !shutDown
    {
      freelist, shutDown := [], false;
    }

    method Unchain(e: Entry)
      requires NoDup(freelist) && e in freelist
      modifies `freelist
      ensures NoDup(freelist) && freelist == Minus(old(freelist), e)
      ensures forall n :: n in freelist <==> n in old(freelist) && n != e
    {
      var i := 0;
      while freelist[i] != e
        invariant 0 <= i < |freelist| && e !in freelist[..i]
        decreases |freelist| - i
      {
        i := i + 1;
      }
      MinusIs(freelist, e, i);
      WithoutAt(freelist, i);
      ghost var was := freelist;
      freelist := freelist[..i] + freelist[i + 1..];
      forall n ensures n in freelist <==> n in was && n != e {
        if n in was && n != e {
          var j :| 0 <= j < |was| && was[j] == n;
          assert freelist[if j < i then j else j - 1] == n;
        }
      }
    }

    // The owner's request for disposal.  Turned away, the caller still has the mutex; otherwise the
    // entry is last on the free list and its mutex free.
    method FreeEntry(e: Entry, optr: Slot, dinfo: Slot) returns (disposal: Slot?)
      requires Valid() && e.locked && (e.onFreeList <==> e in freelist)
      modifies `freelist, e, optr
      ensures Valid() && Freed(e.Value(), !e.locked, Opt(disposal)) == Oplock.FreeEntry(old(e.Value()), optr, dinfo)
      ensures optr.oplockptr == if disposal != null then null else old(optr.oplockptr)
      ensures if e.locked then freelist == old(freelist)
              else freelist == Minus(old(freelist), e) + [e]
      ensures old(e.ptr) != optr ==> unchanged(e) && disposal == null
      ensures old(e.ptr) == optr ==>
        && !e.locked && e.onFreeList && e.inuse == old(e.inuse)
        && (disposal != null <==> e.inuse == 0)
        && (e.inuse == 0 ==> e.ptr == null && !e.disposed && disposal == dinfo)
        && (e.inuse > 0 ==> e.ptr == optr && e.disposed && e.disposeInfo == dinfo)
    {
      disposal := null;
      if e.ptr != optr {
        return;
      }
      if e.ptr == null {
        return;
      }
      if e.disposed {
        e.disposed := false;
      }
      MinusNone(if e in freelist then [] else freelist, e);
      if e.onFreeList {
        Unchain(e);
      }
      freelist := freelist + [e];
      e.onFreeList := true;
      if e.inuse == 0 {
        optr.oplockptr := null;
        disposal := dinfo;
        e.ptr := null;
      } else {
        e.disposed := true;
        e.disposeInfo := dinfo;
      }
      e.locked := false;
    }

    ghost function Values(): seq<Oplock.Entry<Slot>>
      reads this, freelist
    {
      seq(|freelist|, i requires 0 <= i < |freelist| reads this, freelist => freelist[i].Value())
    }

    // The walk along the free list to the first entry that is out of use: nobody's with no disposal
    // due, or its owner's with one.
    method FindFit(optr: Slot) returns (i: nat)
      requires Valid()
      ensures i == FirstFit(Values(), optr) <= |freelist|
      ensures i < |freelist| ==> freelist[i].inuse == 0 && (freelist[i].ptr != null <==> freelist[i].disposed)
      ensures forall j :: 0 <= j < i ==> freelist[j].inuse != 0 || (freelist[j].ptr != null <==> !freelist[j].disposed)
    {
      i := 0;
      while i < |freelist|
        invariant i <= |freelist| && forall j :: 0 <= j < i ==> Oplock.AllocEntry(Values()[j], optr).Passed?
        invariant forall j :: 0 <= j < i ==>
          freelist[j].inuse != 0 || (freelist[j].ptr != null <==> !freelist[j].disposed)
      {
        var nxt := freelist[i];
        assert Values()[i] == nxt.Value();
        if nxt.ptr == null {
          if !(nxt.ptr != null || nxt.inuse != 0 || nxt.disposed) {
            FirstFitIs(Values(), optr, i);
            return;
          }
        } else if nxt.disposed && nxt.inuse == 0 {
          FirstFitIs(Values(), optr, i);
          return;
        }
        i := i + 1;
      }
      FirstFitIs(Values(), optr, i);
    }

    // The entry found there is unchained and, after the disposal that may be due, assigned.
    method TakeEntry(optr: Slot, i: nat) returns (disposal: Slot?)
      requires Valid() && i < |freelist| && Oplock.AllocEntry(freelist[i].Value(), optr).Allocated?
      modifies `freelist, freelist[i], if freelist[i].ptr != null then {freelist[i].ptr} else {}
      ensures Valid() && freelist == Without(old(freelist), i) && old(freelist)[i] !in freelist
      ensures Oplock.AllocEntry(old(freelist[i].Value()), optr) == Allocated(old(freelist[i]).Value(), Opt(disposal))
      ensures old(freelist[i].ptr) != null ==> old(freelist[i].ptr).oplockptr == null
      ensures old(freelist[i]).locked == old(freelist[i].locked)
      ensures old(freelist[i]).Value() == Oplock.Entry(0, Some(optr), false, None, false)
      ensures disposal == if old(freelist[i].ptr) == null then null else old(freelist[i].disposeInfo)
    {
      var nxt := freelist[i];
      disposal := null;
      WithoutAt(freelist, i);
      freelist := freelist[..i] + freelist[i + 1..];
      if nxt.ptr != null {
        nxt.ptr.oplockptr := null;
        disposal := nxt.disposeInfo;
      }
      nxt.Assign(optr);
    }

    // The owners of the entries that wait on the free list for their disposal.
    ghost function Owners(): set<object>
      reads this, freelist
    {
      set i | 0 <= i < |freelist| && freelist[i].ptr != null :: freelist[i].ptr
    }

    // The first entry of the free list that is out of use goes to the new owner, after the disposal
    // due to its old one, whose _oplockptr is cleared; a new entry does if there is none.  An entry
    // whose mutex is locked would be waited for.
    method AllocEntry(optr: Slot?) returns (e: Entry?, disposal: Slot?)
      requires Valid() && forall n :: n in freelist ==> !n.locked
      modifies `freelist, freelist, Owners()
      ensures Valid()
      ensures optr == null || shutDown ==> e == null && freelist == old(freelist)
      ensures optr != null && !shutDown ==>
        var es := old(Values());
        var i := FirstFit(es, optr);
        && e != null && !e.locked && e !in freelist
        && (i < |es| ==> e == old(freelist)[i] && freelist == Without(old(freelist), i)
                         && Oplock.AllocEntry(es[i], optr) == Allocated(e.Value(), Opt(disposal))
                         && (old(freelist[i].ptr) != null ==> old(freelist[i].ptr).oplockptr == null))
        && (i == |es| ==>
              && fresh(e) && freelist == old(freelist)
              && e.Value() == Assigned<Slot>(optr) && disposal == null)
        && e.ptr == optr && e.inuse == 0 && !e.disposed && e.disposeInfo == null && !e.onFreeList
      ensures forall n :: n in old(freelist) && n != e ==> unchanged(n)
    {
      e, disposal := null, null;
      if optr == null {
        return;
      }
      if shutDown {
        return;
      }
      var i := FindFit(optr);
      if i < |freelist| {
        e := freelist[i];
        assert Values()[i] == e.Value();
        disposal := TakeEntry(optr, i);
      } else {
        e := new Entry();
        e.Assign(optr);
      }
    }
  }
}
