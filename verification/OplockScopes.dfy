/** The guard classes of include/RDIOplocksMacros.h, proved to do with the entry what the steps of
    OplockGuards say.  A constructor or destructor that acquires the mutex comes in two parts, its look
    before and what it does once it has the mutex: others may run in between. */
module OplockScopes {
  import opened Oplock
  import opened OplockEntry

  // The int& that tells whether the lock is held.
  class Held {
    var held: bool

    constructor (held: bool)
      ensures this.held == held
    {
      this.held := held;
    }
  }

  // RDI_OplockLock and RDI_OplockBumpLock
  class ScopeLock {
    const optr: Slot
    const entry: Entry?
    const held: Held
    const bump: bool
    var disposeInfo: Slot?
    var waiting: bool

    constructor (held: Held, optr: Slot, bump: bool)
      modifies held
      ensures this.held == held && this.optr == optr && this.entry == optr.oplockptr && this.bump == bump
      ensures disposeInfo == null && !held.held
      ensures waiting <==> entry != null && Available(entry.Value(), optr)
      ensures waiting <==> optr.oplockptr != null && optr.oplockptr.ptr == optr && !optr.oplockptr.disposed
    {
      this.optr, this.entry, this.held, this.bump := optr, optr.oplockptr, held, bump;
      disposeInfo, waiting := null, false;
      new;
      held.held := false;
      if entry != null {
        waiting := entry.Look(optr, false);
      }
    }

    // The rest of acquire, and the bump.
    method TakeLock()
      requires waiting && entry != null && !entry.locked && !held.held && (bump ==> entry.inuse < INUSE_LIMIT)
      modifies this`waiting, held, entry
      ensures !waiting && entry.locked == held.held
      ensures held.held <==> Available(old(entry.Value()), optr)
      ensures entry.Value() == BumpIf(old(entry.Value()), bump && held.held)
      ensures held.held <==> old(entry.ptr == optr && !entry.disposed)
      ensures entry.inuse == if bump && held.held then (old(entry.inuse) + 1) % 0x1_0000 else old(entry.inuse)
    {
      waiting := false;
      var ok := entry.Lock(optr, false);
      if ok {
        held.held := true;
        if bump {
          entry.Bump();
        }
      }
    }

    // The destructor, and early_release alike.
    method Leave(locks: Oplocks) returns (disposal: Slot?, broadcast: bool)
      requires locks.Valid() && !waiting && (disposeInfo != null ==> disposeInfo == optr)
      requires entry != null && held.held ==> entry.locked && (entry.onFreeList <==> entry in locks.freelist)
      modifies held, entry, optr, locks`freelist
      ensures locks.Valid() && !held.held
      ensures entry != null && old(held.held) ==>
        && Freed(entry.Value(), !entry.locked, Opt(disposal))
           == Closed(old(entry.Value()), optr, bump, disposeInfo != null)
        && (broadcast <==> bump && DebumpBroadcasts(old(entry.Value())))
      ensures entry != null && !old(held.held) ==> unchanged(entry)
      ensures entry == null || !old(held.held) ==> disposal == null && !broadcast
      ensures entry != null && old(held.held) && old(entry.ptr) == optr ==>
        && !entry.locked && (broadcast <==> bump && old(entry.inuse) == 2)
        && entry.inuse == (if bump && old(entry.inuse) > 0 then old(entry.inuse) - 1 else old(entry.inuse))
        && (disposal != null <==> disposeInfo != null && entry.inuse == 0)
        && (disposeInfo == null ==> entry.ptr == optr && entry.disposed == old(entry.disposed))
        && (disposeInfo != null && entry.inuse == 0 ==> entry.ptr == null && !entry.disposed && disposal == optr)
        && (disposeInfo != null && entry.inuse > 0 ==> entry.ptr == optr && entry.disposed && entry.disposeInfo == optr)
      ensures optr.oplockptr == if disposal != null then null else old(optr.oplockptr)
    {
      disposal, broadcast := null, false;
      if entry == null {
        held.held := false;
      } else if held.held {
        if bump {
          broadcast := entry.Debump();
        }
        if disposeInfo != null {
          disposal := locks.FreeEntry(entry, optr, disposeInfo);
        } else {
          entry.Release();
        }
        held.held := false;
      }
    }
  }

  // RDI_OplockCondLock and RDI_OplockBumpCondLock
  class CondLock {
    const optr: Slot
    const entry: Entry?
    const held: Held
    const bump: bool
    const initialHeld: bool
    var waiting: bool

    constructor (held: Held, optr: Slot, bump: bool)
      requires optr.oplockptr != null && held.held ==>
        optr.oplockptr.locked && (bump ==> optr.oplockptr.inuse < INUSE_LIMIT)
      modifies held, if optr.oplockptr != null then {optr.oplockptr} else {}
      ensures this.held == held && this.optr == optr && this.entry == optr.oplockptr && this.bump == bump
      ensures initialHeld == old(held.held)
      ensures held.held <==> entry != null && initialHeld
      ensures entry != null ==>
        && entry.Value() == BumpIf(old(optr.oplockptr.Value()), bump && initialHeld)
        && entry.locked == old(optr.oplockptr.locked)
      ensures waiting <==> entry != null && !initialHeld && Available(entry.Value(), optr)
      ensures waiting <==> entry != null && !initialHeld && entry.ptr == optr && !entry.disposed
      ensures entry != null ==> var n := old(optr.oplockptr.inuse);
        entry.inuse == if bump && initialHeld then (n + 1) % 0x1_0000 else n
    {
      this.optr, this.entry, this.held, this.bump := optr, optr.oplockptr, held, bump;
      initialHeld, waiting := held.held, false;
      new;
      if entry == null {
        held.held := false;
      } else if held.held {
        if bump {
          entry.Bump();
        }
      } else {
        waiting := entry.Look(optr, false);
      }
    }

    method TakeLock()
      requires waiting && entry != null && !entry.locked && !held.held && (bump ==> entry.inuse < INUSE_LIMIT)
      modifies this`waiting, held, entry
      ensures !waiting && entry.locked == held.held
      ensures held.held <==> Available(old(entry.Value()), optr)
      ensures entry.Value() == BumpIf(old(entry.Value()), bump && held.held)
      ensures held.held <==> old(entry.ptr == optr && !entry.disposed)
      ensures entry.inuse == if bump && held.held then (old(entry.inuse) + 1) % 0x1_0000 else old(entry.inuse)
    {
      waiting := false;
      var ok := entry.Lock(optr, false);
      if ok {
        held.held := true;
        if bump {
          entry.Bump();
        }
      }
    }

    method Leave() returns (broadcast: bool)
      requires !waiting && (entry != null && held.held ==> entry.locked)
      modifies held, entry
      ensures held.held <==> entry != null && old(held.held) && initialHeld
      ensures entry != null ==>
        && (entry.locked <==> old(entry.locked) && (old(held.held) ==> initialHeld))
        && entry.Value() == if bump && old(held.held) then Debump(old(entry.Value())) else old(entry.Value())
      ensures broadcast <==> entry != null && old(held.held) && bump && DebumpBroadcasts(old(entry.Value()))
      ensures entry != null ==>
        entry.inuse == old(entry.inuse) - if bump && old(held.held) && old(entry.inuse) > 0 then 1 else 0
      ensures broadcast <==> entry != null && old(held.held) && bump && old(entry.inuse) == 2
    {
      broadcast := false;
      if entry == null {
        held.held := false;
      } else if held.held {
        if bump {
          broadcast := entry.Debump();
        }
        if !initialHeld {
          entry.Release();
          held.held := false;
        }
      }
    }
  }

  // RDI_OplockTempRelease
  class TempRelease {
    const optr: Slot
    const entry: Entry?
    const held: Held
    var waiting: bool

    constructor (held: Held, optr: Slot)
      requires optr.oplockptr != null ==> optr.oplockptr.locked
      modifies held, if optr.oplockptr != null then {optr.oplockptr} else {}
      ensures this.held == held && this.optr == optr && this.entry == optr.oplockptr
      ensures !held.held && !waiting
      ensures entry != null ==> !entry.locked && entry.Value() == old(optr.oplockptr.Value())
    {
      this.optr, this.entry, this.held, waiting := optr, optr.oplockptr, held, false;
      new;
      if entry != null {
        entry.Release();
      }
      held.held := false;
    }

    // The destructor's look.
    method Leave()
      requires !waiting
      modifies this`waiting, held
      ensures !held.held && (waiting <==> entry != null && Owned(entry.Value(), optr))
      ensures waiting <==> entry != null && entry.ptr == optr
    {
      held.held := false;
      if entry != null {
        waiting := entry.Look(optr, true);
      }
    }

    // The lock comes back exactly when the entry is still the object's, disposed or not.
    method TakeLock()
      requires waiting && entry != null && !entry.locked
      modifies this`waiting, held, entry`locked
      ensures !waiting && entry.locked == held.held
      ensures held.held <==> Owned(old(entry.Value()), optr)
      ensures held.held <==> old(entry.ptr) == optr
    {
      waiting := false;
      held.held := entry.Lock(optr, true);
    }
  }
}
