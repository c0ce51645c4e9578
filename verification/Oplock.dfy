/** The entry behind RDIOplockEntry and RDIOplocks (lib/RDIOplocks.cc), as a value: who owns it, how
    often it is in use, and the disposal that waits for it.  What each primitive does with it while
    the entry's mutex is held. */
module Oplock {
  import opened Sequences

  // O is what names an owner: the location of an object's _oplockptr in the source, and the object
  // itself for disposal.
  datatype Entry<O> = Entry(inuse: nat, ptr: Option<O>, disposed: bool, info: Option<O>, free: bool)

  // _inuse is a CORBA::UShort
  const INUSE_LIMIT := 0x1_0000

  predicate Available<O(==)>(e: Entry<O>, optr: O) {
    e.ptr == Some(optr) && !e.disposed
  }

  predicate Owned<O(==)>(e: Entry<O>, optr: O) {
    e.ptr == Some(optr)
  }

  // A disposal is due: requested while the entry was in use, which it no longer is.
  predicate Pending<O>(e: Entry<O>) {
    e.disposed && e.inuse == 0
  }

  function Bump<O>(e: Entry<O>): Entry<O> {
    e.(inuse := (e.inuse + 1) % INUSE_LIMIT)
  }

  function BumpIf<O>(e: Entry<O>, bump: bool): Entry<O> {
    if bump then Bump(e) else e
  }

  // Going below zero is ignored.
  function Debump<O>(e: Entry<O>): Entry<O> {
    if e.inuse == 0 then e else e.(inuse := e.inuse - 1)
  }

  predicate DebumpBroadcasts<O>(e: Entry<O>) {
    e.inuse == 2
  }

  // What free_entry does: the entry, whether its mutex was released, and the object disposed, whose
  // _oplockptr is then zero.  A caller that is not the owner is turned away with the mutex locked.
  datatype Freed<O> = Freed(entry: Entry<O>, released: bool, disposal: Option<O>)

  function FreeEntry<O(==)>(e: Entry<O>, optr: O, dinfo: O): Freed<O> {
    if e.ptr != Some(optr) then
      Freed(e, false, None)
    else if e.inuse == 0 then
      Freed(e.(ptr := None, disposed := false, free := true), true, Some(dinfo))
    else
      Freed(e.(disposed := true, info := Some(dinfo), free := true), true, None)
  }

  // What the destructor of RDI_OplockLock or RDI_OplockBumpLock does with the entry when the lock is
  // held.
  function Closed<O(==)>(e: Entry<O>, owner: O, bump: bool, dispose: bool): Freed<O> {
    var e' := if bump then Debump(e) else e;
    if dispose then FreeEntry(e', owner, owner) else Freed(e', true, None)
  }

  // What alloc_entry does with an entry of the free list: it is passed over, or goes to its new
  // owner, after the disposal that was due.
  datatype Allocated<O> = Passed | Allocated(entry: Entry<O>, disposal: Option<O>)

  function Assigned<O>(optr: O): Entry<O> {
    Entry(0, Some(optr), false, None, false)
  }

  function AllocEntry<O>(e: Entry<O>, optr: O): Allocated<O> {
    if !e.free then
      Passed
    else if e.ptr.None? then
      if e.inuse != 0 || e.disposed then Passed else Allocated(Assigned(optr), None)
    else if Pending(e) then
      Allocated(Assigned(optr), e.info)
    else
      Passed
  }

  // Disposal happens in the call of free_entry exactly when the owner calls it with the entry out of
  // use, and in alloc_entry exactly when one is due.
  lemma DisposedWhen<O>(e: Entry<O>, optr: O, dinfo: O)
    ensures FreeEntry(e, optr, dinfo).disposal.Some? <==> Owned(e, optr) && e.inuse == 0
    ensures AllocEntry(e, optr).Allocated? && AllocEntry(e, optr).disposal.Some? <==>
      e.free && e.ptr.Some? && Pending(e) && e.info.Some?
  {
  }

  // An entry is taken exactly if it is on the free list and out of use, and either nobody's with no
  // disposal due or its owner's with one; its new owner finds it as new.
  lemma AllocatedExactly<O>(e: Entry<O>, optr: O)
    ensures AllocEntry(e, optr).Allocated? <==> e.free && e.inuse == 0 && (e.ptr.Some? <==> e.disposed)
    ensures AllocEntry(e, optr).Allocated? ==>
      && AllocEntry(e, optr).entry == Entry(0, Some(optr), false, None, false)
      && AllocEntry(e, optr).disposal == if e.disposed then e.info else None
  {
  }

  // The first entry of the free list that alloc_entry takes, the list's length if there is none.
  function FirstFit<O>(es: seq<Entry<O>>, optr: O): (i: nat)
    ensures i <= |es|
    ensures forall j :: 0 <= j < i ==> AllocEntry(es[j], optr).Passed?
    ensures i < |es| ==> AllocEntry(es[i], optr).Allocated?
  {
    if es == [] || AllocEntry(es[0], optr).Allocated? then 0 else 1 + FirstFit(es[1..], optr)
  }

  // The two together say which.
  lemma FirstFitIs<O>(es: seq<Entry<O>>, optr: O, i: nat)
    requires i <= |es| && forall j :: 0 <= j < i ==> AllocEntry(es[j], optr).Passed?
    requires i < |es| ==> AllocEntry(es[i], optr).Allocated?
    ensures FirstFit(es, optr) == i
  {
  }
}
