/** The lock guards of include/RDIOplocksMacros.h over one entry, as steps of any number of users that
    interleave in any order.  A user is one `held` location together with the guards opened over it,
    for one owner: a thread that holds locks over several objects is several users. */
module OplockGuards {
  import opened Oplock
  import opened Sequences
  import Runs

  // ---------------------------------------------------------------- //
  // State

  // The location of an object's _oplockptr.
  type Owner = nat

  // `live` says that the guard's constructor found or took the lock and nothing gave it up early; the
  // code has no such field.  A wait is kept on the stack like a guard while it lasts.
  datatype Guard =
    | Scope(bump: bool, live: bool, dispose: bool)
    | Cond(bump: bool, initialHeld: bool, live: bool)
    | Temp
    | Wait(bumped: bool)

  datatype Stack = Empty | Push(top: Guard, rest: Stack)

  // Between guards, or in a constructor or destructor that has looked at the entry and now waits for
  // its mutex.
  datatype Pc = Idle | Scoping(bump: bool) | Conding(bump: bool) | Reacquiring

  datatype User = User(owner: Owner, held: bool, stack: Stack, pc: Pc)

  // `linked` are the owners whose _oplockptr is this entry, the others' is zero.  The last four fields
  // record the run: who has owned the entry, who has asked for disposal, who was disposed, and how
  // often _inuseone was broadcast.
  datatype State = State(
    entry: Entry<Owner>,
    holder: Option<nat>,
    users: seq<User>,
    linked: set<Owner>,
    owners: set<Owner>,
    requested: set<Owner>,
    disposals: seq<Owner>,
    broadcasts: nat)

  function Bumps(g: Guard): nat {
    match g
    case Scope(bump, live, _) => if bump && live then 1 else 0
    case Cond(bump, _, live) => if bump && live then 1 else 0
    case Temp => 0
    case Wait(bumped) => if bumped then 1 else 0
  }

  // The live bumps of a stack, and of all users.
  function BumpsOf(st: Stack): nat {
    match st
    case Empty => 0
    case Push(g, rest) => Bumps(g) + BumpsOf(rest)
  }

  function Total(users: seq<User>): nat {
    if users == [] then 0 else Total(users[..|users| - 1]) + BumpsOf(users[|users| - 1].stack)
  }

  predicate Bumped(u: User) {
    BumpsOf(u.stack) > 0
  }

  predicate Waiting(u: User) {
    u.stack.Push? && u.stack.top.Wait?
  }

  // ---------------------------------------------------------------- //
  // Steps

  datatype Action =
    | ScopeBegin(bump: bool)          // RDI_OplockLock, RDI_OplockBumpLock
    | CondBegin(bump: bool)           // RDI_OplockCondLock, RDI_OplockBumpCondLock
    | TakeLock                        // the second half of a constructor or of a reacquire
    | SetDispose                      // RDI_OPLOCK_SET_DISPOSE_INFO
    | EarlyRelease
    | Leave                           // the destructor of a Scope or a Cond
    | TempBegin                       // RDI_OplockTempRelease and its destructor
    | TempEnd
    | WaitBegin(onInuseOne: bool)     // RDI_OPLOCK_WAIT, RDI_OPLOCK_INUSEONE_WAIT
    | WaitEnd

  // A user's step, or the entry going to a new owner.
  datatype Step = Act(i: nat, action: Action) | Alloc(owner: Owner)

  function Put(s: State, i: nat, u: User): State
    requires i < |s.users|
  {
    s.(users := s.users[i := u])
  }

  function Opened(u: User, g: Guard, held: bool): User {
    u.(held := held, stack := Push(g, u.stack), pc := Idle)
  }

  function Unlock(s: State, i: nat, bump: bool, dispose: bool): State
    requires i < |s.users|
  {
    var owner := s.users[i].owner;
    var f := Closed(s.entry, owner, bump, dispose);
    s.(entry := f.entry,
       holder := if f.released then None else s.holder,
       linked := if f.disposal.Some? then s.linked - {owner} else s.linked,
       requested := if dispose then s.requested + {owner} else s.requested,
       disposals := if f.disposal.Some? then s.disposals + [f.disposal.value] else s.disposals,
       broadcasts := s.broadcasts + (if bump && DebumpBroadcasts(s.entry) then 1 else 0))
  }

  function LeaveScope(s: State, i: nat, g: Guard): State
    requires i < |s.users| && g.Scope?
  {
    if s.users[i].held then Unlock(s, i, g.bump, g.dispose) else s
  }

  // The destructor of RDI_OplockCondLock or RDI_OplockBumpCondLock, but for `held`.
  function LeaveCond(s: State, i: nat, g: Guard): State
    requires i < |s.users| && g.Cond?
  {
    if s.users[i].held then
      if g.initialHeld then
        if g.bump then
          s.(entry := Debump(s.entry), broadcasts := s.broadcasts + (if DebumpBroadcasts(s.entry) then 1 else 0))
        else s
      else
        Unlock(s, i, g.bump, false)
    else s
  }

  // A bump needs room in _inuse.
  predicate Room(s: State) {
    s.entry.inuse < INUSE_LIMIT - 1
  }

  // What a user may do.  The rules of use are the comments' (lines 36-177, 235-237): a lock that is
  // held is not locked again but with a Cond, only the innermost guard is left or released early, a
  // lock released for a while or waited on is held, and a wait is in a bumped scope.  The mutex is
  // free when it is taken.
  predicate MayAct(s: State, i: nat, a: Action) {
    && i < |s.users|
    && var u := s.users[i];
    && (u.pc == Idle <==> a != TakeLock)
    && (a != WaitEnd ==> !Waiting(u))
    && match a
       case ScopeBegin(_) => !u.held
       case CondBegin(bump) => u.held && bump ==> Room(s)
       case TakeLock => s.holder == None && (u.pc in {Scoping(true), Conding(true)} ==> Room(s))
       case SetDispose => u.stack.Push? && u.stack.top.Scope?
       case EarlyRelease => u.stack.Push? && u.stack.top.Scope?
       case Leave => u.stack.Push? && (u.stack.top.Scope? || u.stack.top.Cond?)
       case TempBegin => u.held
       case TempEnd => u.stack.Push? && u.stack.top.Temp?
       case WaitBegin(onInuseOne) => u.held && Bumped(u) && (!onInuseOne && !s.entry.disposed ==> Room(s))
       case WaitEnd => Waiting(u) && s.holder == None
  }

  function DoTakeLock(s: State, i: nat): (t: State)
    requires MayAct(s, i, TakeLock)
    ensures |t.users| == |s.users| && t.users[i].owner == s.users[i].owner
    ensures forall j :: 0 <= j < |s.users| && j != i ==> t.users[j] == s.users[j]
  {
    var u := s.users[i];
    match u.pc
    case Scoping(bump) =>
      if Available(s.entry, u.owner) then
        Put(s.(entry := BumpIf(s.entry, bump), holder := Some(i)), i, Opened(u, Scope(bump, true, false), true))
      else
        Put(s, i, Opened(u, Scope(bump, false, false), false))
    case Conding(bump) =>
      if Available(s.entry, u.owner) then
        Put(s.(entry := BumpIf(s.entry, bump), holder := Some(i)), i, Opened(u, Cond(bump, false, true), true))
      else
        Put(s, i, Opened(u, Cond(bump, false, false), false))
    case Reacquiring =>
      if Owned(s.entry, u.owner) && u.stack.Push? then
        Put(s.(holder := Some(i)), i, u.(held := true, stack := u.stack.rest, pc := Idle))
      else if u.stack.Push? then
        Put(s, i, u.(held := false, stack := u.stack.rest, pc := Idle))
      else s
    case Idle => s
  }

  // A user's step leaves the other users alone, and every user with its owner.
  function Do(s: State, i: nat, a: Action): (t: State)
    requires MayAct(s, i, a)
    ensures |t.users| == |s.users| && t.users[i].owner == s.users[i].owner
    ensures forall j :: 0 <= j < |s.users| && j != i ==> t.users[j] == s.users[j]
  {
    var u := s.users[i];
    match a
    case ScopeBegin(bump) =>
      if u.owner !in s.linked || !Available(s.entry, u.owner) then
        Put(s, i, Opened(u, Scope(bump, false, false), false))
      else
        Put(s, i, u.(pc := Scoping(bump)))
    case CondBegin(bump) =>
      if u.owner !in s.linked then
        Put(s, i, Opened(u, Cond(bump, u.held, false), false))
      else if u.held then
        Put(s.(entry := BumpIf(s.entry, bump)), i, Opened(u, Cond(bump, true, true), true))
      else if !Available(s.entry, u.owner) then
        Put(s, i, Opened(u, Cond(bump, false, false), false))
      else
        Put(s, i, u.(pc := Conding(bump)))
    case TakeLock => DoTakeLock(s, i)
    case SetDispose => Put(s, i, u.(stack := Push(u.stack.top.(dispose := true), u.stack.rest)))
    case EarlyRelease =>
      if u.held then
        var g := u.stack.top;
        Put(LeaveScope(s, i, g), i, u.(held := false, stack := Push(Scope(g.bump, false, g.dispose), u.stack.rest)))
      else s
    case Leave =>
      if u.stack.top.Scope? then
        Put(LeaveScope(s, i, u.stack.top), i, u.(held := false, stack := u.stack.rest))
      else
        Put(LeaveCond(s, i, u.stack.top), i, u.(held := u.held && u.stack.top.initialHeld, stack := u.stack.rest))
    case TempBegin =>
      if u.owner !in s.linked then
        Put(s, i, Opened(u, Temp, false))
      else
        Put(s.(holder := None), i, Opened(u, Temp, false))
    case TempEnd =>
      if !Owned(s.entry, u.owner) then
        Put(s, i, u.(held := false, stack := u.stack.rest))
      else
        Put(s, i, u.(pc := Reacquiring))
    case WaitBegin(onInuseOne) =>
      var bump := !onInuseOne && !s.entry.disposed;
      Put(s.(entry := BumpIf(s.entry, bump), holder := None), i, Opened(u, Wait(bump), true))
    case WaitEnd =>
      var e := if u.stack.top.bumped then Debump(s.entry) else s.entry;
      Put(s.(entry := e, holder := Some(i)), i, u.(stack := u.stack.rest))
  }

  // The entry on the free list goes to an object that has not owned it before, when alloc_entry comes
  // to it and can have its mutex.
  predicate MayAlloc(s: State, o: Owner) {
    s.holder == None && o !in s.owners && AllocEntry(s.entry, o).Allocated?
  }

  function DoAlloc(s: State, o: Owner): State
    requires MayAlloc(s, o)
  {
    var r := AllocEntry(s.entry, o);
    s.(entry := r.entry,
       linked := (match s.entry.ptr case None => s.linked case Some(p) => s.linked - {p}) + {o},
       owners := s.owners + {o},
       disposals := if r.disposal.Some? then s.disposals + [r.disposal.value] else s.disposals)
  }

  predicate May(s: State, step: Step) {
    match step
    case Act(i, a) => MayAct(s, i, a)
    case Alloc(o) => MayAlloc(s, o)
  }

  function Next(s: State, step: Step): State
    requires May(s, step)
  {
    match step
    case Act(i, a) => Do(s, i, a)
    case Alloc(o) => DoAlloc(s, o)
  }

  // A fresh entry in the hands of its first owner, and users with nothing open.
  predicate Init(s: State) {
    && s.entry.ptr.Some?
    && var o := s.entry.ptr.value;
    && s.entry == Entry(0, Some(o), false, None, false)
    && s.holder == None && s.linked == {o} && s.owners == {o}
    && s.requested == {} && s.disposals == [] && s.broadcasts == 0
    && forall i :: 0 <= i < |s.users| ==> !s.users[i].held && s.users[i].stack == Empty && s.users[i].pc == Idle
  }

  // A step that may not be taken changes nothing.
  function After(s: State, step: Step): State {
    if May(s, step) then Next(s, step) else s
  }

  predicate Allowed(s: State, steps: seq<Step>) {
    Runs.Allowed(May, After, s, steps)
  }

  function Run(s: State, steps: seq<Step>): State {
    Runs.Run(After, s, steps)
  }

  lemma FirstStep(s: State, steps: seq<Step>) returns (t: State)
    requires Allowed(s, steps) && steps != []
    ensures May(s, steps[0]) && t == Next(s, steps[0])
    ensures Allowed(t, steps[1..]) && Run(s, steps) == Run(t, steps[1..])
  {
    t := After(s, steps[0]);
  }

  lemma OneStep(s: State, step: Step)
    requires May(s, step)
    ensures Allowed(s, [step]) && Run(s, [step]) == Next(s, step)
  {
    assert [step][1..] == [];
    assert Runs.Run(After, After(s, step), []) == After(s, step);
    assert Runs.Allowed(May, After, After(s, step), []);
  }

  lemma Then(s: State, steps: seq<Step>, more: seq<Step>)
    requires Allowed(s, steps) && Allowed(Run(s, steps), more)
    ensures Allowed(s, steps + more) && Run(s, steps + more) == Run(Run(s, steps), more)
  {
    Runs.Then(May, After, s, steps, more);
  }

  // The run so far, from s to t, and one more step.
  lemma OneMore(s: State, steps: seq<Step>, t: State, step: Step)
    requires Allowed(s, steps) && Run(s, steps) == t && May(t, step)
    ensures Allowed(s, steps + [step]) && Run(s, steps + [step]) == Next(t, step)
  {
    OneStep(t, step);
    Then(s, steps, [step]);
  }
}
