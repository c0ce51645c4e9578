/** RDI_TypeMap (lib/RDITypeMap.cc) as values: under which event types the admins and proxies of a
    channel have registered their filters.  What an update registers, what it announces to the
    suppliers, and what a lookup finds for an event. */
module TypeMapLaws {
  import opened Sequences
  import opened EventType
  import opened SubscriptionLaws

  type Filter = nat

  // ANode_t and PNode_t: an admin or proxy with its filters, the newest first.
  datatype Node = Node(id: nat, fltrs: seq<Filter>)

  // VNode_t
  datatype VNode = VNode(admn: seq<Node>, prxy: seq<Node>)

  // The two overloads of update and lookup differ in the list they work on.
  datatype Side = Admin | Proxy

  // Who registers or is looked up.
  datatype Owner = Owner(side: Side, id: nat)

  type Contents = map<EventType, VNode>

  function Part(v: VNode, side: Side): seq<Node> {
    if side == Admin then v.admn else v.prxy
  }

  function WithPart(v: VNode, side: Side, ns: seq<Node>): VNode {
    if side == Admin then v.(admn := ns) else v.(prxy := ns)
  }

  // ---------------------------------------------------------------- //
  // One registration

  function FindNode(ns: seq<Node>, id: nat): (i: nat)
    ensures i <= |ns|
    ensures i < |ns| ==> ns[i].id == id
    ensures forall j :: 0 <= j < i ==> ns[j].id != id
  {
    if ns == [] || ns[0].id == id then 0 else 1 + FindNode(ns[1..], id)
  }

  function FindFilter(fs: seq<Filter>, f: Filter): (i: nat)
    ensures i <= |fs|
    ensures i < |fs| ==> fs[i] == f
    ensures forall j :: 0 <= j < i ==> fs[j] != f
  {
    if fs == [] || fs[0] == f then 0 else 1 + FindFilter(fs[1..], f)
  }

  // One occurrence of f taken from the node of id, and the node with its last one.
  function RemoveFrom(ns: seq<Node>, id: nat, f: Filter): Option<seq<Node>> {
    var i := FindNode(ns, id);
    if i == |ns| then None
    else
      var j := FindFilter(ns[i].fltrs, f);
      if j == |ns[i].fltrs| then None
      else
        var fs := Without(ns[i].fltrs, j);
        Some(if fs == [] then Without(ns, i) else ns[i := Node(id, fs)])
  }

  function AddTo(ns: seq<Node>, id: nat, f: Filter): seq<Node> {
    var i := FindNode(ns, id);
    if i == |ns| then [Node(id, [f])] + ns else ns[i := Node(id, [f] + ns[i].fltrs)]
  }

  // Whether the type is gone with its last registration.
  function DeleteOne(m: Contents, t: EventType, who: Owner, f: Filter): (Contents, bool) {
    if t !in m then (m, false)
    else
      match RemoveFrom(Part(m[t], who.side), who.id, f)
      case None => (m, false)
      case Some(ns) =>
        var v := WithPart(m[t], who.side, ns);
        if v.admn == [] && v.prxy == [] then (m - {t}, true) else (m[t := v], false)
  }

  // Whether the type is new with its first registration.
  function AddOne(m: Contents, t: EventType, who: Owner, f: Filter): (Contents, bool) {
    if t !in m then (m[t := WithPart(VNode([], []), who.side, [Node(who.id, [f])])], true)
    else (m[t := WithPart(m[t], who.side, AddTo(Part(m[t], who.side), who.id, f))], false)
  }

  function DeleteAll(m: Contents, ts: Types, who: Owner, f: Filter): (Contents, Types) {
    if ts == [] then (m, [])
    else
      var (n, gone) := DeleteAll(m, ts[..|ts| - 1], who, f);
      var (r, g) := DeleteOne(n, ts[|ts| - 1], who, f);
      (r, if g then gone + [ts[|ts| - 1]] else gone)
  }

  function AddAll(m: Contents, ts: Types, who: Owner, f: Filter): (Contents, Types) {
    if ts == [] then (m, [])
    else
      var (n, new_) := AddAll(m, ts[..|ts| - 1], who, f);
      var (r, g) := AddOne(n, ts[|ts| - 1], who, f);
      (r, if g then new_ + [ts[|ts| - 1]] else new_)
  }

  // The contents and the announcement after each type of a list, from none to all.
  predicate DeleteStep(ms: seq<Contents>, gs: seq<Types>, ts: Types, who: Owner, f: Filter, i: nat)
    requires i < |ts| && |ms| == |gs| == |ts| + 1
  {
    var (r, g) := DeleteOne(ms[i], ts[i], who, f);
    ms[i + 1] == r && gs[i + 1] == if g then gs[i] + [ts[i]] else gs[i]
  }

  lemma {:induction false} DeletePlan(m: Contents, ts: Types, who: Owner, f: Filter)
    returns (ms: seq<Contents>, gs: seq<Types>)
    ensures |ms| == |gs| == |ts| + 1 && ms[0] == m && gs[0] == []
    ensures forall i :: 0 <= i < |ts| ==> DeleteStep(ms, gs, ts, who, f, i)
    ensures DeleteAll(m, ts, who, f) == (ms[|ts|], gs[|ts|])
  {
    if ts == [] {
      ms, gs := [m], [[]];
    } else {
      var d, last := ts[..|ts| - 1], ts[|ts| - 1];
      var ms', gs' := DeletePlan(m, d, who, f);
      var (r, g) := DeleteOne(ms'[|d|], last, who, f);
      ms, gs := ms' + [r], gs' + [if g then gs'[|d|] + [last] else gs'[|d|]];
      forall i | 0 <= i < |ts| ensures DeleteStep(ms, gs, ts, who, f, i) {
        assert i < |d| ==> DeleteStep(ms', gs', d, who, f, i);
      }
    }
  }

  predicate AddStep(ms: seq<Contents>, gs: seq<Types>, ts: Types, who: Owner, f: Filter, i: nat)
    requires i < |ts| && |ms| == |gs| == |ts| + 1
  {
    var (r, g) := AddOne(ms[i], ts[i], who, f);
    ms[i + 1] == r && gs[i + 1] == if g then gs[i] + [ts[i]] else gs[i]
  }

  lemma {:induction false} AddPlan(m: Contents, ts: Types, who: Owner, f: Filter)
    returns (ms: seq<Contents>, gs: seq<Types>)
    ensures |ms| == |gs| == |ts| + 1 && ms[0] == m && gs[0] == []
    ensures forall i :: 0 <= i < |ts| ==> AddStep(ms, gs, ts, who, f, i)
    ensures AddAll(m, ts, who, f) == (ms[|ts|], gs[|ts|])
  {
    if ts == [] {
      ms, gs := [m], [[]];
    } else {
      var d, last := ts[..|ts| - 1], ts[|ts| - 1];
      var ms', gs' := AddPlan(m, d, who, f);
      var (r, g) := AddOne(ms'[|d|], last, who, f);
      ms, gs := ms' + [r], gs' + [if g then gs'[|d|] + [last] else gs'[|d|]];
      forall i | 0 <= i < |ts| ensures AddStep(ms, gs, ts, who, f, i) {
        assert i < |d| ==> AddStep(ms', gs', d, who, f, i);
      }
    }
  }

  // The contents, gadded and gdeled.
  datatype Updated = Updated(contents: Contents, gadded: Types, gdeled: Types)

  function UpdateMap(m: Contents, added: Types, deled: Types, who: Owner, f: Filter): Updated {
    var (n, gdeled) := DeleteAll(m, deled, who, f);
    var (r, gadded) := AddAll(n, added, who, f);
    Updated(r, gadded, gdeled)
  }

  // ---------------------------------------------------------------- //
  // What is registered

  ghost predicate NodesOk(ns: seq<Node>) {
    && (forall i, j :: 0 <= i < j < |ns| ==> ns[i].id != ns[j].id)
    && (forall i :: 0 <= i < |ns| ==> ns[i].fltrs != [])
  }

  ghost predicate VNodeOk(v: VNode) {
    (v.admn != [] || v.prxy != []) && NodesOk(v.admn) && NodesOk(v.prxy)
  }

  // No type without a registration, no node without a filter, one node to an owner.
  ghost predicate WellFormed(m: Contents) {
    forall t :: t in m ==> VNodeOk(m[t])
  }

  function FiltersOf(ns: seq<Node>, id: nat): seq<Filter> {
    var i := FindNode(ns, id);
    if i < |ns| then ns[i].fltrs else []
  }

  function Registered(m: Contents, t: EventType, who: Owner): seq<Filter> {
    if t in m then FiltersOf(Part(m[t], who.side), who.id) else []
  }

  // Filters with their multiplicity.
  function Occurs(fs: seq<Filter>, f: Filter): nat {
    multiset(fs)[f]
  }

  function Count(m: Contents, t: EventType, who: Owner, f: Filter): nat {
    Occurs(Registered(m, t, who), f)
  }

  lemma {:induction false} MinusCount(fs: seq<Filter>, f: Filter, f': Filter)
    ensures var c := Occurs(fs, f');
      Occurs(Minus(fs, f), f') == if f == f' && c > 0 then c - 1 else c
  {
    if fs != [] {
      assert fs == [fs[0]] + fs[1..];
      MinusCount(fs[1..], f, f');
    }
  }

  lemma FindIs(ns: seq<Node>, id: nat, i: nat)
    requires i <= |ns| && (i < |ns| ==> ns[i].id == id)
    requires forall j :: 0 <= j < i ==> ns[j].id != id
    ensures FindNode(ns, id) == i
  {
  }

  // A node other than the one taken out keeps its place among the rest.
  lemma DropNode(ns: seq<Node>, i: nat, id': nat)
    requires NodesOk(ns) && i < |ns|
    ensures NodesOk(Without(ns, i))
    ensures FiltersOf(Without(ns, i), id') == if id' == ns[i].id then [] else FiltersOf(ns, id')
  {
    WithoutAt(ns, i);
    var r, i' := Without(ns, i), FindNode(ns, id');
    if id' == ns[i].id {
      FindIs(r, id', |r|);
    } else {
      FindIs(r, id', if i' < i then i' else i' - 1);
    }
  }

  lemma SetNode(ns: seq<Node>, i: nat, fs: seq<Filter>, id': nat)
    requires NodesOk(ns) && i < |ns| && fs != []
    ensures NodesOk(ns[i := Node(ns[i].id, fs)])
    ensures FiltersOf(ns[i := Node(ns[i].id, fs)], id') == if id' == ns[i].id then fs else FiltersOf(ns, id')
  {
    FindIs(ns[i := Node(ns[i].id, fs)], id', FindNode(ns, id'));
  }

  lemma RemoveFromNone(ns: seq<Node>, id: nat, f: Filter)
    ensures RemoveFrom(ns, id, f) == None <==> f !in FiltersOf(ns, id)
  {
  }

  // The node is dropped with its last filter, and keeps the others otherwise.
  lemma RemoveFromSome(ns: seq<Node>, id: nat, f: Filter, id': nat)
    requires NodesOk(ns) && f in FiltersOf(ns, id)
    ensures RemoveFrom(ns, id, f).Some?
    ensures var fs, r := FiltersOf(ns, id), RemoveFrom(ns, id, f).value;
      && NodesOk(r) && FindFilter(fs, f) < |fs|
      && FiltersOf(r, id') == if id == id' then Without(fs, FindFilter(fs, f)) else FiltersOf(ns, id')
  {
    var i := FindNode(ns, id);
    var fs := Without(ns[i].fltrs, FindFilter(ns[i].fltrs, f));
    if fs == [] {
      DropNode(ns, i, id');
    } else {
      SetNode(ns, i, fs, id');
    }
  }

  lemma AddToList(ns: seq<Node>, id: nat, f: Filter, id': nat)
    requires NodesOk(ns)
    ensures NodesOk(AddTo(ns, id, f)) && AddTo(ns, id, f) != []
    ensures FiltersOf(AddTo(ns, id, f), id') == if id == id' then [f] + FiltersOf(ns, id') else FiltersOf(ns, id')
  {
    var i := FindNode(ns, id);
    if i == |ns| {
      FindIs(AddTo(ns, id, f), id', if id == id' then 0 else FindNode(ns, id') + 1);
    } else {
      SetNode(ns, i, [f] + ns[i].fltrs, id');
    }
  }

  // ---------------------------------------------------------------- //
  // One type

  lemma RemoveKeeps(v: VNode, who: Owner, f: Filter)
    requires NodesOk(v.admn) && NodesOk(v.prxy)
    ensures match RemoveFrom(Part(v, who.side), who.id, f)
      case None => true
      case Some(ns) => var w := WithPart(v, who.side, ns); NodesOk(w.admn) && NodesOk(w.prxy)
  {
    RemoveFromNone(Part(v, who.side), who.id, f);
    if f in FiltersOf(Part(v, who.side), who.id) {
      RemoveFromSome(Part(v, who.side), who.id, f, 0);
    }
  }

  lemma DeleteOneLaw(m: Contents, t: EventType, who: Owner, f: Filter)
    requires WellFormed(m)
    ensures var (n, gone) := DeleteOne(m, t, who, f);
      && WellFormed(n)
      && (gone <==> t in m && t !in n)
      && (forall u :: u != t ==> (u in n <==> u in m) && (u in m ==> n[u] == m[u]))
  {
    if t in m {
      RemoveKeeps(m[t], who, f);
    }
  }

  lemma AddOneLaw(m: Contents, t: EventType, who: Owner, f: Filter)
    requires WellFormed(m)
    ensures var (n, new_) := AddOne(m, t, who, f);
      && WellFormed(n)
      && (new_ <==> t !in m) && t in n
      && (forall u :: u != t ==> (u in n <==> u in m) && (u in m ==> n[u] == m[u]))
  {
    if t in m {
      AddToList(Part(m[t], who.side), who.id, f, 0);
    }
  }

  lemma RemoveList(v: VNode, who: Owner, f: Filter, who': Owner)
    requires NodesOk(Part(v, who.side))
    ensures var fs := FiltersOf(Part(v, who'.side), who'.id);
      match RemoveFrom(Part(v, who.side), who.id, f)
      case None => who == who' ==> Minus(fs, f) == fs
      case Some(ns) =>
        FiltersOf(Part(WithPart(v, who.side, ns), who'.side), who'.id) == if who == who' then Minus(fs, f) else fs
  {
    var fs := FiltersOf(Part(v, who.side), who.id);
    RemoveFromNone(Part(v, who.side), who.id, f);
    if f in fs {
      RemoveFromSome(Part(v, who.side), who.id, f, who'.id);
      MinusIs(fs, f, FindFilter(fs, f));
    } else {
      MinusNone(fs, f);
    }
  }

  lemma DeleteOneList(m: Contents, t: EventType, who: Owner, f: Filter, t': EventType, who': Owner)
    requires WellFormed(m)
    ensures var fs := Registered(m, t', who');
      Registered(DeleteOne(m, t, who, f).0, t', who') == if t == t' && who == who' then Minus(fs, f) else fs
  {
    if t in m {
      RemoveList(m[t], who, f, who');
    }
  }

  lemma AddOneList(m: Contents, t: EventType, who: Owner, f: Filter, t': EventType, who': Owner)
    requires WellFormed(m)
    ensures var fs := Registered(m, t', who');
      Registered(AddOne(m, t, who, f).0, t', who') == if t == t' && who == who' then [f] + fs else fs
  {
    if t in m {
      AddToList(Part(m[t], who.side), who.id, f, who'.id);
    } else {
      FindIs([Node(who.id, [f])], who'.id, if who.id == who'.id then 0 else 1);
    }
  }

  // ---------------------------------------------------------------- //
  // A whole update

  function Times(ts: Types, t: EventType): nat {
    multiset(ts)[t]
  }

  lemma TimesLast(ts: Types, t: EventType)
    requires ts != []
    ensures Times(ts, t) == Times(ts[..|ts| - 1], t) + if t == ts[|ts| - 1] then 1 else 0
  {
    assert ts == ts[..|ts| - 1] + [ts[|ts| - 1]];
  }

  // The types gone are types there were, each once, and the types that stay are the others.
  lemma {:induction false} DeleteAllLaw(m: Contents, ts: Types, who: Owner, f: Filter)
    requires WellFormed(m)
    ensures var (n, gone) := DeleteAll(m, ts, who, f);
      && WellFormed(n) && NoDup(gone)
      && (forall t :: t in gone ==> t in m)
      && (forall t :: t in n <==> t in m && t !in gone)
  {
    if ts != [] {
      var d, last := ts[..|ts| - 1], ts[|ts| - 1];
      DeleteAllLaw(m, d, who, f);
      var (n, gone) := DeleteAll(m, d, who, f);
      DeleteOneLaw(n, last, who, f);
      NoDupConcat(gone, if DeleteOne(n, last, who, f).1 then [last] else []);
    }
  }

  lemma {:induction false} DeleteAllOrder(m: Contents, ts: Types, who: Owner, f: Filter)
    ensures Subsequence(DeleteAll(m, ts, who, f).1, ts)
  {
    if ts != [] {
      DeleteAllOrder(m, ts[..|ts| - 1], who, f);
      AppendOrder(DeleteAll(m, ts[..|ts| - 1], who, f).1, ts);
    }
  }

  lemma AppendOrder(gs: Types, ts: Types)
    requires ts != [] && Subsequence(gs, ts[..|ts| - 1])
    ensures Subsequence(gs, ts) && Subsequence(gs + [ts[|ts| - 1]], ts)
  {
    assert (gs + [ts[|ts| - 1]])[..|gs|] == gs;
  }

  lemma {:induction false} AddAllOrder(m: Contents, ts: Types, who: Owner, f: Filter)
    ensures Subsequence(AddAll(m, ts, who, f).1, ts)
  {
    if ts != [] {
      AddAllOrder(m, ts[..|ts| - 1], who, f);
      AppendOrder(AddAll(m, ts[..|ts| - 1], who, f).1, ts);
    }
  }

  lemma {:induction false} AddAllLaw(m: Contents, ts: Types, who: Owner, f: Filter)
    requires WellFormed(m)
    ensures var (n, new_) := AddAll(m, ts, who, f);
      && WellFormed(n) && NoDup(new_)
      && (forall t :: t in new_ <==> t in ts && t !in m)
      && (forall t :: t in n <==> t in m || t in ts)
  {
    if ts != [] {
      var d, last := ts[..|ts| - 1], ts[|ts| - 1];
      AddAllLaw(m, d, who, f);
      var (n, new_) := AddAll(m, d, who, f);
      AddOneLaw(n, last, who, f);
      assert forall t :: t in ts <==> t in d || t == last;
      NoDupConcat(new_, if AddOne(n, last, who, f).1 then [last] else []);
    }
  }

  function PlusTimes(fs: seq<Filter>, f: Filter, n: nat): seq<Filter> {
    if n == 0 then fs else [f] + PlusTimes(fs, f, n - 1)
  }

  // The newest registrations of f go first.
  function MinusTimes(fs: seq<Filter>, f: Filter, n: nat): seq<Filter> {
    if n == 0 then fs else Minus(MinusTimes(fs, f, n - 1), f)
  }

  lemma {:induction false} DeleteAllList(m: Contents, ts: Types, who: Owner, f: Filter, t: EventType, who': Owner)
    requires WellFormed(m)
    ensures var fs := Registered(m, t, who');
      Registered(DeleteAll(m, ts, who, f).0, t, who') == MinusTimes(fs, f, if who == who' then Times(ts, t) else 0)
  {
    if ts != [] {
      var d, last := ts[..|ts| - 1], ts[|ts| - 1];
      var n := DeleteAll(m, d, who, f).0;
      DeleteAllList(m, d, who, f, t, who');
      DeleteAllLaw(m, d, who, f);
      DeleteOneList(n, last, who, f, t, who');
      TimesLast(ts, t);
      assert DeleteAll(m, ts, who, f).0 == DeleteOne(n, last, who, f).0;
    }
  }

  lemma {:induction false} AddAllList(m: Contents, ts: Types, who: Owner, f: Filter, t: EventType, who': Owner)
    requires WellFormed(m)
    ensures var fs := Registered(m, t, who');
      Registered(AddAll(m, ts, who, f).0, t, who') == PlusTimes(fs, f, if who == who' then Times(ts, t) else 0)
  {
    if ts != [] {
      var d, last := ts[..|ts| - 1], ts[|ts| - 1];
      var n := AddAll(m, d, who, f).0;
      AddAllList(m, d, who, f, t, who');
      AddAllLaw(m, d, who, f);
      AddOneList(n, last, who, f, t, who');
      TimesLast(ts, t);
      assert AddAll(m, ts, who, f).0 == AddOne(n, last, who, f).0;
    }
  }

  lemma {:induction false} MinusTimesCount(fs: seq<Filter>, f: Filter, n: nat, f': Filter)
    ensures var c := Occurs(fs, f');
      Occurs(MinusTimes(fs, f, n), f') == if f != f' then c else if c < n then 0 else c - n
  {
    if n > 0 {
      MinusTimesCount(fs, f, n - 1, f');
      MinusCount(MinusTimes(fs, f, n - 1), f, f');
    }
  }

  lemma {:induction false} PlusTimesCount(fs: seq<Filter>, f: Filter, n: nat, f': Filter)
    ensures Occurs(PlusTimes(fs, f, n), f') == Occurs(fs, f') + if f == f' then n else 0
  {
    if n > 0 {
      PlusTimesCount(fs, f, n - 1, f');
    }
  }

  // The list of an owner under a type after an update: the owner's own update takes the newest
  // registrations of its filter off, as often as it deletes the type, and puts the new ones first.
  lemma UpdateList(m: Contents, added: Types, deled: Types, who: Owner, f: Filter, t: EventType, who': Owner)
    requires WellFormed(m)
    ensures var fs, n := Registered(m, t, who'), UpdateMap(m, added, deled, who, f).contents;
      && WellFormed(n)
      && Registered(n, t, who') ==
           if who == who' then PlusTimes(MinusTimes(fs, f, Times(deled, t)), f, Times(added, t)) else fs
  {
    var n := DeleteAll(m, deled, who, f).0;
    DeleteAllLaw(m, deled, who, f);
    AddAllLaw(n, added, who, f);
    DeleteAllList(m, deled, who, f, t, who');
    AddAllList(n, added, who, f, t, who');
  }

  // An update takes off as many registrations of the filter as the type is deleted, as far as there
  // are any, puts on as many as it is added, and touches nobody else's.
  lemma UpdateCount(
    m: Contents, added: Types, deled: Types, who: Owner, f: Filter, t: EventType, who': Owner, f': Filter)
    requires WellFormed(m)
    ensures var c, n := Count(m, t, who', f'), UpdateMap(m, added, deled, who, f).contents;
      Count(n, t, who', f') ==
        if who != who' || f != f' then c
        else (if c < Times(deled, t) then 0 else c - Times(deled, t)) + Times(added, t)
  {
    var fs := Registered(m, t, who');
    UpdateList(m, added, deled, who, f, t, who');
    MinusTimesCount(fs, f, Times(deled, t), f');
    PlusTimesCount(MinusTimes(fs, f, Times(deled, t)), f, Times(added, t), f');
  }

  // A type is in the map exactly when somebody has a filter registered under it.
  lemma TypesAreRegistered(m: Contents, t: EventType)
    requires WellFormed(m)
    ensures t in m <==> exists who :: Registered(m, t, who) != []
  {
    if t in m {
      var side := if m[t].admn != [] then Admin else Proxy;
      var ns := Part(m[t], side);
      var who := Owner(side, ns[0].id);
      assert Registered(m, t, who) == ns[0].fltrs;
    }
  }

  // What is announced is what changes: the suppliers' list of types, updated by gadded and gdeled,
  // is again the list of the map's types, each once.  The types announced are in the order of the call's.
  lemma AnnouncementFaithful(m: Contents, view: Types, added: Types, deled: Types, who: Owner, f: Filter)
    requires WellFormed(m) && NoDup(view) && forall t :: t in view <==> t in m
    ensures var u := UpdateMap(m, added, deled, who, f);
      var view' := SubscriptionLaws.Update(view, u.gadded, u.gdeled);
      && WellFormed(u.contents) && NoDup(view') && (forall t :: t in view' <==> t in u.contents)
      && Subsequence(u.gadded, added) && Subsequence(u.gdeled, deled)
  {
    var (n, gdeled) := DeleteAll(m, deled, who, f);
    DeleteAllOrder(m, deled, who, f);
    AddAllOrder(n, added, who, f);
    DeleteAllLaw(m, deled, who, f);
    AddAllLaw(n, added, who, f);
    var u := UpdateMap(m, added, deled, who, f);
    UpdateMembers(view, u.gadded, u.gdeled);
    UpdateNoDup(view, u.gadded, u.gdeled);
  }

  datatype Call = Call(added: Types, deled: Types, who: Owner, f: Filter)

  function RunCalls(m: Contents, view: Types, calls: seq<Call>): (Contents, Types)
    decreases |calls|
  {
    if calls == [] then (m, view)
    else
      var c := calls[0];
      var u := UpdateMap(m, c.added, c.deled, c.who, c.f);
      RunCalls(u.contents, SubscriptionLaws.Update(view, u.gadded, u.gdeled), calls[1..])
  }

  // What an owner has under a type after some calls, from its own calls alone.
  function History(fs: seq<Filter>, calls: seq<Call>, t: EventType, who: Owner): seq<Filter>
    decreases |calls|
  {
    if calls == [] then fs
    else
      var c := calls[0];
      var n := if c.who != who then fs else PlusTimes(MinusTimes(fs, c.f, Times(c.deled, t)), c.f, Times(c.added, t));
      History(n, calls[1..], t, who)
  }

  // In every run each list of filters is that, the newest first.
  lemma {:induction false} ListsAreHistories(m: Contents, view: Types, calls: seq<Call>, t: EventType, who: Owner)
    requires WellFormed(m)
    ensures Registered(RunCalls(m, view, calls).0, t, who) == History(Registered(m, t, who), calls, t, who)
    decreases |calls|
  {
    if calls != [] {
      var c := calls[0];
      UpdateList(m, c.added, c.deled, c.who, c.f, t, who);
      var u := UpdateMap(m, c.added, c.deled, c.who, c.f);
      ListsAreHistories(u.contents, SubscriptionLaws.Update(view, u.gadded, u.gdeled), calls[1..], t, who);
    }
  }

  // In every run of updates, a supplier that starts with the types of the map and applies each
  // announcement knows exactly the types somebody has a filter under, each once.
  lemma {:induction false} SuppliersKnow(m: Contents, view: Types, calls: seq<Call>)
    requires WellFormed(m) && NoDup(view) && forall t :: t in view <==> t in m
    ensures var (n, view') := RunCalls(m, view, calls);
      NoDup(view') && forall t :: t in view' <==> exists who :: Registered(n, t, who) != []
    decreases |calls|
  {
    if calls == [] {
      forall t ensures t in view <==> exists who :: Registered(m, t, who) != [] {
        TypesAreRegistered(m, t);
      }
    } else {
      var c := calls[0];
      AnnouncementFaithful(m, view, c.added, c.deled, c.who, c.f);
      var u := UpdateMap(m, c.added, c.deled, c.who, c.f);
      SuppliersKnow(u.contents, SubscriptionLaws.Update(view, u.gadded, u.gdeled), calls[1..]);
    }
  }

  // ---------------------------------------------------------------- //
  // Normal types

  ghost predicate NormalTypes(m: Contents) {
    forall t :: t in m ==> Normal(t)
  }

  // The added types of every call have passed valid_sequence.
  predicate Validated(calls: seq<Call>) {
    forall i :: 0 <= i < |calls| ==> NormalSeq(calls[i].added)
  }

  lemma UpdateKeepsNormal(m: Contents, added: Types, deled: Types, who: Owner, f: Filter)
    requires WellFormed(m) && NormalTypes(m) && NormalSeq(added)
    ensures var u := UpdateMap(m, added, deled, who, f);
      WellFormed(u.contents) && NormalTypes(u.contents) && NormalSeq(u.gadded) && NormalSeq(u.gdeled)
  {
    var (n, gdeled) := DeleteAll(m, deled, who, f);
    var (r, gadded) := AddAll(n, added, who, f);
    DeleteAllLaw(m, deled, who, f);
    AddAllLaw(n, added, who, f);
    forall i | 0 <= i < |gdeled| ensures Normal(gdeled[i]) {
      assert gdeled[i] in gdeled;
    }
    forall i | 0 <= i < |gadded| ensures Normal(gadded[i]) {
      assert gadded[i] in gadded;
    }
  }

  // In every run of validated calls the types in the map stay normal.
  lemma {:induction false} RunKeepsNormal(m: Contents, view: Types, calls: seq<Call>)
    requires WellFormed(m) && NormalTypes(m) && Validated(calls)
    ensures NormalTypes(RunCalls(m, view, calls).0)
    decreases |calls|
  {
    if calls != [] {
      var c := calls[0];
      UpdateKeepsNormal(m, c.added, c.deled, c.who, c.f);
      var u := UpdateMap(m, c.added, c.deled, c.who, c.f);
      RunKeepsNormal(u.contents, SubscriptionLaws.Update(view, u.gadded, u.gdeled), calls[1..]);
    }
  }

  // The list of a supplier that is sent the announcements in the external form.
  function RunExternal(m: Contents, view: Types, calls: seq<Call>): Types
    decreases |calls|
  {
    if calls == [] then view
    else
      var c := calls[0];
      var u := UpdateMap(m, c.added, c.deled, c.who, c.f);
      RunExternal(u.contents,
                  SubscriptionLaws.Update(view, ExternalizeSeq(u.gadded), ExternalizeSeq(u.gdeled)), calls[1..])
  }

  // In every run of validated calls that list is the external form of the list of SuppliersKnow.
  lemma {:induction false} SuppliersSee(m: Contents, view: Types, calls: seq<Call>)
    requires WellFormed(m) && NormalTypes(m) && NormalSeq(view) && Validated(calls)
    ensures RunExternal(m, ExternalizeSeq(view), calls) == ExternalizeSeq(RunCalls(m, view, calls).1)
    ensures NormalSeq(RunCalls(m, view, calls).1)
    decreases |calls|
  {
    if calls != [] {
      var c := calls[0];
      var u := UpdateMap(m, c.added, c.deled, c.who, c.f);
      UpdateKeepsNormal(m, c.added, c.deled, c.who, c.f);
      UpdateExternal(view, u.gadded, u.gdeled);
      UpdateNormal(view, u.gadded, u.gdeled);
      SuppliersSee(u.contents, SubscriptionLaws.Update(view, u.gadded, u.gdeled), calls[1..]);
    }
  }

  // So from an empty map on, validating what the supplier has gives exactly the types somebody has a
  // filter under, each once.
  lemma SuppliersRecover(calls: seq<Call>)
    requires Validated(calls)
    ensures var known := RewriteSeq(RunExternal(map[], [], calls));
      && AcceptableSeq(RunExternal(map[], [], calls)) && NoDup(known)
      && forall t :: t in known <==> exists who :: Registered(RunCalls(map[], [], calls).0, t, who) != []
  {
    SuppliersSee(map[], [], calls);
    SuppliersKnow(map[], [], calls);
    assert ExternalizeSeq([]) == [];
    ExternalizeRoundTrip(RunCalls(map[], [], calls).1);
  }

  // How that list spells them: a filter under all events shows as ("", "%ALL") and in no other way, every
  // other type as itself.
  lemma SuppliersSpelling(calls: seq<Call>, t: EventType)
    requires Validated(calls)
    ensures var l, m := RunExternal(map[], [], calls), RunCalls(map[], [], calls).0;
      && EventType("*", "*") !in l
      && (EventType("", "%ALL") in l <==> exists who :: Registered(m, EventType("*", "*"), who) != [])
      && (t !in {EventType("*", "*"), EventType("", "%ALL")} ==>
            (t in l <==> exists who :: Registered(m, t, who) != []))
  {
    var view := RunCalls(map[], [], calls).1;
    SuppliersSee(map[], [], calls);
    SuppliersKnow(map[], [], calls);
    assert ExternalizeSeq([]) == [];
    ExternalMembers(view, t);
  }

  lemma ExternalMembers(view: Types, t: EventType)
    requires NormalSeq(view)
    ensures var l := ExternalizeSeq(view);
      && EventType("*", "*") !in l
      && (EventType("", "%ALL") in l <==> EventType("*", "*") in view)
      && (t !in {EventType("*", "*"), EventType("", "%ALL")} ==> (t in l <==> t in view))
  {
    var l := ExternalizeSeq(view);
    forall i | 0 <= i < |view|
      ensures l[i] == if view[i] == EventType("*", "*") then EventType("", "%ALL") else view[i]
    {
      ExternalForm(view, i);
    }
    forall x | x in view
      ensures (if x == EventType("*", "*") then EventType("", "%ALL") else x) in l
      ensures x != EventType("", "%ALL")
    {
      var i :| 0 <= i < |view| && view[i] == x;
      assert l[i] in l && Normal(view[i]);
    }
  }

  // ---------------------------------------------------------------- //
  // Lookup

  // FList_t
  datatype FList = FList(starStar: seq<Filter>, domnStar: seq<Filter>, starType: seq<Filter>, domnType: seq<Filter>)

  function LookupFilters(m: Contents, domain: string, name: string, who: Owner): FList {
    FList(Registered(m, EventType("*", "*"), who), Registered(m, EventType(domain, "*"), who),
          Registered(m, EventType("*", name), who), Registered(m, EventType(domain, name), who))
  }

  predicate Listed(l: FList, f: Filter) {
    f in l.starStar || f in l.domnStar || f in l.starType || f in l.domnType
  }

  // The four types a lookup tries are, for every event, the ones that dominate its type, exactly for
  // types in the spelling valid_sequence leaves: "*" for any domain, and no "%ALL" with it.
  lemma ProbesAreDominators(t: EventType)
    ensures (forall domain, name :: Matches(t, domain, name) <==> Dominates(t, EventType(domain, name)))
      <==> Canon(t) == t
  {
    if Canon(t) != t {
      var domain := "a";
      var name := if t.name == "%ALL" then "b" else t.name;
      assert Dominates(t, EventType(domain, name));
      assert !Matches(t, domain, name);
    }
  }

  lemma NormalIsCanon(t: EventType)
    requires Normal(t)
    ensures Canon(t) == t
  {
  }

  // A lookup finds the filters the owner has under any type that dominates the event's, sorted by how the
  // type is spelled.
  lemma LookupFindsDominating(m: Contents, domain: string, name: string, who: Owner, f: Filter)
    requires NormalTypes(m)
    ensures var l := LookupFilters(m, domain, name, who);
      && (Listed(l, f) <==>
            exists t :: t in m && Dominates(t, EventType(domain, name)) && f in Registered(m, t, who))
      && l.starStar == Registered(m, EventType("*", "*"), who)
      && l.domnStar == Registered(m, EventType(domain, "*"), who)
      && l.starType == Registered(m, EventType("*", name), who)
      && l.domnType == Registered(m, EventType(domain, name), who)
  {
    forall t | t in m ensures Matches(t, domain, name) <==> Dominates(t, EventType(domain, name)) {
      NormalIsCanon(t);
      ProbesAreDominators(t);
    }
  }

  // And so it does after any run of validated calls from an empty map; each of the four lists is then what
  // the owner's own calls have left under that spelling, the newest first.
  lemma LookupAfterRun(calls: seq<Call>, domain: string, name: string, who: Owner, f: Filter)
    requires Validated(calls)
    ensures var m := RunCalls(map[], [], calls).0;
      var l := LookupFilters(m, domain, name, who);
      && (Listed(l, f) <==>
            exists t :: t in m && Dominates(t, EventType(domain, name)) && f in Registered(m, t, who))
      && l.starStar == History([], calls, EventType("*", "*"), who)
      && l.domnStar == History([], calls, EventType(domain, "*"), who)
      && l.starType == History([], calls, EventType("*", name), who)
      && l.domnType == History([], calls, EventType(domain, name), who)
  {
    RunKeepsNormal(map[], [], calls);
    LookupFindsDominating(RunCalls(map[], [], calls).0, domain, name, who, f);
    ListsAreHistories(map[], [], calls, EventType("*", "*"), who);
    ListsAreHistories(map[], [], calls, EventType(domain, "*"), who);
    ListsAreHistories(map[], [], calls, EventType("*", name), who);
    ListsAreHistories(map[], [], calls, EventType(domain, name), who);
  }
}
