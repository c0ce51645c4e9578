/** RDI_TypeMap (lib/RDITypeMap.cc) over the hash table it is kept in. */
module TypeMap {
  import opened Sequences
  import opened EventType
  import opened SubscriptionLaws
  import opened TypeMapLaws
  import MapTable
  import opened Strings

  type Tmap = MapTable.MapTable<EventType, VNode>

  method NewTmap(hsize: nat) returns (t: Tmap)
    ensures t.Valid() && fresh(t.Repr) && t.contents == map[]
  {
    forall a, b ensures EventRank(a, b) == 0 <==> a == b {
      EventRankEqual(a, b);
    }
    t := new MapTable.MapTable(EventHash, EventRank, hsize, 20);
  }

  // One type of the deleted list.
  method DeleteType(t: Tmap, et: EventType, who: Owner, f: Filter) returns (gone: bool)
    requires t.Valid()
    modifies t.Repr
    ensures t.Valid()
    ensures fresh(t.Repr - old(t.Repr))
    ensures (t.contents, gone) == DeleteOne(old(t.contents), et, who, f)
  {
    var found := t.Get(et);
    if found == None {
      return false;
    }
    var value := found.value;
    var ns := RemoveFrom(Part(value, who.side), who.id, f);
    if ns == None {
      return false;
    }
    value := WithPart(value, who.side, ns.value);
    if value.admn == [] && value.prxy == [] {
      t.Remove(et);
      return true;
    }
    t.Replace(et, value);
    return false;
  }

  // One type of the added list.
  method AddType(t: Tmap, et: EventType, who: Owner, f: Filter) returns (ok: bool, new_: bool)
    requires t.Valid()
    modifies t.Repr
    ensures t.Valid()
    ensures fresh(t.Repr - old(t.Repr))
    ensures ok && (t.contents, new_) == AddOne(old(t.contents), et, who, f)
  {
    ok, new_ := true, false;
    var found := t.Get(et);
    if found == None {
      var rc := t.Insert(et, WithPart(VNode([], []), who.side, [Node(who.id, [f])]));
      return rc == 0, true;
    }
    t.Replace(et, WithPart(found.value, who.side, AddTo(Part(found.value, who.side), who.id, f)));
  }

  // The lists of a type, as far as they are `who`'s.
  method FindFilters(ns: seq<Node>, id: nat) returns (fs: seq<Filter>)
    ensures fs == FiltersOf(ns, id)
  {
    var i := 0;
    while i < |ns| && ns[i].id != id
      invariant 0 <= i <= |ns| && forall j :: 0 <= j < i ==> ns[j].id != id
    {
      i := i + 1;
    }
    FindIs(ns, id, i);
    return if i < |ns| then ns[i].fltrs else [];
  }

  class TypeMap {
    const tmap: Tmap

    ghost predicate Valid()
      reads this, tmap, tmap.Repr
    {
      this !in tmap.Repr && tmap.Valid()
    }

    // What is registered.
    ghost function Contents(): Contents
      reads tmap
    {
      tmap.contents
    }

    constructor (hsize: nat)
      ensures Valid() && fresh(tmap.Repr) && Contents() == map[]
    {
      var t := NewTmap(hsize);
      tmap := t;
    }

    method DeleteTypes(deled: Types, who: Owner, f: Filter) returns (gdeled: Types)
      requires Valid()
      modifies tmap.Repr
      ensures Valid()
      ensures fresh(tmap.Repr - old(tmap.Repr))
      ensures (Contents(), gdeled) == DeleteAll(old(Contents()), deled, who, f)
    {
      gdeled := [];
      ghost var ms, gs := DeletePlan(Contents(), deled, who, f);
      for indx := 0 to |deled|
        invariant Valid()
        invariant fresh(tmap.Repr - old(tmap.Repr))
        invariant Contents() == ms[indx] && gdeled == gs[indx]
      {
        var gone := DeleteType(tmap, deled[indx], who, f);
        assert DeleteStep(ms, gs, deled, who, f, indx);
        if gone {
          gdeled := gdeled + [deled[indx]];
        }
      }
    }

    method AddTypes(added: Types, who: Owner, f: Filter) returns (ok: bool, gadded: Types)
      requires Valid()
      modifies tmap.Repr
      ensures Valid()
      ensures fresh(tmap.Repr - old(tmap.Repr))
      ensures ok && (Contents(), gadded) == AddAll(old(Contents()), added, who, f)
    {
      ok, gadded := true, [];
      ghost var ms, gs := AddPlan(Contents(), added, who, f);
      for indx := 0 to |added|
        invariant Valid()
        invariant fresh(tmap.Repr - old(tmap.Repr))
        invariant ok && Contents() == ms[indx] && gadded == gs[indx]
      {
        var new_;
        ok, new_ := AddType(tmap, added[indx], who, f);
        if !ok {
          return false, gadded;
        }
        assert AddStep(ms, gs, added, who, f, indx);
        if new_ {
          gadded := gadded + [added[indx]];
        }
      }
    }

    // update, for an admin or a proxy, and what it announces to the suppliers.
    method Update(added: Types, deled: Types, who: Owner, f: Filter) returns (ok: bool, gadded: Types, gdeled: Types)
      requires Valid()
      modifies tmap.Repr
      ensures Valid()
      ensures fresh(tmap.Repr - old(tmap.Repr))
      ensures ok && Updated(Contents(), gadded, gdeled) == UpdateMap(old(Contents()), added, deled, who, f)
    {
      gdeled := DeleteTypes(deled, who, f);
      ok, gadded := AddTypes(added, who, f);
    }

    method Probe(domain: string, name: string, who: Owner) returns (fs: seq<Filter>)
      requires Valid()
      ensures fs == Registered(Contents(), EventType(domain, name), who)
    {
      var found := tmap.Get(EventType(domain, name));
      fs := [];
      if found.Some? {
        fs := FindFilters(Part(found.value, who.side), who.id);
      }
    }

    method Lookup(domain: string, name: string, who: Owner) returns (filters: FList)
      requires Valid()
      ensures filters == LookupFilters(Contents(), domain, name, who)
      ensures filters.starStar == Registered(Contents(), EventType("*", "*"), who)
      ensures filters.domnStar == Registered(Contents(), EventType(domain, "*"), who)
      ensures filters.starType == Registered(Contents(), EventType("*", name), who)
      ensures filters.domnType == Registered(Contents(), EventType(domain, name), who)
    {
      var starStar := Probe("*", "*", who);
      var starType := Probe("*", name, who);
      var domnStar := Probe(domain, "*", who);
      var domnType := Probe(domain, name, who);
      filters := FList(starStar, domnStar, starType, domnType);
    }

    method ObtainSubscriptionTypes() returns (typeseq: Types)
      requires Valid()
      ensures NoDup(typeseq) && |typeseq| == |Contents()|
      ensures forall t :: t in typeseq <==> t in Contents()
    {
      typeseq := tmap.Keys();
    }
  }
}
