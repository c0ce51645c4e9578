/** The name index of a structured event (include/RDIEvent.h): which variable-header field and which
    filterable-data field a property name stands for.  Field values are opaque, so a lookup's answer
    is the place of the field. */
module NameIndex {
  import opened Sequences
  import MapTable
  import opened Strings

  // The names of one part of an event, in order; a null name is None.
  type Names = seq<Option<string>>

  // Val_t
  datatype Val = Val(vahdr: Option<nat>, fdata: Option<nat>)

  // ---------------------------------------------------------------- //
  // Linear scans

  function First(ns: Names, nm: string): (r: Option<nat>)
    ensures r == None <==> forall i :: 0 <= i < |ns| ==> ns[i] != Some(nm)
    ensures r.Some? ==> r.value < |ns| && ns[r.value] == Some(nm)
    ensures r.Some? ==> forall i :: 0 <= i < r.value ==> ns[i] != Some(nm)
  {
    if ns == [] then None
    else
      var r := First(ns[..|ns| - 1], nm);
      if r.Some? then r else if ns[|ns| - 1] == Some(nm) then Some(|ns| - 1) else None
  }

  function Last(ns: Names, nm: string): (r: Option<nat>)
    ensures r == None <==> forall i :: 0 <= i < |ns| ==> ns[i] != Some(nm)
    ensures r.Some? ==> r.value < |ns| && ns[r.value] == Some(nm)
    ensures r.Some? ==> forall i :: r.value < i < |ns| ==> ns[i] != Some(nm)
  {
    if ns == [] then None
    else if ns[|ns| - 1] == Some(nm) then Some(|ns| - 1)
    else Last(ns[..|ns| - 1], nm)
  }

  lemma FirstNext(ns: Names, i: nat, nm: string)
    requires i < |ns|
    ensures First(ns[..i + 1], nm) ==
      var r := First(ns[..i], nm); if r.Some? then r else if ns[i] == Some(nm) then Some(i) else None
  {
    assert ns[..i + 1][..i] == ns[..i];
  }

  lemma LastNext(ns: Names, i: nat, nm: string)
    requires i < |ns|
    ensures Last(ns[..i + 1], nm) == if ns[i] == Some(nm) then Some(i) else Last(ns[..i], nm)
  {
    assert ns[..i + 1][..i] == ns[..i];
  }

  // A map that answers for every name as the scans do.
  ghost predicate Indexes(m: map<string, Val>, vh: Names, fd: Names) {
    && (forall nm :: nm in m <==> First(vh, nm).Some? || Last(fd, nm).Some?)
    && (forall nm :: nm in m ==> m[nm] == Val(First(vh, nm), Last(fd, nm)))
  }

  // The index after one more field of the variable header, and of the filterable data.
  function AddedHeader(m: map<string, Val>, nm: string, i: nat): map<string, Val> {
    if nm in m then m else m[nm := Val(Some(i), None)]
  }

  function AddedData(m: map<string, Val>, nm: string, i: nat): map<string, Val> {
    m[nm := if nm in m then m[nm].(fdata := Some(i)) else Val(None, Some(i))]
  }

  lemma IndexHeader(m: map<string, Val>, vh: Names, i: nat)
    requires i < |vh| && Indexes(m, vh[..i], [])
    ensures vh[i] == None ==> Indexes(m, vh[..i + 1], [])
    ensures vh[i].Some? ==> Indexes(AddedHeader(m, vh[i].value, i), vh[..i + 1], [])
  {
    var m' := if vh[i] == None then m else AddedHeader(m, vh[i].value, i);
    forall nm ensures nm in m' <==> First(vh[..i + 1], nm).Some?
      ensures nm in m' ==> m'[nm] == Val(First(vh[..i + 1], nm), None)
    {
      FirstNext(vh, i, nm);
    }
  }

  lemma IndexData(m: map<string, Val>, vh: Names, fd: Names, i: nat)
    requires i < |fd| && Indexes(m, vh, fd[..i])
    ensures fd[i] == None ==> Indexes(m, vh, fd[..i + 1])
    ensures fd[i].Some? ==> Indexes(AddedData(m, fd[i].value, i), vh, fd[..i + 1])
  {
    var m' := if fd[i] == None then m else AddedData(m, fd[i].value, i);
    forall nm ensures nm in m' <==> First(vh, nm).Some? || Last(fd[..i + 1], nm).Some?
      ensures nm in m' ==> m'[nm] == Val(First(vh, nm), Last(fd[..i + 1], nm))
    {
      LastNext(fd, i, nm);
    }
  }

  // ---------------------------------------------------------------- //
  // The index in the hash table

  type Table = MapTable.MapTable<string, Val>

  method NewTable() returns (t: Table)
    ensures t.Valid() && fresh(t.Repr) && t.contents == map[]
  {
    forall a, b ensures StrRank(a, b) == 0 <==> a == b {
      StrRankEqual(a, b);
    }
    t := new MapTable.MapTable(StrHash, StrRank, 32, 10);
  }

  method AddHeader(t: Table, nm: string, i: nat)
    requires t.Valid()
    modifies t.Repr
    ensures t.Valid()
    ensures fresh(t.Repr - old(t.Repr))
    ensures t.contents == AddedHeader(old(t.contents), nm, i)
  {
    var rc := t.Insert(nm, Val(Some(i), None));
  }

  method AddData(t: Table, nm: string, i: nat)
    requires t.Valid()
    modifies t.Repr
    ensures t.Valid()
    ensures fresh(t.Repr - old(t.Repr))
    ensures t.contents == AddedData(old(t.contents), nm, i)
  {
    var vnode := t.Get(nm);
    if vnode.Some? {
      t.Replace(nm, vnode.value.(fdata := Some(i)));
    } else {
      var rc := t.Insert(nm, Val(None, Some(i)));
    }
  }

  // One name of a field, if it has one.
  method IndexHeaderAt(t: Table, vh: Names, i: nat)
    requires i < |vh| && t.Valid() && Indexes(t.contents, vh[..i], [])
    modifies t.Repr
    ensures t.Valid()
    ensures fresh(t.Repr - old(t.Repr))
    ensures Indexes(t.contents, vh[..i + 1], [])
  {
    IndexHeader(t.contents, vh, i);
    if vh[i].Some? {
      AddHeader(t, vh[i].value, i);
    }
  }

  method IndexHeaders(t: Table, vh: Names)
    requires t.Valid() && t.contents == map[]
    modifies t.Repr
    ensures t.Valid()
    ensures fresh(t.Repr - old(t.Repr))
    ensures Indexes(t.contents, vh, [])
  {
    for i := 0 to |vh|
      invariant t.Valid()
      invariant fresh(t.Repr - old(t.Repr))
      invariant Indexes(t.contents, vh[..i], [])
    {
      IndexHeaderAt(t, vh, i);
    }
    assert vh[..|vh|] == vh;
  }

  method IndexDataFields(t: Table, ghost vh: Names, fd: Names)
    requires t.Valid() && Indexes(t.contents, vh, [])
    modifies t.Repr
    ensures t.Valid()
    ensures fresh(t.Repr - old(t.Repr))
    ensures Indexes(t.contents, vh, fd)
  {
    for i := 0 to |fd|
      invariant t.Valid()
      invariant fresh(t.Repr - old(t.Repr))
      invariant Indexes(t.contents, vh, fd[..i])
    {
      IndexData(t.contents, vh, fd, i);
      if fd[i].Some? {
        AddData(t, fd[i].value, i);
      }
    }
    assert fd[..|fd|] == fd;
  }

  // The two loops of _init_vmap.
  method IndexFields(t: Table, vh: Names, fd: Names)
    requires t.Valid() && t.contents == map[]
    modifies t.Repr
    ensures t.Valid()
    ensures fresh(t.Repr - old(t.Repr))
    ensures Indexes(t.contents, vh, fd)
  {
    IndexHeaders(t, vh);
    IndexDataFields(t, vh, fd);
  }

  // ---------------------------------------------------------------- //
  // Events

  // A member of a struct or union as a DynAny shows it: its name, and whether its value can be read.
  datatype Member = Member(name: string, readable: bool)

  // What a DynAny finds in the value of an event that is an any.
  datatype AnyValue = Plain | Struct(members: seq<Member>) | Union(name: Option<string>, readable: bool)

  datatype Body = Structured(variableHeader: Names, filterableData: Names) | Any(value: AnyValue)

  function MemberNames(ms: seq<Member>): (ns: Names)
    ensures |ns| == |ms| && forall i :: 0 <= i < |ms| ==> ns[i] == if ms[i].readable then Some(ms[i].name) else None
  {
    seq(|ms|, i requires 0 <= i < |ms| => if ms[i].readable then Some(ms[i].name) else None)
  }

  // The names that index an event: those of its two parts, or the members of the any's value.
  function HeaderNames(b: Body): Names {
    match b
    case Structured(vh, _) => vh
    case Any(Plain) => []
    case Any(Struct(ms)) => MemberNames(ms)
    case Any(Union(name, readable)) => if name.Some? && readable then [name] else []
  }

  // Where a scan of those names finds a name in an any: at the first readable member of it in a struct,
  // and for a union at its member, if that has the name and can be read.
  ghost predicate FoundInAny(value: AnyValue, nm: string, r: Option<nat>) {
    match value
    case Plain => r == None
    case Union(name, readable) => r == if readable && name == Some(nm) then Some(0) else None
    case Struct(ms) =>
      match r
      case None => forall i :: 0 <= i < |ms| ==> !(ms[i].readable && ms[i].name == nm)
      case Some(k) =>
        && k < |ms| && ms[k].readable && ms[k].name == nm
        && forall i :: 0 <= i < k ==> !(ms[i].readable && ms[i].name == nm)
  }

  lemma AnyNames(value: AnyValue, nm: string)
    ensures FoundInAny(value, nm, First(HeaderNames(Any(value)), nm))
  {
    var ns := HeaderNames(Any(value));
    if value.Struct? {
      assert forall i :: 0 <= i < |ns| ==>
        (ns[i] == Some(nm) <==> value.members[i].readable && value.members[i].name == nm);
    }
  }

  function DataNames(b: Body): Names {
    if b.Structured? then b.filterableData else []
  }

  // The index of an any: the place found for every name it has, and no other name.
  ghost predicate AnyIndexed(m: map<string, Val>, value: AnyValue) {
    && (forall nm :: nm in m ==> m[nm].vahdr.Some? && m[nm].fdata == None && FoundInAny(value, nm, m[nm].vahdr))
    && (forall nm :: nm !in m ==> FoundInAny(value, nm, None))
  }

  lemma AnyIsIndexed(value: AnyValue)
    ensures forall m :: Indexes(m, HeaderNames(Any(value)), []) ==> AnyIndexed(m, value)
  {
    forall nm ensures FoundInAny(value, nm, First(HeaderNames(Any(value)), nm)) {
      AnyNames(value, nm);
    }
  }

  // _init_vmap_from_any
  method IndexAny(t: Table, value: AnyValue)
    requires t.Valid() && t.contents == map[]
    modifies t.Repr
    ensures t.Valid()
    ensures fresh(t.Repr - old(t.Repr))
    ensures Indexes(t.contents, HeaderNames(Any(value)), [])
    ensures AnyIndexed(t.contents, value)
  {
    AnyIsIndexed(value);
    match value
    case Plain =>
    case Struct(members) => IndexMembers(t, members);
    case Union(name, readable) => IndexUnion(t, name, readable);
  }

  method IndexUnion(t: Table, name: Option<string>, readable: bool)
    requires t.Valid() && t.contents == map[]
    modifies t.Repr
    ensures t.Valid()
    ensures fresh(t.Repr - old(t.Repr))
    ensures Indexes(t.contents, HeaderNames(Any(Union(name, readable))), [])
  {
    if name == None {
      return;
    }
    if !readable {
      return;
    }
    IndexHeader(t.contents, [name], 0);
    AddHeader(t, name.value, 0);
  }

  method IndexMemberAt(t: Table, member: Member, ghost ns: Names, i: nat)
    requires i < |ns| && ns[i] == (if member.readable then Some(member.name) else None)
    requires t.Valid() && Indexes(t.contents, ns[..i], [])
    modifies t.Repr
    ensures t.Valid()
    ensures fresh(t.Repr - old(t.Repr))
    ensures Indexes(t.contents, ns[..i + 1], [])
  {
    IndexHeader(t.contents, ns, i);
    if member.readable {
      AddHeader(t, member.name, i);
    }
  }

  method IndexMembers(t: Table, members: seq<Member>)
    requires t.Valid() && t.contents == map[]
    modifies t.Repr
    ensures t.Valid()
    ensures fresh(t.Repr - old(t.Repr))
    ensures Indexes(t.contents, MemberNames(members), [])
  {
    ghost var ns := MemberNames(members);
    for i := 0 to |members|
      invariant t.Valid()
      invariant fresh(t.Repr - old(t.Repr))
      invariant Indexes(t.contents, ns[..i], [])
    {
      IndexMemberAt(t, members[i], ns, i);
    }
    assert ns[..|ns|] == ns;
  }

  method NewIndex(body: Body) returns (t: Table)
    ensures t.Valid() && fresh(t.Repr)
    ensures Indexes(t.contents, HeaderNames(body), DataNames(body))
  {
    t := NewTable();
    if body.Any? {
      IndexAny(t, body.value);
    } else {
      IndexFields(t, body.variableHeader, body.filterableData);
    }
  }

  // RDI_StructuredEvent
  class Event {
    const body: Body
    var vmap: MapTable.MapTable?<string, Val>
    ghost var Repr: set<object>

    ghost predicate Valid()
      reads this, Repr
    {
      vmap != null ==>
        && vmap in Repr && vmap.Repr <= Repr && this !in Repr
        && vmap.Valid() && Indexes(vmap.contents, HeaderNames(body), DataNames(body))
    }

    constructor (body: Body)
      ensures Valid() && vmap == null && this.body == body
    {
      this.body := body;
      vmap, Repr := null, {};
    }

    // _init_vmap: the index is built once, on the first lookup.
    method InitVmap()
      requires Valid()
      modifies this
      ensures Valid() && vmap != null
      ensures old(vmap) != null ==> vmap == old(vmap)
    {
      if vmap != null {
        return;
      }
      var t := NewIndex(body);
      vmap, Repr := t, {t} + t.Repr;
    }

    // The index finds for a name the variable-header field of that name that comes first, and the
    // filterable-data field of that name that comes last.
    method LookupName(nm: string) returns (vnode: Option<Val>)
      requires Valid()
      modifies this
      ensures Valid()
      ensures vnode == var v := Val(First(HeaderNames(body), nm), Last(DataNames(body), nm));
                       if v == Val(None, None) then None else Some(v)
    {
      InitVmap();
      vnode := vmap.Get(nm);
    }

    method LookupVahdr(nm: string) returns (r: Option<nat>)
      requires Valid()
      modifies this
      ensures Valid()
      ensures r == if body.Any? then None else First(body.variableHeader, nm)
    {
      if body.Any? {
        return None;
      }
      var vnode := LookupName(nm);
      return if vnode.Some? then vnode.value.vahdr else None;
    }

    method LookupFdata(nm: string) returns (r: Option<nat>)
      requires Valid()
      modifies this
      ensures Valid()
      ensures r == if body.Any? then None else Last(body.filterableData, nm)
    {
      if body.Any? {
        return None;
      }
      var vnode := LookupName(nm);
      return if vnode.Some? then vnode.value.fdata else None;
    }

    // A place in the variable header, or one in the filterable data when the name is not in the header;
    // for an any, the place of the first readable member of the name.
    method LookupRtval(nm: string) returns (vahdr: Option<nat>, fdata: Option<nat>)
      requires Valid()
      modifies this
      ensures Valid()
      ensures vahdr == First(HeaderNames(body), nm)
      ensures fdata == if vahdr.Some? then None else Last(DataNames(body), nm)
      ensures body.Any? ==> FoundInAny(body.value, nm, vahdr) && fdata == None
      ensures body.Structured? ==>
        vahdr == First(body.variableHeader, nm) && (vahdr == None ==> fdata == Last(body.filterableData, nm))
    {
      if body.Any? {
        AnyNames(body.value, nm);
      }
      var vnode := LookupName(nm);
      if vnode.Some? {
        if vnode.value.vahdr.Some? {
          return vnode.value.vahdr, None;
        }
        return None, vnode.value.fdata;
      }
      return None, None;
    }

    method LookupVahdrAt(idx: nat) returns (r: Option<nat>)
      requires Valid()
      modifies this
      ensures Valid()
      ensures r == if body.Any? || idx >= |body.variableHeader| then None else Some(idx)
    {
      if body.Any? {
        return None;
      }
      if idx >= |body.variableHeader| {
        return None;
      }
      InitVmap();
      return Some(idx);
    }

    method LookupFdataAt(idx: nat) returns (r: Option<nat>)
      requires Valid()
      modifies this
      ensures Valid()
      ensures r == if body.Any? || idx >= |body.filterableData| then None else Some(idx)
    {
      if body.Any? {
        return None;
      }
      if idx >= |body.filterableData| {
        return None;
      }
      InitVmap();
      return Some(idx);
    }
  }
}
