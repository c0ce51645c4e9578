/** parse_etype_list (examples/parse_cmd_line.h): a comma-separated list of event types D::T, parsed by
    writing NULs over the separators of a copied buffer, and the printer of event types of
    examples/sample_functions.cc that it inverts. */
module EtypeParser {
  import opened EventType
  import opened Sequences
  import opened Subscription

  // The place of the first c at or after b, the length if there is none.
  function Find(s: string, b: nat, c: char): (r: nat)
    requires b <= |s|
    ensures b <= r <= |s|
    ensures r < |s| ==> s[r] == c
    ensures forall i :: b <= i < r ==> s[i] != c
    decreases |s| - b
  {
    if b == |s| || s[b] == c then b else Find(s, b + 1, c)
  }

  // One item: cut at its first colon, which another colon must follow.
  function ParseItem(s: string): Option<EventType> {
    var m := Find(s, 0, ':');
    if m == |s| then None
    else if m + 1 == |s| || s[m + 1] != ':' then None
    else if m == 0 || m + 2 == |s| then None
    else Some(EventType(s[..m], s[m + 2..]))
  }

  // The items from the front, as far as they parse, and whether all do.
  function ParseItems(s: string): (seq<EventType>, bool)
    decreases |s|
  {
    var e := Find(s, 0, ',');
    var t := ParseItem(s[..e]);
    if t.None? then ([], false)
    else if e == |s| then ([t.value], true)
    else var (ts, ok) := ParseItems(s[e + 1..]); ([t.value] + ts, ok)
  }

  // ---------------------------------------------------------------- //
  // The printer

  function Print(t: EventType): string {
    t.domain + "::" + t.name
  }

  function PrintList(ts: seq<EventType>): string
    requires ts != []
  {
    if |ts| == 1 then Print(ts[0]) else Print(ts[0]) + "," + PrintList(ts[1..])
  }

  // What the list syntax can say: no empty part, no comma, and no colon in the domain.
  predicate Printable(t: EventType) {
    && t.domain != "" && ':' !in t.domain && ',' !in t.domain
    && t.name != "" && ',' !in t.name
  }

  predicate PrintableList(ts: seq<EventType>) {
    ts != [] && forall i :: 0 <= i < |ts| ==> Printable(ts[i])
  }

  lemma FindIs(s: string, c: char, r: nat)
    requires r <= |s| && (r < |s| ==> s[r] == c) && c !in s[..r]
    ensures Find(s, 0, c) == r
  {
  }

  // An item parses to a type exactly when it is the type printed, and the type can be printed.
  lemma ItemExactly(s: string, t: EventType)
    requires ',' !in s
    ensures ParseItem(s) == Some(t) <==> Printable(t) && s == Print(t)
  {
    if ParseItem(s) == Some(t) {
      var m := Find(s, 0, ':');
      assert s == s[..m] + [':', ':'] + s[m + 2..];
      assert forall c :: c in t.domain || c in t.name ==> c in s;
      assert ':' !in t.domain;
    }
    if Printable(t) && s == Print(t) {
      var m := |t.domain|;
      assert s[..m] == t.domain && s[m] == s[m + 1] == ':' && s[m + 2..] == t.name;
      FindIs(s, ':', m);
    }
  }

  lemma NoComma(t: EventType)
    requires Printable(t)
    ensures ',' !in Print(t)
  {
  }

  // The items of a list from its first item, and of a list that is one item.
  lemma ItemsFirst(item: string, rest: string)
    requires ',' !in item
    ensures ParseItems(item + "," + rest) ==
      match ParseItem(item) case None => ([], false) case Some(t) => ([t] + ParseItems(rest).0, ParseItems(rest).1)
  {
    var s := item + "," + rest;
    assert s[..|item|] == item && s[|item| + 1..] == rest;
    FindIs(s, ',', |item|);
  }

  lemma ItemsOnly(item: string)
    requires ',' !in item
    ensures ParseItems(item) == match ParseItem(item) case None => ([], false) case Some(t) => ([t], true)
  {
    assert item[..|item|] == item;
    FindIs(item, ',', |item|);
  }

  // A list is one item, or a first item, a comma and a list.
  lemma CutFirst(s: string) returns (item: string, rest: string)
    ensures ',' !in item && if ',' in s then s == item + "," + rest && |rest| < |s| else s == item
  {
    var e := Find(s, 0, ',');
    item, rest := s[..e], if e < |s| then s[e + 1..] else "";
  }

  lemma ItemsOfPrinted(t: EventType, rest: string)
    requires Printable(t)
    ensures ParseItems(Print(t) + "," + rest) == ([t] + ParseItems(rest).0, ParseItems(rest).1)
    ensures ParseItems(Print(t)) == ([t], true)
  {
    NoComma(t);
    ItemExactly(Print(t), t);
    ItemsFirst(Print(t), rest);
    ItemsOnly(Print(t));
  }

  lemma {:induction false} PrintThenParse(ts: seq<EventType>)
    requires PrintableList(ts)
    ensures ParseItems(PrintList(ts)) == (ts, true)
    decreases |ts|
  {
    var t, later := ts[0], ts[1..];
    assert ts == [t] + later;
    if later == [] {
      ItemsOfPrinted(t, "");
      assert ts == [t];
    } else {
      PrintThenParse(later);
      ItemsOfPrinted(t, PrintList(later));
    }
  }

  lemma {:induction false} ParseThenPrint(s: string)
    requires ParseItems(s).1
    ensures var ts := ParseItems(s).0; PrintableList(ts) && PrintList(ts) == s
    decreases |s|
  {
    var item, rest := CutFirst(s);
    if ',' in s {
      ItemsFirst(item, rest);
      ItemExactly(item, ParseItem(item).value);
      ParseThenPrint(rest);
      assert ParseItems(s).0[1..] == ParseItems(rest).0;
    } else {
      ItemsOnly(item);
      ItemExactly(item, ParseItem(item).value);
    }
  }

  // The parser accepts exactly the printed lists, and gives back the list that was printed.
  lemma ParsesExactly(s: string, ts: seq<EventType>)
    ensures ParseItems(s) == (ts, true) <==> PrintableList(ts) && PrintList(ts) == s
  {
    if ParseItems(s) == (ts, true) {
      ParseThenPrint(s);
    }
    if PrintableList(ts) && PrintList(ts) == s {
      PrintThenParse(ts);
    }
  }

  function PrintBefore(ts: seq<EventType>, rest: string): string {
    if ts == [] then rest else Print(ts[0]) + "," + PrintBefore(ts[1..], rest)
  }

  predicate StartsBroken(s: string) {
    ParseItem(s[..Find(s, 0, ',')]).None?
  }

  // On failure, what was parsed is the printable items up to the first that is not one.
  lemma {:induction false} ParsedPrefix(s: string) returns (rest: string)
    requires !ParseItems(s).1
    ensures var ts := ParseItems(s).0;
      (forall i :: 0 <= i < |ts| ==> Printable(ts[i])) && s == PrintBefore(ts, rest) && StartsBroken(rest)
    decreases |s|
  {
    var item, later := CutFirst(s);
    if ',' in s {
      FindIs(s, ',', |item|);
      ItemsFirst(item, later);
      if ParseItem(item).None? {
        assert s[..|item|] == item;
        rest := s;
      } else {
        ItemExactly(item, ParseItem(item).value);
        rest := ParsedPrefix(later);
        assert ParseItems(s).0[1..] == ParseItems(later).0;
      }
    } else {
      FindIs(s, ',', |s|);
      ItemsOnly(item);
      assert s[..|s|] == s;
      rest := s;
    }
  }

  // ---------------------------------------------------------------- //
  // The buffer

  // strchr(b, c): the search stops at the NUL the string ends with.
  method StrChr(elist: array<char>, b: nat, c: char, ghost end: nat) returns (r: Option<nat>)
    requires b <= end < elist.Length && elist[end] == '\0' && '\0' !in elist[b..end] && c != '\0'
    ensures var f := Find(elist[b..end], 0, c);
      r == if b + f < end then Some(b + f) else None
  {
    var i := b;
    while elist[i] != '\0' && elist[i] != c
      invariant b <= i <= end
      invariant c !in elist[b..i]
      decreases end - i
    {
      i := i + 1;
    }
    ghost var s := elist[b..end];
    assert i < end ==> s[i - b] == elist[i];
    if elist[i] == c {
      assert s[..i - b] == elist[b..i];
      FindIs(s, c, i - b);
      return Some(i);
    }
    assert i == end;
    assert s[..|s|] == s;
    FindIs(s, c, |s|);
    return None;
  }

  // string_dup: what is up to the NUL.
  method StrDup(elist: array<char>, b: nat, ghost end: nat) returns (s: string)
    requires b <= end < elist.Length && elist[end] == '\0' && '\0' !in elist[b..end]
    ensures s == elist[b..end]
  {
    s := "";
    var i := b;
    while elist[i] != '\0'
      invariant b <= i <= end && s == elist[b..i]
      decreases end - i
    {
      s := s + [elist[i]];
      i := i + 1;
    }
    assert i == end;
  }

  // The item at b, and where the next one begins.
  function ItemAt(s: string, b: nat): string
    requires b <= |s|
  {
    s[b..][..Find(s[b..], 0, ',')]
  }

  function AfterItem(s: string, b: nat): (r: Option<nat>)
    requires b <= |s|
    ensures r.Some? ==> b < r.value <= |s|
  {
    var f := Find(s[b..], 0, ',');
    if b + f == |s| then None else Some(b + f + 1)
  }

  // The cut at the next comma, if there is one.
  method CutAtComma(elist: array<char>, b: nat, ghost s: string) returns (e: Option<nat>)
    requires '\0' !in s && b <= |s| && elist.Length == |s| + 1 && elist[b..] == s[b..] + ['\0']
    modifies elist
    ensures var end := b + |ItemAt(s, b)|; elist[b..end] == ItemAt(s, b) && elist[end] == '\0'
    ensures e == AfterItem(s, b) && (e.Some? ==> elist[e.value..] == s[e.value..] + ['\0'])
  {
    ghost var item := ItemAt(s, b);
    ghost var end := b + |item|;
    assert elist[b..|s|] == s[b..] by {
      assert elist[b..] == elist[b..|s|] + [elist[|s|]];
    }
    assert elist[|s|] == elist[b..][|s| - b];
    assert elist[b..end] == item by {
      assert elist[b..|s|][..|item|] == elist[b..end];
    }
    e := StrChr(elist, b, ',', |s|);
    if e.Some? {
      assert e.value == end && elist[end + 1..] == elist[b..][end + 1 - b..];
      elist[e.value] := '\0';
      assert elist[b..end] == item;
      e := Some(e.value + 1);
    }
  }

  // The cut of an item at its colons.
  method CutAtColons(elist: array<char>, b: nat, ghost item: string) returns (t: Option<EventType>)
    requires b + |item| < elist.Length && elist[b..b + |item|] == item
    requires elist[b + |item|] == '\0' && '\0' !in item
    modifies elist
    ensures t == ParseItem(item)
    ensures elist[b + |item| + 1..] == old(elist[b + |item| + 1..])
  {
    ghost var end := b + |item|;
    ghost var colonAt := Find(item, 0, ':');
    t := None;
    var colon := StrChr(elist, b, ':', end);
    if colon == None {
      assert colonAt == |item|;
      return;
    }
    var m := colon.value;
    assert m == b + colonAt && colonAt < |item|;
    elist[m] := '\0';
    m := m + 1;
    assert m < end ==> elist[m] == item[colonAt + 1];
    if elist[m] != ':' {
      assert colonAt + 1 == |item| || item[colonAt + 1] != ':';
      return;
    }
    assert m < end;
    elist[m] := '\0';
    m := m + 1;
    assert elist[b..m - 2] == item[..colonAt] && elist[m..end] == item[colonAt + 2..];
    var domain := StrDup(elist, b, m - 2);
    var name := StrDup(elist, m, end);
    if |domain| != 0 && |name| != 0 {
      t := Some(EventType(domain, name));
    }
  }

  // One turn of the loop on the item at b: where the next begins, and the type parsed, if it parses.
  method NextItem(elist: array<char>, b: nat, ghost s: string) returns (e: Option<nat>, t: Option<EventType>)
    requires '\0' !in s && b <= |s| && elist.Length == |s| + 1 && elist[b..] == s[b..] + ['\0']
    modifies elist
    ensures t == ParseItem(ItemAt(s, b))
    ensures t.Some? ==> e == AfterItem(s, b) && (e.Some? ==> elist[e.value..] == s[e.value..] + ['\0'])
  {
    e := CutAtComma(elist, b, s);
    t := CutAtColons(elist, b, ItemAt(s, b));
  }

  // string_dup of the whole list, with its NUL.
  method CopyList(s: string) returns (elist: array<char>)
    ensures fresh(elist) && elist.Length == |s| + 1 && elist[..] == s + ['\0']
  {
    elist := new char[|s| + 1];
    for i := 0 to |s|
      invariant elist[..i] == s[..i]
    {
      elist[i] := s[i];
    }
    elist[|s|] := '\0';
  }

  // Items put before what is parsed.
  function Before(ts: seq<EventType>, r: (seq<EventType>, bool)): (seq<EventType>, bool) {
    (ts + r.0, r.1)
  }

  lemma BeforeTwice(done: seq<EventType>, t: EventType, r: (seq<EventType>, bool))
    ensures Before(done, Before([t], r)) == Before(done + [t], r)
  {
    assert done + ([t] + r.0) == (done + [t]) + r.0;
  }

  // What is parsed and what is still to parse make up the whole.
  ghost predicate Parsed(s: string, done: seq<EventType>, b: Option<nat>) {
    match b
    case None => ParseItems(s) == (done, true)
    case Some(i) => i <= |s| && ParseItems(s) == Before(done, ParseItems(s[i..]))
  }

  lemma ItemsAt(s: string, b: nat)
    requires b <= |s|
    ensures ParseItem(ItemAt(s, b)).None? ==> ParseItems(s[b..]) == ([], false)
    ensures ParseItem(ItemAt(s, b)).Some? ==> var t := [ParseItem(ItemAt(s, b)).value];
      match AfterItem(s, b)
      case None => ParseItems(s[b..]) == (t, true)
      case Some(e) => ParseItems(s[b..]) == Before(t, ParseItems(s[e..]))
  {
    var f := Find(s[b..], 0, ',');
    if b + f < |s| {
      assert s[b..][f + 1..] == s[b + f + 1..];
    }
  }

  lemma ParsedNext(s: string, done: seq<EventType>, b: nat)
    requires Parsed(s, done, Some(b))
    ensures match ParseItem(ItemAt(s, b))
      case None => ParseItems(s) == (done, false)
      case Some(t) => Parsed(s, done + [t], AfterItem(s, b))
  {
    ItemsAt(s, b);
    var t := ParseItem(ItemAt(s, b));
    if t == None {
      assert done + [] == done;
    } else if AfterItem(s, b).Some? {
      BeforeTwice(done, t.value, ParseItems(s[AfterItem(s, b).value..]));
    }
  }

  // True is an error, as in the original; a null list is one.
  method ParseEtypeList(etypeList: Option<string>, evs: TypeSeq) returns (error: bool)
    requires etypeList.Some? ==> '\0' !in etypeList.value
    modifies evs
    ensures etypeList == None ==> error && evs.elts == old(evs.elts)
    ensures etypeList.Some? ==>
      var (ts, ok) := ParseItems(etypeList.value);
      error == !ok && evs.elts == if ts == [] then old(evs.elts) else ts
  {
    if etypeList == None {
      return true;
    }
    var s := etypeList.value;
    var elist := CopyList(s);
    var len := 0;
    var b: Option<nat> := Some(0);
    ghost var done: seq<EventType> := [];
    assert s[0..] == s && [] + ParseItems(s).0 == ParseItems(s).0 && elist[0..] == elist[..];
    while b != None
      invariant Parsed(s, done, b)
      invariant len == |done| && evs.elts == (if done == [] then old(evs.elts) else done)
      invariant b == None ==> done != []
      invariant b.Some? ==> elist[b.value..] == s[b.value..] + ['\0']
      decreases if b.Some? then |s| - b.value + 1 else 0
    {
      ParsedNext(s, done, b.value);
      var e, t := NextItem(elist, b.value, s);
      if t == None {
        return true;
      }
      done := done + [t.value];
      len := len + 1;
      evs.elts := (if len == 1 then [] else evs.elts) + [t.value];
      b := e;
    }
    return if len > 0 then false else true;
  }
}
