/** RDI_EventType (include/RDIEvent.h): event types with wildcards.  Which type dominates which, the
    normal form of a type, and the sequences a subscription change leads to. */
module EventType {

  datatype EventType = EventType(domain: string, name: string)

  // ---------------------------------------------------------------- //
  // Dominance

  predicate AnyDomain(d: string) {
    |d| == 0 || d == "*"
  }

  predicate Dominates(et1: EventType, et2: EventType) {
    if AnyDomain(et1.domain) then
      if et1.name == "*" || et1.name == "%ALL" then true else et1.name == et2.name
    else if et1.domain == et2.domain then
      if et1.name == "*" then true else et1.name == et2.name
    else
      false
  }

  lemma DominatesReflexive(t: EventType)
    ensures Dominates(t, t)
  {
  }

  lemma DominatesTransitive(a: EventType, b: EventType, c: EventType)
    requires Dominates(a, b) && Dominates(b, c)
    ensures Dominates(a, c)
  {
  }

  // The spellings dominance does not tell apart: "" and "*" for any domain, and with it "%ALL" and
  // "*" for any name.
  function Canon(t: EventType): EventType {
    if AnyDomain(t.domain) then EventType("*", if t.name == "%ALL" then "*" else t.name) else t
  }

  // Two types dominate each other exactly when they are spellings of one.
  lemma DominanceKernel(a: EventType, b: EventType)
    ensures Dominates(a, b) && Dominates(b, a) <==> Canon(a) == Canon(b)
  {
  }

  // ---------------------------------------------------------------- //
  // Normal form

  // '*' only as a whole name, no empty name, no "%ALL".
  predicate NormalName(s: string) {
    |s| > 0 && (|s| > 1 ==> '*' !in s)
  }

  predicate Normal(t: EventType) {
    NormalName(t.domain) && NormalName(t.name) && t.name != "%ALL"
  }

  predicate NormalSeq(ts: seq<EventType>) {
    forall i :: 0 <= i < |ts| ==> Normal(ts[i])
  }

  // What valid_sequence makes of one type: the empty names and "%ALL" rewritten, as far as it gets,
  // and whether it accepts the result.
  function Rewrite(t: EventType): EventType {
    var name := if |t.name| == 0 then "*" else t.name;
    var domain := if |t.domain| == 0 then "*" else t.domain;
    EventType(domain, if name == "%ALL" && domain == "*" then "*" else name)
  }

  predicate Acceptable(t: EventType) {
    var r := Rewrite(t);
    && (r.name == "%ALL" ==> r.domain == "*")
    && !(|r.name| > 1 && '*' in r.name)
    && !(|r.domain| > 1 && '*' in r.domain)
  }

  predicate AcceptableSeq(ts: seq<EventType>) {
    forall i :: 0 <= i < |ts| ==> Acceptable(ts[i])
  }

  function RewriteSeq(ts: seq<EventType>): (r: seq<EventType>)
    ensures |r| == |ts| && forall i :: 0 <= i < |ts| ==> r[i] == Rewrite(ts[i])
  {
    seq(|ts|, i requires 0 <= i < |ts| => Rewrite(ts[i]))
  }

  function Externalize(t: EventType): EventType {
    if t == EventType("*", "*") then EventType("", "%ALL") else t
  }

  function ExternalizeSeq(ts: seq<EventType>): (r: seq<EventType>)
    ensures |r| == |ts| && forall i :: 0 <= i < |ts| ==> r[i] == Externalize(ts[i])
  {
    seq(|ts|, i requires 0 <= i < |ts| => Externalize(ts[i]))
  }

  // Acceptance is having a normal form, and rewriting reaches it and stops there.
  lemma RewriteNormal(t: EventType)
    ensures Acceptable(t) <==> Normal(Rewrite(t))
    ensures Normal(t) ==> Acceptable(t) && Rewrite(t) == t
  {
  }

  // The spellings that are accepted: '*' only as a whole part, "%ALL" only with a wildcard domain.
  predicate WellSpelled(t: EventType) {
    && (t.domain == "*" || '*' !in t.domain)
    && (t.name == "*" || '*' !in t.name)
    && (t.name == "%ALL" ==> t.domain in {"", "*"})
  }

  lemma AcceptableExactly(t: EventType)
    ensures Acceptable(t) <==> WellSpelled(t)
  {
    assert |t.domain| == 1 ==> t.domain == [t.domain[0]];
    assert |t.name| == 1 ==> t.name == [t.name[0]];
  }

  lemma RewriteSeqNormal(ts: seq<EventType>)
    ensures AcceptableSeq(ts) <==> NormalSeq(RewriteSeq(ts))
  {
    forall i | 0 <= i < |ts| ensures Acceptable(ts[i]) <==> Normal(RewriteSeq(ts)[i]) {
      RewriteNormal(ts[i]);
    }
  }

  // A type is in normal form exactly when it is one that rewriting can produce and keep.
  lemma NormalIsRewritten(t: EventType)
    ensures Normal(t) <==> exists u :: Acceptable(u) && Rewrite(u) == t
  {
    RewriteNormal(t);
    if u :| Acceptable(u) && Rewrite(u) == t {
      RewriteNormal(u);
    }
  }

  // Announcements never hold the internal spelling of all events, and hold the external one exactly in
  // its place or where it was before; nothing else changes.
  lemma ExternalForm(ts: seq<EventType>, i: nat)
    requires i < |ts|
    ensures ExternalizeSeq(ts)[i] != EventType("*", "*")
    ensures ts[i] == EventType("*", "*") ==> ExternalizeSeq(ts)[i] == EventType("", "%ALL")
    ensures ts[i] != EventType("*", "*") ==> ExternalizeSeq(ts)[i] == ts[i]
  {
  }

  // Validating what externalization has made of a validated sequence gives the sequence back.
  lemma ExternalizeRoundTrip(ts: seq<EventType>)
    requires NormalSeq(ts)
    ensures AcceptableSeq(ExternalizeSeq(ts))
    ensures RewriteSeq(ExternalizeSeq(ts)) == ts
  {
    forall i | 0 <= i < |ts| ensures Acceptable(ExternalizeSeq(ts)[i]) && Rewrite(ExternalizeSeq(ts)[i]) == ts[i] {
      RewriteNormal(ts[i]);
    }
  }

  // An accepted type dominates, and is dominated by, the same types before and after it is
  // rewritten, exactly when its name is not empty: dominates takes an empty domain for a wildcard,
  // but not an empty name.
  lemma RewriteKeepsDominance(t: EventType)
    requires Acceptable(t)
    ensures (forall u :: Dominates(t, u) == Dominates(Rewrite(t), u) && Dominates(u, t) == Dominates(u, Rewrite(t)))
            <==> t.name != ""
  {
    if t.name == "" {
      var u := EventType(t.domain, "x");
      assert Dominates(Rewrite(t), u) && !Dominates(t, u);
    }
  }

  // ---------------------------------------------------------------- //
  // What a normal type stands for

  // A domain and a name an event can carry: not empty, no wildcard in them, the name not "%ALL".
  predicate Concrete(domain: string, name: string) {
    |domain| > 0 && '*' !in domain && |name| > 0 && '*' !in name && name != "%ALL"
  }

  predicate Matches(t: EventType, domain: string, name: string) {
    (t.domain == "*" || t.domain == domain) && (t.name == "*" || t.name == name)
  }

  // What an accepted type stands for, as it was spelled: an empty part is a wildcard, and so is "%ALL".
  lemma RewriteMeans(t: EventType, domain: string, name: string)
    requires Acceptable(t) && Concrete(domain, name)
    ensures Matches(Rewrite(t), domain, name) <==> t.domain in {"", "*", domain} && t.name in {"", "*", "%ALL", name}
  {
  }

  lemma NormalNoStar(s: string)
    requires NormalName(s)
    ensures s == "*" || '*' !in s
  {
    assert |s| == 1 ==> s == [s[0]];
  }

  // An event that b matches and a does not, when a does not dominate b.
  lemma NotDominated(a: EventType, b: EventType) returns (domain: string, name: string)
    requires Normal(a) && Normal(b) && !Dominates(a, b)
    ensures Concrete(domain, name) && Matches(b, domain, name) && !Matches(a, domain, name)
  {
    domain := if b.domain != "*" then b.domain else if a.domain == "x" then "y" else "x";
    name := if b.name != "*" then b.name else if a.name == "x" then "y" else "x";
    NormalNoStar(b.domain);
    NormalNoStar(b.name);
  }

  // On normal types dominance is inclusion: a dominates b when and only when every event b matches
  // is one a matches.
  lemma DominanceIsInclusion(a: EventType, b: EventType)
    requires Normal(a) && Normal(b)
    ensures Dominates(a, b) <==>
      forall domain, name :: Concrete(domain, name) && Matches(b, domain, name) ==> Matches(a, domain, name)
  {
    if !Dominates(a, b) {
      var domain, name := NotDominated(a, b);
    }
  }

  lemma DominatesAntisymmetric(a: EventType, b: EventType)
    requires Normal(a) && Normal(b) && Dominates(a, b) && Dominates(b, a)
    ensures a == b
  {
    DominanceKernel(a, b);
  }
}
