/** The dependency fingerprint: a digest over canonical text. SHA-256 is represented by its pre-image, so two digests
    are equal exactly when the digested texts are. */
module Fingerprint {
  import opened TextOrder
  import opened StableSort
  import opened CanonicalJson
  import opened Metadata

  datatype Digest = Sha256(text: string)

  datatype Scope = Scope(tenant: string, owner: string, subject: string)

  function Strings(s: seq<string>): (r: seq<Json>)
    ensures |r| == |s| && forall i :: 0 <= i < |r| ==> r[i] == Str(s[i])
  {
    seq(|s|, i requires 0 <= i < |s| => Str(s[i]))
  }

  function ScopeObject(scope: Scope): Json {
    Obj([Member("tenant_id", Str(scope.tenant)), Member("owner_id", Str(scope.owner)),
         Member("subject_id", Str(scope.subject))])
  }

  function LineageObject(scope: Scope, kind: string, sources: seq<string>): Json {
    Obj([Member("kind", Str(kind)), Member("scope", ScopeObject(scope)),
         Member("source_event_ids", Arr(Strings(sources)))])
  }

  function FingerprintOf(scope: Scope, kind: string, sources: set<string>): Digest {
    Sha256(Canonical(LineageObject(scope, kind, Sorted(sources))))
  }

  function ContentHash(content: string): Digest {
    Sha256(content)
  }

  /** Objects with one normal form have the same members, each normalized. */
  lemma SameMembers(x: Json, y: Json, m: Member)
    requires x.Obj? && y.Obj? && Normalize(x) == Normalize(y)
    requires m in NormalizeMembers(x.members)
    ensures m in NormalizeMembers(y.members)
  {
    SortedMembers(NormalizeMembers(x.members));
    SortedMembers(NormalizeMembers(y.members));
  }

  lemma ThreeMembers(x: Json, y: Json)
    requires x.Obj? && y.Obj? && |x.members| == |y.members| == 3
    requires forall i :: 0 <= i < 3 ==> x.members[i].key == y.members[i].key
    requires forall i, j :: 0 <= i < j < 3 ==> KeysDiffer(x.members[i], x.members[j])
    requires Normalize(x) == Normalize(y)
    ensures forall i :: 0 <= i < 3 ==> Normalize(x.members[i].value) == Normalize(y.members[i].value)
  {
    var nx, ny := NormalizeMembers(x.members), NormalizeMembers(y.members);
    forall i | 0 <= i < 3
      ensures Normalize(x.members[i].value) == Normalize(y.members[i].value)
    {
      SameMembers(x, y, nx[i]);
      var j :| 0 <= j < 3 && ny[j] == nx[i];
      assert x.members[i].key == y.members[j].key == x.members[j].key;
      assert i == j;
    }
  }

  lemma ScopeObjectInjective(a: Scope, b: Scope)
    requires Normalize(ScopeObject(a)) == Normalize(ScopeObject(b))
    ensures a == b
  {
    var x, y := ScopeObject(a), ScopeObject(b);
    MemberNamesDiffer();
    ThreeMembers(x, y);
    assert Normalize(x.members[0].value) == Str(a.tenant) && Normalize(y.members[0].value) == Str(b.tenant);
    assert Normalize(x.members[1].value) == Str(a.owner) && Normalize(y.members[1].value) == Str(b.owner);
    assert Normalize(x.members[2].value) == Str(a.subject) && Normalize(y.members[2].value) == Str(b.subject);
  }

  lemma MemberNamesDiffer()
    ensures "tenant_id" != "owner_id" && "tenant_id" != "subject_id" && "owner_id" != "subject_id"
    ensures "kind" != "scope" && "kind" != "source_event_ids" && "scope" != "source_event_ids"
  {
    assert |"tenant_id"| == 9 && |"owner_id"| == 8 && |"subject_id"| == 10;
    assert |"kind"| == 4 && |"scope"| == 5 && |"source_event_ids"| == 16;
  }

  lemma NormalStrings(s: seq<string>)
    ensures NormalizeItems(Strings(s)) == Strings(s)
  {
  }

  lemma LineageObjectInjective(a: Scope, kindA: string, sourcesA: seq<string>, b: Scope, kindB: string,
                               sourcesB: seq<string>)
    requires Normalize(LineageObject(a, kindA, sourcesA)) == Normalize(LineageObject(b, kindB, sourcesB))
    ensures a == b && kindA == kindB && sourcesA == sourcesB
  {
    var x, y := LineageObject(a, kindA, sourcesA), LineageObject(b, kindB, sourcesB);
    MemberNamesDiffer();
    ThreeMembers(x, y);
    assert Normalize(x.members[0].value) == Str(kindA) && Normalize(y.members[0].value) == Str(kindB);
    assert x.members[1].value == ScopeObject(a) && y.members[1].value == ScopeObject(b);
    ScopeObjectInjective(a, b);
    NormalStrings(sourcesA);
    NormalStrings(sourcesB);
    assert x.members[2].value == Arr(Strings(sourcesA)) && y.members[2].value == Arr(Strings(sourcesB));
    StringsInjective(sourcesA, sourcesB);
  }

  // ----- the digested text

  /** A string as JSON text. */
  function Quoted(s: string): string {
    ['"'] + CharsTo(s, [])
  }

  function Listed(ids: seq<string>): string {
    if ids == [] then [] else if |ids| == 1 then Quoted(ids[0]) else Quoted(ids[0]) + "," + Listed(ids[1..])
  }

  lemma EscapeAppends(c: char, k: string)
    ensures EscapeTo(c, k) == EscapeTo(c, []) + k
  {
  }

  lemma {:induction false} CharsAppend(s: string, k: string)
    ensures CharsTo(s, k) == CharsTo(s, []) + k
  {
    hide EscapeTo;
    if s != [] {
      CharsAppend(s[1..], k);
      EscapeAppends(s[0], CharsTo(s[1..], k));
      EscapeAppends(s[0], CharsTo(s[1..], []));
    }
  }

  lemma MemberText(key: string, k: string)
    ensures ['"'] + CharsTo(key, k) == Quoted(key) + k
  {
    CharsAppend(key, k);
  }

  lemma {:induction false} ListText(ids: seq<string>, k: string)
    requires ids != []
    ensures ItemsTo(Strings(ids), k) == Listed(ids) + "]" + k
  {
    hide CharsTo;
    if |ids| == 1 {
      CharsAppend(ids[0], [']'] + k);
    } else {
      ListText(ids[1..], k);
      assert Strings(ids)[1..] == Strings(ids[1..]);
      CharsAppend(ids[0], [','] + ItemsTo(Strings(ids[1..]), k));
    }
  }

  /** Text without quotes, backslashes and control characters, the names of members for one, is written as it is. */
  lemma {:induction false} PlainText(s: string)
    requires forall i :: 0 <= i < |s| ==> 0x20 <= s[i] as int && s[i] != '"' && s[i] != '\\'
    ensures CharsTo(s, []) == s + ['"'] && Quoted(s) == ['"'] + (s + ['"'])
  {
    if s != [] {
      PlainText(s[1..]);
      assert s == [s[0]] + s[1..];
    }
  }

  lemma NamesAscend()
    ensures Less("kind", "scope") && Less("scope", "source_event_ids") && Less("kind", "source_event_ids")
    ensures Less("owner_id", "subject_id") && Less("subject_id", "tenant_id") && Less("owner_id", "tenant_id")
  {
    assert "scope"[1..][0] == 'c' && "source_event_ids"[1..][0] == 'o';
  }

  /** The members of the digested object, in the order they are written. */
  lemma SortedObject(scope: Scope, kind: string, sources: seq<string>)
    ensures Normalize(ScopeObject(scope)) == Obj([
      Member("owner_id", Str(scope.owner)), Member("subject_id", Str(scope.subject)),
      Member("tenant_id", Str(scope.tenant))])
    ensures Normalize(LineageObject(scope, kind, sources)) == Obj([
      Member("kind", Str(kind)), Member("scope", Normalize(ScopeObject(scope))),
      Member("source_event_ids", Arr(Strings(sources)))])
  {
    hide Less;
    NamesAscend();
    var x, y := ScopeObject(scope), LineageObject(scope, kind, sources);
    var o, s, t := Member("owner_id", Str(scope.owner)), Member("subject_id", Str(scope.subject)),
      Member("tenant_id", Str(scope.tenant));
    NormalStrings(sources);
    assert NormalizeMembers(x.members) == [t, o, s];
    SortsLast(t, o, s);
    var a, b, c := Member("kind", Str(kind)), Member("scope", Normalize(x)),
      Member("source_event_ids", Arr(Strings(sources)));
    assert NormalizeMembers(y.members) == [a, b, c];
    StaysSorted(a, b, c);
  }

  predicate KeyAscends(a: Member, b: Member) {
    Less(a.key, b.key)
  }

  lemma SortsLast(t: Member, o: Member, s: Member)
    requires Less(o.key, s.key) && Less(s.key, t.key) && Less(o.key, t.key)
    ensures Sort([t, o, s], KeyLess) == [o, s, t]
  {
    hide Less, Sort;
    var q := Sort([t, o, s], KeyLess);
    LessIrreflexive(o.key);
    LessIrreflexive(s.key);
    LessIrreflexive(t.key);
    SortPermutes([t, o, s], KeyLess);
    SortedMembers([t, o, s]);
    assert Chain([t, o, s], KeysDiffer);
    forall i, j | 0 <= i < j < |q|
      ensures KeyAscends(q[i], q[j])
    {
      LessTotal(q[i].key, q[j].key);
      assert KeysDiffer(q[i], q[j]);
    }
    AscendingUnique(q, t, o, s);
  }

  lemma AscendingUnique(q: seq<Member>, t: Member, o: Member, s: Member)
    requires multiset(q) == multiset([t, o, s]) && Chain(q, KeyAscends)
    requires Less(o.key, s.key) && Less(s.key, t.key) && Less(o.key, t.key)
    ensures q == [o, s, t]
  {
    hide Less;
    forall x, y | KeyAscends(x, y)
      ensures !KeyAscends(y, x)
    {
      LessAsymmetric(x.key, y.key);
    }
    var r := [o, s, t];
    assert multiset([t, o, s]) == multiset(r);
    assert Chain(r, KeyAscends);
    ChainUnique(q, r, KeyAscends);
  }

  lemma StaysSorted(a: Member, b: Member, c: Member)
    requires Less(a.key, b.key) && Less(b.key, c.key) && Less(a.key, c.key)
    ensures Sort([a, b, c], KeyLess) == [a, b, c]
  {
    LessAsymmetric(a.key, b.key);
    LessAsymmetric(b.key, c.key);
    LessAsymmetric(a.key, c.key);
    SortOfSorted([a, b, c]);
  }

  lemma StringWritten(x: string, k: string)
    ensures PrintTo(Str(x), k) == Quoted(x) + k
  {
    CharsAppend(x, k);
  }

  lemma OneMember(key: string, v: Json, k: string)
    ensures MembersTo([Member(key, v)], k) == Quoted(key) + ":" + PrintTo(v, "}" + k)
  {
    hide CharsTo, PrintTo;
    MemberText(key, [':'] + PrintTo(v, ['}'] + k));
  }

  lemma MoreMembers(key: string, v: Json, rest: seq<Member>, k: string)
    requires rest != []
    ensures MembersTo([Member(key, v)] + rest, k) == Quoted(key) + ":" + PrintTo(v, "," + MembersTo(rest, k))
  {
    hide CharsTo, PrintTo;
    var members := [Member(key, v)] + rest;
    assert members[1..] == rest;
    MemberText(key, [':'] + PrintTo(v, [','] + MembersTo(rest, k)));
  }

  /** The scope's object in front of `k`. */
  function ScopeText(scope: Scope, k: string): string {
    "{" + (Quoted("owner_id") + ":" + (Quoted(scope.owner) + (","
    + (Quoted("subject_id") + ":" + (Quoted(scope.subject) + (","
    + (Quoted("tenant_id") + ":" + (Quoted(scope.tenant) + ("}" + k)))))))))
  }

  /** The digested object's text: keys ascending, no spaces, sources ascending. */
  function LineageText(scope: Scope, kind: string, sources: set<string>): string {
    "{" + (Quoted("kind") + ":" + (Quoted(kind) + (","
    + (Quoted("scope") + ":" + ScopeText(scope, ","
    + (Quoted("source_event_ids") + ":" + ("[" + (Listed(Sorted(sources)) + "]" + ("}" + [])))))))))
  }

  lemma ScopeWritten(scope: Scope, k: string)
    ensures PrintTo(Normalize(ScopeObject(scope)), k) == ScopeText(scope, k)
  {
    hide Quoted, Less, Normalize;
    SortedObject(scope, [], []);
    var c := [Member("tenant_id", Str(scope.tenant))];
    var b := [Member("subject_id", Str(scope.subject))] + c;
    OneMember("tenant_id", Str(scope.tenant), k);
    StringWritten(scope.tenant, "}" + k);
    MoreMembers("subject_id", Str(scope.subject), c, k);
    StringWritten(scope.subject, "," + MembersTo(c, k));
    MoreMembers("owner_id", Str(scope.owner), b, k);
    StringWritten(scope.owner, "," + MembersTo(b, k));
    assert [Member("owner_id", Str(scope.owner))] + b == [
      Member("owner_id", Str(scope.owner)), Member("subject_id", Str(scope.subject)),
      Member("tenant_id", Str(scope.tenant))];
  }

  /** The text that is digested, member by member. */
  lemma FingerprintText(scope: Scope, kind: string, sources: set<string>)
    requires sources != {}
    ensures FingerprintOf(scope, kind, sources) == Sha256(LineageText(scope, kind, sources))
  {
    hide Quoted, Less, Normalize, Sorted, Listed, ScopeText, PrintTo, MembersTo;
    var ids, inner := Sorted(sources), Normalize(ScopeObject(scope));
    var c := [Member("source_event_ids", Arr(Strings(ids)))];
    var b := [Member("scope", inner)] + c;
    SortedObject(scope, kind, ids);
    SourcesWritten(sources, ids, "}" + []);
    OneMember("source_event_ids", Arr(Strings(ids)), []);
    MoreMembers("scope", inner, c, []);
    ScopeWritten(scope, "," + MembersTo(c, []));
    MoreMembers("kind", Str(kind), b, []);
    StringWritten(kind, "," + MembersTo(b, []));
    assert [Member("kind", Str(kind))] + b
      == [Member("kind", Str(kind)), Member("scope", inner), Member("source_event_ids", Arr(Strings(ids)))];
    ObjectWritten([Member("kind", Str(kind))] + b);
  }

  lemma ObjectWritten(members: seq<Member>)
    requires members != []
    ensures PrintTo(Obj(members), []) == "{" + MembersTo(members, [])
  {
    hide MembersTo;
  }

  lemma SourcesWritten(sources: set<string>, ids: seq<string>, k: string)
    requires sources != {} && ids == Sorted(sources)
    ensures PrintTo(Arr(Strings(ids)), k) == "[" + (Listed(ids) + "]" + k)
  {
    hide ItemsTo, Sorted, Listed;
    SomeSource(sources);
    ListText(ids, k);
  }

  lemma SomeSource(sources: set<string>)
    requires sources != {}
    ensures Sorted(sources) != []
  {
    var x :| x in sources;
    assert x in Elements(Sorted(sources));
  }

  /** The digested text determines scope, kind and source set: no two lineages share a pre-image. */
  lemma FingerprintInjective(a: Scope, kindA: string, sourcesA: set<string>, b: Scope, kindB: string,
                             sourcesB: set<string>)
    ensures FingerprintOf(a, kindA, sourcesA) == FingerprintOf(b, kindB, sourcesB)
      <==> a == b && kindA == kindB && sourcesA == sourcesB
  {
    var s, t := Sorted(sourcesA), Sorted(sourcesB);
    if FingerprintOf(a, kindA, sourcesA) == FingerprintOf(b, kindB, sourcesB) {
      CanonicalInjective(LineageObject(a, kindA, s), LineageObject(b, kindB, t));
      LineageObjectInjective(a, kindA, s, b, kindB, t);
      assert sourcesA == Elements(s) == Elements(t) == sourcesB;
    }
  }

  lemma StringsInjective(a: seq<string>, b: seq<string>)
    requires Strings(a) == Strings(b)
    ensures a == b
  {
    forall i | 0 <= i < |a|
      ensures a[i] == b[i]
    {
      assert Strings(a)[i] == Str(a[i]) && Strings(b)[i] == Str(b[i]);
    }
  }
}
