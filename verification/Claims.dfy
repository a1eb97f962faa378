/** Reading identity claims out of a decoded token. */
module Claims {
  import opened Options

  /** A decoded claim. Texts is a list of strings, Named a value with a String method. */
  datatype Json =
    | Null | Bool(b: bool) | Number(n: int)
    | Text(text: string) | Texts(texts: seq<string>) | Named(name: string)
    | List(items: seq<Json>) | Object(fields: map<string, Json>)

  // ---- One string from a claim ----

  function StringClaim(j: Json): Option<string>
    decreases j, 0
  {
    match j
    case Text(s) => Some(s)
    case Texts(v) => if |v| == 0 then None else Some(v[0])
    case Named(s) => Some(s)
    case List(v) => FirstClaim(v)
    case _ => None
  }

  /** The first item that yields a non-empty string. */
  function FirstClaim(v: seq<Json>): Option<string>
    decreases v, 1
  {
    if |v| == 0 then None
    else
      var s := StringClaim(v[0]);
      if s.Some? && s.value != "" then s else FirstClaim(v[1..])
  }

  /** The strings a claim offers, left to right, through nested lists and nothing else. */
  function Leaves(j: Json): seq<string>
    decreases j, 0
  {
    match j
    case Text(s) => [s]
    case Texts(v) => v[..if |v| == 0 then 0 else 1]
    case Named(s) => [s]
    case List(v) => AllLeaves(v)
    case _ => []
  }

  function AllLeaves(v: seq<Json>): seq<string>
    decreases v, 1
  {
    if |v| == 0 then [] else Leaves(v[0]) + AllLeaves(v[1..])
  }

  /** `r` is the first non-empty element of `leaves`, or there is none. */
  predicate IsFirstNonEmpty(leaves: seq<string>, r: Option<string>) {
    match r
    case None => forall i | 0 <= i < |leaves| :: leaves[i] == ""
    case Some(s) => s != "" && exists k | 0 <= k < |leaves| :: leaves[k] == s && forall i | 0 <= i < k :: leaves[i] == ""
  }

  /** What the leaves of each kind of claim are: a string, a named value and the first of a list of
      strings are leaves, a list has those of its items one after another, anything else has none. */
  lemma {:induction false} LeavesAre(j: Json, v: seq<Json>, more: seq<Json>)
    ensures AllLeaves(v + more) == AllLeaves(v) + AllLeaves(more)
    ensures AllLeaves([j]) == Leaves(j) && AllLeaves([]) == []
    ensures j.Text? ==> Leaves(j) == [j.text]
    ensures j.Named? ==> Leaves(j) == [j.name]
    ensures j.Texts? ==> Leaves(j) == if j.texts == [] then [] else [j.texts[0]]
    ensures j.List? ==> Leaves(j) == AllLeaves(j.items)
    ensures j.Null? || j.Bool? || j.Number? || j.Object? ==> Leaves(j) == []
    decreases |v|
  {
    assert [j][1..] == [];
    if |v| == 0 {
      assert v + more == more;
    } else {
      LeavesAre(j, v[1..], more);
      assert (v + more)[1..] == v[1..] + more;
    }
  }

  lemma {:induction false} FirstOfConcat(a: seq<string>, b: seq<string>, r: Option<string>)
    ensures r.Some? && IsFirstNonEmpty(a, r) ==> IsFirstNonEmpty(a + b, r)
    ensures IsFirstNonEmpty(a, None) && IsFirstNonEmpty(b, r) ==> IsFirstNonEmpty(a + b, r)
  {
    var ab := a + b;
    if r.Some? && IsFirstNonEmpty(a, r) {
      var k :| 0 <= k < |a| && a[k] == r.value && forall i | 0 <= i < k :: a[i] == "";
      assert ab[k] == r.value && forall i | 0 <= i < k :: ab[i] == "";
    }
    if r.Some? && IsFirstNonEmpty(a, None) && IsFirstNonEmpty(b, r) {
      var k :| 0 <= k < |b| && b[k] == r.value && forall i | 0 <= i < k :: b[i] == "";
      assert ab[|a| + k] == r.value;
      assert forall i | 0 <= i < |a| + k :: ab[i] == if i < |a| then a[i] else b[i - |a|];
    }
  }

  function NonEmpty(r: Option<string>): Option<string> {
    if r == Some("") then None else r
  }

  lemma {:induction false} ClaimIsFirstLeaf(j: Json)
    ensures IsFirstNonEmpty(Leaves(j), NonEmpty(StringClaim(j)))
    decreases j, 0
  {
    match j
    case List(v) => FirstClaimIsFirstLeaf(v);
    case Text(s) => assert Leaves(j)[0] == s;
    case Named(s) => assert Leaves(j)[0] == s;
    case Texts(v) => if |v| > 0 { assert Leaves(j)[0] == v[0]; }
    case _ =>
  }

  lemma {:induction false} FirstClaimIsFirstLeaf(v: seq<Json>)
    ensures IsFirstNonEmpty(AllLeaves(v), FirstClaim(v))
    decreases v, 1
  {
    if v == [] {
      assert AllLeaves(v) == [];
    } else {
      ClaimIsFirstLeaf(v[0]);
      FirstClaimIsFirstLeaf(v[1..]);
      FirstOfConcat(Leaves(v[0]), AllLeaves(v[1..]), FirstClaim(v));
    }
  }

  /** On any nested list the claim is the first non-empty string leaf, and absent when none is. */
  lemma {:induction false} ListClaimIsFirstLeaf(v: seq<Json>)
    ensures IsFirstNonEmpty(AllLeaves(v), StringClaim(List(v)))
  {
    FirstClaimIsFirstLeaf(v);
  }

  /** The tenant claim is read when the token has it and it holds a non-empty string. */
  function TenantClaim(claims: map<string, Json>, key: string): (r: Option<string>)
    ensures r.Some? <==> key in claims && NonEmpty(StringClaim(claims[key])).Some?
    ensures r.Some? ==> r.value != "" && r.value in Leaves(claims[key])
    ensures if key in claims then IsFirstNonEmpty(Leaves(claims[key]), r) else r == None
  {
    if key !in claims then None
    else
      ClaimIsFirstLeaf(claims[key]);
      NonEmpty(StringClaim(claims[key]))
  }

  // ---- Lists of strings ----

  /** s is the first non-empty leaf of the value, or None when there is none. */
  predicate HasFirst(j: Json, s: Option<string>) {
    IsFirstNonEmpty(Leaves(j), s)
  }

  /** `places` are the items of v that have a non-empty leaf, in order, and r the first such leaf of
      each. */
  ghost predicate Collects(v: seq<Json>, places: seq<nat>, r: seq<string>) {
    && |places| == |r|
    && (forall k | 0 <= k < |places| :: places[k] < |v| && HasFirst(v[places[k]], Some(r[k])))
    && (forall k, m | 0 <= k < m < |places| :: places[k] < places[m])
    && (forall i: nat | i < |v| && i !in places :: HasFirst(v[i], None))
  }

  /** What a value offers as a list of strings: a list of strings is taken as it is, of any other
      list the first non-empty leaf of each item that has one, and of a single value its own. */
  ghost predicate Lists(j: Json, r: seq<string>) {
    match j
    case Texts(v) => r == v
    case List(v) => exists places: seq<nat> :: Collects(v, places, r)
    case _ => if |r| == 0 then HasFirst(j, None)
              else |r| == 1 && HasFirst(j, Some(r[0]))
  }

  lemma {:induction false} ClaimHasFirst(j: Json)
    ensures HasFirst(j, NonEmpty(StringClaim(j)))
  {
    ClaimIsFirstLeaf(j);
  }

  lemma {:induction false} FirstIsUnique(j: Json, a: Option<string>, b: Option<string>)
    requires HasFirst(j, a) && HasFirst(j, b)
    ensures a == b
  {
    hide Leaves;
    var leaves := Leaves(j);
    if a.Some? && b.Some? {
      var k :| 0 <= k < |leaves| && leaves[k] == a.value && forall i | 0 <= i < k :: leaves[i] == "";
      var m :| 0 <= m < |leaves| && leaves[m] == b.value && forall i | 0 <= i < m :: leaves[i] == "";
    }
  }

  lemma {:induction false} ItemStringsCollect(v: seq<Json>) returns (places: seq<nat>)
    ensures Collects(v, places, ItemStrings(v))
  {
    if |v| == 0 {
      places := [];
    } else {
      hide HasFirst, StringClaim, Collects;
      var n := |v| - 1;
      var front := ItemStringsCollect(v[..n]);
      ClaimHasFirst(v[n]);
      assert v == v[..n] + [v[n]];
      match NonEmpty(StringClaim(v[n]))
      case None =>
        CollectsSkip(v[..n], front, ItemStrings(v[..n]), v[n]);
        places := front;
      case Some(s) =>
        CollectsTake(v[..n], front, ItemStrings(v[..n]), v[n], s);
        places := front + [n];
    }
  }

  lemma {:induction false} CollectsSkip(v: seq<Json>, places: seq<nat>, r: seq<string>, j: Json)
    requires Collects(v, places, r) && HasFirst(j, None)
    ensures Collects(v + [j], places, r)
  {
    hide HasFirst;
    var all := v + [j];
    assert forall i | 0 <= i < |v| :: all[i] == v[i];
  }

  lemma {:induction false} CollectsTake(v: seq<Json>, places: seq<nat>, r: seq<string>, j: Json, s: string)
    requires Collects(v, places, r) && HasFirst(j, Some(s))
    ensures Collects(v + [j], places + [|v|], r + [s])
  {
    hide HasFirst;
    var all, more := v + [j], places + [|v|];
    assert forall i | 0 <= i < |v| :: all[i] == v[i];
    assert more[|places|] == |v|;
    assert forall x | x in places :: x in more;
  }

  lemma {:induction false} StringsAreListed(j: Json)
    ensures Lists(j, Strings(j))
  {
    hide HasFirst, Collects;
    match j
    case Texts(v) =>
    case List(v) => var places := ItemStringsCollect(v);
    case _ => ClaimHasFirst(j);
  }

  /** A string is listed by a list of strings that contains it, by any other list with an item whose
      first non-empty leaf it is, and by a single value whose first non-empty leaf it is. */
  predicate Offers(j: Json, r: string) {
    match j
    case Texts(v) => r in v
    case List(v) => exists i | 0 <= i < |v| :: HasFirst(v[i], Some(r))
    case _ => HasFirst(j, Some(r))
  }

  lemma {:induction false} CollectedOffers(v: seq<Json>, places: seq<nat>, s: seq<string>, r: string)
    requires Collects(v, places, s)
    ensures r in s <==> exists i | 0 <= i < |v| :: HasFirst(v[i], Some(r))
  {
    hide HasFirst;
    if k :| 0 <= k < |s| && s[k] == r {
      assert HasFirst(v[places[k]], Some(r));
    }
    if i: nat :| i < |v| && HasFirst(v[i], Some(r)) {
      if i in places {
        var k :| 0 <= k < |places| && places[k] == i;
        FirstIsUnique(v[i], Some(r), Some(s[k]));
      } else {
        FirstIsUnique(v[i], Some(r), None);
      }
    }
  }

  lemma {:induction false} ListedOffers(j: Json, s: seq<string>, r: string)
    requires Lists(j, s)
    ensures r in s <==> Offers(j, r)
  {
    hide HasFirst, Collects;
    match j
    case Texts(v) =>
    case List(v) =>
      var places: seq<nat> :| Collects(v, places, s);
      CollectedOffers(v, places, s, r);
    case _ =>
      if Offers(j, r) {
        FirstIsUnique(j, Some(r), if |s| == 0 then None else Some(s[0]));
      }
  }

  /** The non-empty string of each item that has one. */
  function ItemStrings(v: seq<Json>): seq<string> {
    if |v| == 0 then []
    else
      var front := ItemStrings(v[..|v| - 1]);
      var s := NonEmpty(StringClaim(v[|v| - 1]));
      if s.Some? then front + [s.value] else front
  }

  function Strings(j: Json): seq<string> {
    match j
    case Texts(v) => v
    case List(v) => ItemStrings(v)
    case _ =>
      var s := NonEmpty(StringClaim(j));
      if s.Some? then [s.value] else []
  }

  method ToStringSlice(j: Json) returns (r: seq<string>)
    ensures r == Strings(j)
    ensures Lists(j, r)
  {
    hide Lists, StringClaim;
    StringsAreListed(j);
    if j.Texts? {
      return j.texts;
    }
    r := [];
    if j.List? {
      var v := j.items;
      for i := 0 to |v|
        invariant r == ItemStrings(v[..i])
      {
        assert v[..i + 1][..i] == v[..i];
        var s := StringClaim(v[i]);
        if s.Some? && s.value != "" {
          r := r + [s.value];
        }
      }
      assert v[..|v|] == v;
    } else {
      var s := StringClaim(j);
      if s.Some? && s.value != "" {
        r := [s.value];
      }
    }
  }

  // ---- First occurrences ----

  /** The non-empty elements in the order of their first occurrence. */
  function FirstOccurrences(s: seq<string>): seq<string> {
    if |s| == 0 then []
    else
      var front := FirstOccurrences(s[..|s| - 1]);
      var last := s[|s| - 1];
      if last == "" || last in s[..|s| - 1] then front else front + [last]
  }

  predicate NoDuplicates(s: seq<string>) {
    forall i, j | 0 <= i < j < |s| :: s[i] != s[j]
  }

  lemma {:induction false} OccurrencesMembers(s: seq<string>, r: string)
    ensures r in FirstOccurrences(s) <==> r in s && r != ""
  {
    if |s| > 0 {
      var n := |s| - 1;
      OccurrencesMembers(s[..n], r);
      assert s == s[..n] + [s[n]];
    }
  }

  lemma {:induction false} OccurrencesDistinct(s: seq<string>)
    ensures NoDuplicates(FirstOccurrences(s))
  {
    if |s| > 0 {
      var n := |s| - 1;
      OccurrencesDistinct(s[..n]);
      OccurrencesMembers(s[..n], s[n]);
    }
  }

  /** Where a string first occurs, or the length if it does not. */
  function IndexOf(s: seq<string>, x: string): (i: nat)
    ensures i <= |s|
    ensures i < |s| ==> s[i] == x
    ensures forall k | 0 <= k < i :: s[k] != x
    ensures x in s ==> i < |s|
  {
    if |s| == 0 || s[0] == x then 0
    else 1 + IndexOf(s[1..], x)
  }

  lemma {:induction false} IndexOfPrefix(s: seq<string>, n: nat, x: string)
    requires n <= |s| && x in s[..n]
    ensures IndexOf(s, x) == IndexOf(s[..n], x) < n
  {
    var k := IndexOf(s[..n], x);
    assert s[..n][k] == s[k];
    forall m | 0 <= m < k ensures s[m] != x {
      assert s[..n][m] == s[m];
    }
  }

  /** First occurrences keep the order in which the strings first occur. */
  lemma {:induction false} OccurrencesInOrder(s: seq<string>, i: nat, j: nat)
    requires i < j < |FirstOccurrences(s)|
    ensures IndexOf(s, FirstOccurrences(s)[i]) < IndexOf(s, FirstOccurrences(s)[j])
  {
    var n := |s| - 1;
    var front, all := FirstOccurrences(s[..n]), FirstOccurrences(s);
    OccurrencesMembers(s[..n], all[i]);
    assert all[i] == front[i];
    IndexOfPrefix(s, n, all[i]);
    if j < |front| {
      OccurrencesMembers(s[..n], all[j]);
      assert all[j] == front[j];
      IndexOfPrefix(s, n, all[j]);
      OccurrencesInOrder(s[..n], i, j);
    } else {
      assert forall k | 0 <= k < n :: s[k] == s[..n][k];
    }
  }

  lemma {:induction false} OccurrencesPrefix(a: seq<string>, b: seq<string>)
    ensures FirstOccurrences(a) <= FirstOccurrences(a + b)
  {
    if |b| == 0 {
      assert a + b == a;
    } else {
      assert (a + b)[..|a + b| - 1] == a + b[..|b| - 1];
      OccurrencesPrefix(a, b[..|b| - 1]);
    }
  }

  method Dedupe(values: seq<string>) returns (result: seq<string>)
    ensures result == FirstOccurrences(values)
  {
    var seen: set<string> := {};
    result := [];
    for i := 0 to |values|
      invariant result == FirstOccurrences(values[..i])
      invariant forall s :: s in seen <==> s in values[..i] && s != ""
    {
      var v := values[i];
      assert values[..i + 1] == values[..i] + [v];
      assert values[..i + 1][..i] == values[..i];
      if v == "" || v in seen {
        continue;
      }
      seen := seen + {v};
      result := result + [v];
    }
    assert values[..|values|] == values;
  }

  // ---- Roles ----

  function NestedMap(claims: map<string, Json>, key: string): map<string, Json> {
    if key in claims && claims[key].Object? then claims[key].fields else map[]
  }

  /** The roles a section lists, if it lists any. */
  function RolesOf(section: map<string, Json>): seq<string> {
    if "roles" in section then Strings(section["roles"]) else []
  }

  function SectionRoles(resources: map<string, Json>, key: string): seq<string> {
    RolesOf(NestedMap(resources, key))
  }

  function AllSections(resources: map<string, Json>, order: seq<string>): seq<string> {
    if |order| == 0 then []
    else AllSections(resources, order[..|order| - 1]) + SectionRoles(resources, order[|order| - 1])
  }

  function Roles(claims: map<string, Json>, order: seq<string>): seq<string> {
    FirstOccurrences(RolesOf(NestedMap(claims, "realm_access"))
                     + AllSections(NestedMap(claims, "resource_access"), order))
  }

  /** `order` is the order in which the runtime happens to visit the resource sections. */
  predicate IsVisit(claims: map<string, Json>, order: seq<string>) {
    && (forall k | k in NestedMap(claims, "resource_access") :: k in order)
    && (forall i | 0 <= i < |order| :: order[i] in NestedMap(claims, "resource_access"))
  }

  /** The roles of one section, realm or resource. */
  method SectionList(section: map<string, Json>) returns (roles: seq<string>)
    ensures roles == RolesOf(section)
  {
    roles := [];
    if "roles" in section {
      roles := ToStringSlice(section["roles"]);
    }
  }

  method ExtractRoles(claims: map<string, Json>, order: seq<string>) returns (roles: seq<string>)
    requires IsVisit(claims, order)
    ensures roles == Roles(claims, order)
    ensures AreOffered(claims, roles)
  {
    hide IsVisit, AreOffered, FirstOccurrences, RolesOf, NestedMap;
    AllRolesAreOffered(claims, order);
    roles := SectionList(NestedMap(claims, "realm_access"));
    ghost var realmRoles := roles;
    var resources := NestedMap(claims, "resource_access");
    for i := 0 to |order|
      invariant roles == realmRoles + AllSections(resources, order[..i])
    {
      assert order[..i + 1][..i] == order[..i];
      var more := SectionList(NestedMap(resources, order[i]));
      roles := roles + more;
    }
    assert order[..|order|] == order;
    roles := Dedupe(roles);
  }

  lemma {:induction false} SectionsMembers(resources: map<string, Json>, order: seq<string>, r: string)
    ensures r in AllSections(resources, order) <==> exists k | k in order :: r in SectionRoles(resources, k)
  {
    if |order| > 0 {
      var n := |order| - 1;
      SectionsMembers(resources, order[..n], r);
      assert order == order[..n] + [order[n]];
      if r in SectionRoles(resources, order[n]) {
        assert order[n] in order;
      }
    }
  }

  /** A section is an object whose "roles" offer the role. */
  predicate SectionOffers(section: Json, r: string) {
    section.Object? && "roles" in section.fields && Offers(section.fields["roles"], r)
  }

  /** The token offers the role: in its realm or in one of its resource sections. */
  predicate TokenOffers(claims: map<string, Json>, r: string) {
    || ("realm_access" in claims && SectionOffers(claims["realm_access"], r))
    || ("resource_access" in claims && claims["resource_access"].Object?
        && exists k | k in claims["resource_access"].fields :: SectionOffers(claims["resource_access"].fields[k], r))
  }

  lemma {:induction false} RolesOfSection(claims: map<string, Json>, key: string, r: string)
    ensures r in RolesOf(NestedMap(claims, key)) <==> key in claims && SectionOffers(claims[key], r)
  {
    var section := NestedMap(claims, key);
    if "roles" in section {
      StringsAreListed(section["roles"]);
      ListedOffers(section["roles"], Strings(section["roles"]), r);
    }
  }

  /** In the token's own terms: a role is extracted exactly when it is non-empty and the token offers
      it, whatever the order of the visit. */
  lemma {:induction false} RolesAreOffered(claims: map<string, Json>, order: seq<string>, r: string)
    requires IsVisit(claims, order)
    ensures r in Roles(claims, order) <==> r != "" && TokenOffers(claims, r)
  {
    hide Roles, RolesOf, SectionOffers;
    RolesMembers(claims, order, r);
    RolesOfSection(claims, "realm_access", r);
    var resources := NestedMap(claims, "resource_access");
    forall k ensures r in SectionRoles(resources, k) <==> k in resources && SectionOffers(resources[k], r) {
      RolesOfSection(resources, k, r);
    }
  }

  /** The roles the token offers, all of them, each once and none empty. */
  ghost predicate AreOffered(claims: map<string, Json>, roles: seq<string>) {
    NoDuplicates(roles) && forall r :: r in roles <==> r != "" && TokenOffers(claims, r)
  }

  lemma {:induction false} AllRolesAreOffered(claims: map<string, Json>, order: seq<string>)
    requires IsVisit(claims, order)
    ensures AreOffered(claims, Roles(claims, order))
  {
    forall r ensures r in Roles(claims, order) <==> r != "" && TokenOffers(claims, r) {
      RolesAreOffered(claims, order, r);
    }
    OccurrencesDistinct(RolesOf(NestedMap(claims, "realm_access"))
                        + AllSections(NestedMap(claims, "resource_access"), order));
  }

  /** A role is extracted exactly when it is non-empty and some section lists it, whatever the
      order of the visit. */
  lemma {:induction false} RolesMembers(claims: map<string, Json>, order: seq<string>, r: string)
    requires IsVisit(claims, order)
    ensures r in Roles(claims, order) <==>
              && r != ""
              && (|| r in RolesOf(NestedMap(claims, "realm_access"))
                  || exists k | k in NestedMap(claims, "resource_access") ::
                       r in SectionRoles(NestedMap(claims, "resource_access"), k))
  {
    var realm := RolesOf(NestedMap(claims, "realm_access"));
    var resources := NestedMap(claims, "resource_access");
    OccurrencesMembers(realm + AllSections(resources, order), r);
    SectionsMembers(resources, order, r);
    assert r in realm + AllSections(resources, order) <==> r in realm || r in AllSections(resources, order);
    if k :| k in order && r in SectionRoles(resources, k) {
      var i :| 0 <= i < |order| && order[i] == k;
      assert k in resources;
    }
  }

  /** Two visits extract the same roles; each result is free of duplicates and empty strings and
      begins with the realm roles in the order of their first occurrence. */
  lemma {:induction false} RolesOrderIndependent(claims: map<string, Json>, order: seq<string>, other: seq<string>)
    requires IsVisit(claims, order) && IsVisit(claims, other)
    ensures forall r :: r in Roles(claims, order) <==> r in Roles(claims, other)
    ensures NoDuplicates(Roles(claims, order)) && "" !in Roles(claims, order)
    ensures FirstOccurrences(RolesOf(NestedMap(claims, "realm_access"))) <= Roles(claims, order)
  {
    forall r ensures r in Roles(claims, order) <==> r in Roles(claims, other) {
      RolesMembers(claims, order, r);
      RolesMembers(claims, other, r);
    }
    RolesMembers(claims, order, "");
    var realm := RolesOf(NestedMap(claims, "realm_access"));
    var rest := AllSections(NestedMap(claims, "resource_access"), order);
    OccurrencesDistinct(realm + rest);
    OccurrencesPrefix(realm, rest);
  }

  method HasRole(roles: seq<string>, role: string) returns (has: bool)
    ensures has <==> role in roles
  {
    for i := 0 to |roles|
      invariant role !in roles[..i]
    {
      if roles[i] == role {
        return true;
      }
    }
    return false;
  }
}
