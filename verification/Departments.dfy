/** Department trees: validation, lookup, and their variant form. */
module Departments {
  import opened Bytes
  import opened Results
  import opened Variants
  import opened JsonNodes
  import opened CannedQueries
  import opened CannedQueryMaps

  datatype Department = Department(query: Query, caption: Str, altCaption: Str, hasSubs: bool, subs: seq<Department>)

  function Id(d: Department): Str {
    d.query.departmentId
  }

  predicate HasSubdepartments(d: Department) {
    |d.subs| > 0 || d.hasSubs
  }

  /** What the constructors of departments and canned queries enforce, at every node. */
  ghost predicate Valid(d: Department) {
    d.caption != [] && d.query.scopeId != [] && forall i :: 0 <= i < |d.subs| ==> Valid(d.subs[i])
  }

  // ----- validation and lookup

  /** The nodes of a tree in pre-order. */
  function Nodes(d: Department): seq<Department>
    decreases d, 1
  {
    [d] + NodesOf(d.subs)
  }

  function NodesOf(ds: seq<Department>): seq<Department>
    decreases ds, 0
  {
    if ds == [] then [] else Nodes(ds[0]) + NodesOf(ds[1..])
  }

  function Ids(nodes: seq<Department>): (ids: seq<Str>)
    ensures |ids| == |nodes| && forall i :: 0 <= i < |ids| ==> ids[i] == Id(nodes[i])
  {
    seq(|nodes|, i requires 0 <= i < |nodes| => Id(nodes[i]))
  }

  /** The identifiers in `ids` are new to `seen` and to each other. */
  ghost predicate AllNew(ids: seq<Str>, seen: set<Str>) {
    Distinct(ids) && forall i :: 0 <= i < |ids| ==> ids[i] !in seen
  }

  ghost function Elements(ids: seq<Str>): set<Str> {
    set id | id in ids
  }

  lemma AllNewAppend(a: seq<Str>, b: seq<Str>, seen: set<Str>)
    ensures AllNew(a + b, seen) <==> AllNew(a, seen) && AllNew(b, seen + Elements(a))
    ensures Elements(a + b) == Elements(a) + Elements(b)
  {
    var c := a + b;
    assert forall i :: 0 <= i < |a| ==> c[i] == a[i];
    assert forall i :: 0 <= i < |b| ==> c[|a| + i] == b[i];
    if AllNew(c, seen) {
      forall i | 0 <= i < |b|
        ensures b[i] !in seen + Elements(a)
      {
        assert c[|a| + i] == b[i];
      }
    }
  }

  lemma AllNewNodes(a: seq<Department>, b: seq<Department>, seen: set<Str>)
    ensures AllNew(Ids(a + b), seen) <==> AllNew(Ids(a), seen) && AllNew(Ids(b), seen + Elements(Ids(a)))
    ensures Elements(Ids(a + b)) == Elements(Ids(a)) + Elements(Ids(b))
  {
    assert Ids(a + b) == Ids(a) + Ids(b);
    AllNewAppend(Ids(a), Ids(b), seen);
  }

  /** The lookup set that the recursion fills. */
  class Lookup {
    var ids: set<Str>

    constructor ()
      ensures ids == {}
    {
      ids := {};
    }
  }

  ghost predicate New(nodes: seq<Department>, seen: set<Str>) {
    AllNew(Ids(nodes), seen)
  }

  ghost function Grown(nodes: seq<Department>, seen: set<Str>): set<Str> {
    seen + Elements(Ids(nodes))
  }

  lemma RootFirst(d: Department, seen: set<Str>)
    ensures New(Nodes(d), seen) <==> Id(d) !in seen && New(NodesOf(d.subs), seen + {Id(d)})
    ensures Grown(Nodes(d), seen) == Grown(NodesOf(d.subs), seen + {Id(d)})
  {
    AllNewNodes([d], NodesOf(d.subs), seen);
    assert Ids([d]) == [Id(d)] && Elements([Id(d)]) == {Id(d)};
    assert Ids([d])[0] == Id(d);
  }

  lemma NextTree(ds: seq<Department>, i: nat, seen: set<Str>)
    requires i < |ds|
    ensures New(NodesOf(ds[i..]), seen) <==>
            New(Nodes(ds[i]), seen) && New(NodesOf(ds[i + 1..]), Grown(Nodes(ds[i]), seen))
    ensures Grown(NodesOf(ds[i..]), seen) == Grown(NodesOf(ds[i + 1..]), Grown(Nodes(ds[i]), seen))
  {
    assert ds[i..][1..] == ds[i + 1..];
    AllNewNodes(Nodes(ds[i]), NodesOf(ds[i + 1..]), seen);
  }

  /** Depth first, stopping at the first duplicate. */
  method ValidateBelow(d: Department, lookup: Lookup) returns (ok: bool)
    modifies lookup
    ensures ok <==> New(Nodes(d), old(lookup.ids))
    ensures ok ==> lookup.ids == Grown(Nodes(d), old(lookup.ids))
    decreases d
  {
    ghost var seen := lookup.ids;
    RootFirst(d, seen);
    if Id(d) in lookup.ids {
      return false;
    }
    lookup.ids := lookup.ids + {Id(d)};
    assert d.subs[0..] == d.subs;
    for i := 0 to |d.subs|
      invariant New(Nodes(d), seen) <==> New(NodesOf(d.subs[i..]), lookup.ids)
      invariant Grown(Nodes(d), seen) == Grown(NodesOf(d.subs[i..]), lookup.ids)
    {
      NextTree(d.subs, i, lookup.ids);
      ok := ValidateBelow(d.subs[i], lookup);
      if !ok {
        return;
      }
    }
    ok := true;
  }

  /** Validation succeeds exactly if there is a root with at least one child, no identifier occurs twice
      anywhere in the tree, and the current identifier occurs in it. */
  method Validate(parent: Option<Department>, current: Str) returns (r: Result<()>)
    ensures r.Ok? <==>
            && parent.Some? && parent.value.subs != []
            && Distinct(Ids(Nodes(parent.value))) && current in Ids(Nodes(parent.value))
    ensures r.Throws? ==> r.error == Logic
  {
    if parent.None? || |parent.value.subs| == 0 {
      return Throws(Logic);
    }
    var lookup := new Lookup();
    var ok := ValidateBelow(parent.value, lookup);
    if !ok {
      return Throws(Logic);
    }
    if Id(parent.value) != current && current !in lookup.ids {
      return Throws(Logic);
    }
    assert Ids(Nodes(parent.value))[0] == Id(parent.value);
    return Ok(());
  }

  /** The first node with the given identifier. */
  function First(nodes: seq<Department>, id: Str): Option<Department> {
    if nodes == [] then None
    else if Id(nodes[0]) == id then Some(nodes[0])
    else First(nodes[1..], id)
  }

  lemma {:induction false} FirstAppend(a: seq<Department>, b: seq<Department>, id: Str)
    ensures First(a + b, id) == if First(a, id).Some? then First(a, id) else First(b, id)
  {
    if a == [] {
      assert a + b == b;
    } else {
      assert (a + b)[1..] == a[1..] + b;
      FirstAppend(a[1..], b, id);
    }
  }

  lemma {:induction false} FirstIsFound(nodes: seq<Department>, id: Str)
    ensures First(nodes, id).Some? <==> id in Ids(nodes)
    ensures First(nodes, id).Some? ==>
              exists i :: 0 <= i < |nodes| && nodes[i] == First(nodes, id).value && Id(nodes[i]) == id
                          && forall j :: 0 <= j < i ==> Id(nodes[j]) != id
  {
    if nodes != [] {
      FirstIsFound(nodes[1..], id);
      if Id(nodes[0]) == id {
        assert Ids(nodes)[0] == id;
      } else if First(nodes[1..], id).Some? {
        var i :| 0 <= i < |nodes[1..]| && nodes[1..][i] == First(nodes, id).value && Id(nodes[1..][i]) == id
                 && forall j :: 0 <= j < i ==> Id(nodes[1..][j]) != id;
        assert Ids(nodes)[i + 1] == id;
        assert forall j :: 1 <= j < i + 1 ==> nodes[j] == nodes[1..][j - 1];
      }
    }
  }

  method FindSubdepartment(d: Department, id: Str) returns (r: Option<Department>)
    ensures r == First(Nodes(d), id)
    decreases d
  {
    if Id(d) == id {
      return Some(d);
    }
    FirstAppend([d], NodesOf(d.subs), id);
    assert d.subs[0..] == d.subs;
    for i := 0 to |d.subs|
      invariant First(Nodes(d), id) == First(NodesOf(d.subs[i..]), id)
    {
      assert d.subs[i..][1..] == d.subs[i + 1..];
      FirstAppend(Nodes(d.subs[i]), NodesOf(d.subs[i + 1..]), id);
      r := FindSubdepartment(d.subs[i], id);
      if r.Some? {
        return;
      }
    }
    r := None;
  }

  /** In a validated tree the lookup finds the one node with that identifier. */
  lemma ValidatedLookupIsUnique(d: Department, id: Str, i: nat)
    requires Distinct(Ids(Nodes(d))) && i < |Nodes(d)| && Id(Nodes(d)[i]) == id
    ensures First(Nodes(d), id) == Some(Nodes(d)[i])
  {
    FirstIsFound(Nodes(d), id);
    assert Ids(Nodes(d))[i] == id;
  }

  // ----- variant form

  const LABEL: Str := "label"
  const ALT_LABEL: Str := "alt_label"
  const QUERY: Str := "query"
  const DEPARTMENTS: Str := "departments"
  const HAS_SUBDEPARTMENTS: Str := "has_subdepartments"

  lemma DepartmentKeysDiffer()
    ensures LABEL != ALT_LABEL && LABEL != QUERY && LABEL != DEPARTMENTS && LABEL != HAS_SUBDEPARTMENTS
    ensures ALT_LABEL != QUERY && ALT_LABEL != DEPARTMENTS && ALT_LABEL != HAS_SUBDEPARTMENTS
    ensures QUERY != DEPARTMENTS && QUERY != HAS_SUBDEPARTMENTS && DEPARTMENTS != HAS_SUBDEPARTMENTS
  {
    assert LABEL[0] != QUERY[0];
  }

  /** The entries before the sub-departments. */
  function Header(d: Department): VariantMap {
    var m: VariantMap := map[LABEL := String(d.caption), QUERY := Dict(CannedQueryMaps.Serialize(d.query))];
    if d.altCaption == [] then m else m[ALT_LABEL := String(d.altCaption)]
  }

  function Serialize(d: Department): VariantMap {
    if d.subs != [] then
      Header(d)[DEPARTMENTS := Array(seq(|d.subs|, i requires 0 <= i < |d.subs| => Dict(Serialize(d.subs[i]))))]
    else if d.hasSubs then Header(d)[HAS_SUBDEPARTMENTS := Bool(true)]
    else Header(d)
  }

  /** The part of create() before the sub-departments. */
  function CreateNode(m: VariantMap): Result<Department> {
    if LABEL !in m then Throws(InvalidArgument)
    else
      var caption :- GetString(m[LABEL]);
      var altCaption :- StringOr(m, ALT_LABEL, []);
      if QUERY !in m then Throws(InvalidArgument)
      else
        var qm :- GetDict(m[QUERY]);
        var query :- FromMap(qm);
        if caption == [] then Throws(InvalidArgument)
        else Ok(Department(query, caption, altCaption, false, []))
  }

  function Create(v: Variant): Result<Department>
    decreases v, 1
  {
    var m :- GetDict(v);
    var d :- CreateNode(m);
    if DEPARTMENTS in m then
      var a :- GetArray(m[DEPARTMENTS]);
      var subs :- CreateAll(a);
      SetFlag(d.(subs := subs), m)
    else SetFlag(d, m)
  }

  function SetFlag(d: Department, m: VariantMap): Result<Department> {
    if HAS_SUBDEPARTMENTS in m then
      var b :- GetBool(m[HAS_SUBDEPARTMENTS]);
      Ok(d.(hasSubs := b))
    else Ok(d)
  }

  function CreateAll(a: seq<Variant>): Result<seq<Department>>
    decreases a, 0
  {
    if a == [] then Ok([])
    else
      var d :- Create(a[0]);
      var rest :- CreateAll(a[1..]);
      Ok([d] + rest)
  }

  /** What comes back: the flag is not stored where it is implied. */
  function Canonical(d: Department): Department {
    Department(d.query, d.caption, d.altCaption, d.subs == [] && d.hasSubs,
               seq(|d.subs|, i requires 0 <= i < |d.subs| => Canonical(d.subs[i])))
  }

  /** Two trees that no accessor can tell apart. */
  ghost predicate Alike(d: Department, e: Department) {
    && d.caption == e.caption && d.altCaption == e.altCaption && d.query == e.query
    && HasSubdepartments(d) == HasSubdepartments(e)
    && |d.subs| == |e.subs| && forall i :: 0 <= i < |d.subs| ==> Alike(d.subs[i], e.subs[i])
  }

  lemma {:induction false} CanonicalIsAlike(d: Department)
    ensures Alike(d, Canonical(d))
  {
    forall i | 0 <= i < |d.subs|
      ensures Alike(d.subs[i], Canonical(d).subs[i])
    {
      CanonicalIsAlike(d.subs[i]);
    }
  }

  lemma NodeRoundTrip(d: Department)
    ensures CreateNode(Serialize(d)) ==
            if d.caption != [] && d.query.scopeId != [] then Ok(Department(d.query, d.caption, d.altCaption, false, []))
            else Throws(InvalidArgument)
  {
    DepartmentKeysDiffer();
    QueryMapRoundTrip(d.query);
  }

  ghost function SerializeAll(ds: seq<Department>): seq<Variant> {
    seq(|ds|, i requires 0 <= i < |ds| => Dict(Serialize(ds[i])))
  }

  lemma SerializeWithSubs(d: Department)
    requires d.subs != []
    ensures Serialize(d) == Header(d)[DEPARTMENTS := Array(SerializeAll(d.subs))]
  {
    assert Serialize(d)[DEPARTMENTS].a == SerializeAll(d.subs);
  }

  ghost function CanonicalAll(ds: seq<Department>): seq<Department> {
    seq(|ds|, i requires 0 <= i < |ds| => Canonical(ds[i]))
  }

  /** A tree of any depth survives its variant form exactly if every node meets what the constructors
      demand; what comes back differs at most in flags that no accessor shows. */
  lemma {:induction false} DepartmentRoundTrip(d: Department)
    ensures Create(Dict(Serialize(d))) == Ok(Canonical(d)) <==> Valid(d)
    ensures !Valid(d) ==> Create(Dict(Serialize(d))) == Throws(InvalidArgument)
    decreases d, 1
  {
    var m := Serialize(d);
    NodeRoundTrip(d);
    DepartmentKeysDiffer();
    if d.subs != [] {
      AllRoundTrip(d.subs);
      SerializeWithSubs(d);
      assert Canonical(d).subs == CanonicalAll(d.subs);
    } else {
      assert Canonical(d).subs == [];
    }
  }

  ghost predicate AllValid(ds: seq<Department>) {
    forall i :: 0 <= i < |ds| ==> Valid(ds[i])
  }

  lemma AllSplit(ds: seq<Department>)
    requires ds != []
    ensures AllValid(ds) <==> Valid(ds[0]) && AllValid(ds[1..])
    ensures SerializeAll(ds)[0] == Dict(Serialize(ds[0])) && SerializeAll(ds)[1..] == SerializeAll(ds[1..])
    ensures CanonicalAll(ds) == [Canonical(ds[0])] + CanonicalAll(ds[1..])
  {
    assert forall i :: 1 <= i < |ds| ==> ds[i] == ds[1..][i - 1];
  }

  lemma CreateFirst(a: seq<Variant>)
    requires a != []
    ensures CreateAll(a) ==
            if Create(a[0]).Throws? then Throws(Create(a[0]).error)
            else if CreateAll(a[1..]).Throws? then CreateAll(a[1..])
            else Ok([Create(a[0]).value] + CreateAll(a[1..]).value)
  {
  }

  lemma {:induction false} AllRoundTrip(ds: seq<Department>)
    ensures CreateAll(SerializeAll(ds)) == if AllValid(ds) then Ok(CanonicalAll(ds)) else Throws(InvalidArgument)
    decreases ds, 0
  {
    if ds == [] {
      assert SerializeAll(ds) == [] && CanonicalAll(ds) == [];
    } else {
      CreateFirst(SerializeAll(ds));
      AllSplit(ds);
      DepartmentRoundTrip(ds[0]);
      AllRoundTrip(ds[1..]);
    }
  }

  /** Identifiers, and with them the outcome of validation and lookup, are unaffected. */
  lemma {:induction false} CanonicalKeepsIds(d: Department)
    ensures Ids(Nodes(Canonical(d))) == Ids(Nodes(d))
    decreases d, 1
  {
    CanonicalAllKeepsIds(d.subs);
    assert Canonical(d).subs == CanonicalAll(d.subs);
  }

  lemma {:induction false} CanonicalAllKeepsIds(ds: seq<Department>)
    ensures Ids(NodesOf(CanonicalAll(ds))) == Ids(NodesOf(ds))
    decreases ds, 0
  {
    if ds != [] {
      CanonicalKeepsIds(ds[0]);
      CanonicalAllKeepsIds(ds[1..]);
      assert CanonicalAll(ds)[1..] == CanonicalAll(ds[1..]);
    }
  }

  // ----- the loops of the source

  method SerializeDepartment(d: Department) returns (m: VariantMap)
    ensures m == Serialize(d)
    decreases d
  {
    m := map[LABEL := String(d.caption)];
    if |d.altCaption| > 0 {
      m := m[ALT_LABEL := String(d.altCaption)];
    }
    m := m[QUERY := Dict(CannedQueryMaps.Serialize(d.query))];
    DepartmentKeysDiffer();
    assert m == Header(d);
    if d.subs == [] {
      if d.hasSubs {
        m := m[HAS_SUBDEPARTMENTS := Bool(d.hasSubs)];
      }
    } else {
      var a: seq<Variant> := [];
      for i := 0 to |d.subs|
        invariant |a| == i && forall j :: 0 <= j < i ==> a[j] == Dict(Serialize(d.subs[j]))
      {
        var sub := SerializeDepartment(d.subs[i]);
        a := a + [Dict(sub)];
      }
      assert a == SerializeAll(d.subs);
      SerializeWithSubs(d);
      m := m[DEPARTMENTS := Array(a)];
    }
  }

  method CreateDepartment(v: Variant) returns (r: Result<Department>)
    ensures r == Create(v)
    decreases v
  {
    if !v.Dict? {
      return Throws(Logic);
    }
    r := CreateNode(v.d);
    if r.Throws? {
      return;
    }
    var d := r.value;
    if DEPARTMENTS in v.d {
      if !v.d[DEPARTMENTS].Array? {
        return Throws(Logic);
      }
      var a := v.d[DEPARTMENTS].a;
      var subs: seq<Department> := [];
      assert a[0..] == a;
      for i := 0 to |a|
        invariant Prepend(subs, CreateAll(a[i..])) == CreateAll(a)
      {
        assert a[i..][1..] == a[i + 1..];
        var sub := CreateDepartment(a[i]);
        if sub.Throws? {
          return Throws(sub.error);
        }
        PrependOne(subs, sub.value, CreateAll(a[i + 1..]));
        subs := subs + [sub.value];
      }
      d := d.(subs := subs);
    }
    if HAS_SUBDEPARTMENTS in v.d {
      if !v.d[HAS_SUBDEPARTMENTS].Bool? {
        return Throws(Logic);
      }
      if v.d[HAS_SUBDEPARTMENTS].b {
        d := d.(hasSubs := true);
      }
    }
    return Ok(d);
  }

  // ----- departments in the surfacing cache, which is kept as JSON

  ghost function NarrowDepartment(d: Department): Department {
    d.(query := NarrowQuery(d.query),
       subs := seq(|d.subs|, i requires 0 <= i < |d.subs| => NarrowDepartment(d.subs[i])))
  }

  lemma NarrowSerializedQuery(q: Query)
    ensures Narrow(Dict(CannedQueryMaps.Serialize(q))) == Dict(CannedQueryMaps.Serialize(NarrowQuery(q)))
  {
    KeysDiffer();
    var m, n := CannedQueryMaps.Serialize(q), CannedQueryMaps.Serialize(NarrowQuery(q));
    assert Narrow(Dict(m)).d == n;
  }

  lemma NarrowHeader(d: Department)
    ensures Narrow(Dict(Header(d))).d == Header(NarrowDepartment(d))
  {
    DepartmentKeysDiffer();
    NarrowSerializedQuery(d.query);
  }

  lemma NarrowPut(m: VariantMap, k: Str, v: Variant)
    ensures Narrow(Dict(m[k := v])).d == Narrow(Dict(m)).d[k := Narrow(v)]
  {
  }

  lemma {:induction false} NarrowSerialized(d: Department)
    ensures Narrow(Dict(Serialize(d))) == Dict(Serialize(NarrowDepartment(d)))
    ensures Valid(NarrowDepartment(d)) <==> Valid(d)
  {
    var e := NarrowDepartment(d);
    NarrowHeader(d);
    forall i | 0 <= i < |d.subs|
      ensures Narrow(Dict(Serialize(d.subs[i]))) == Dict(Serialize(e.subs[i]))
      ensures Valid(e.subs[i]) <==> Valid(d.subs[i])
    {
      NarrowSerialized(d.subs[i]);
    }
    if d.subs != [] {
      NarrowPut(Header(d), DEPARTMENTS, Array(SerializeAll(d.subs)));
      assert Narrow(Array(SerializeAll(d.subs))).a == SerializeAll(e.subs);
      SerializeWithSubs(d);
      SerializeWithSubs(e);
    } else if d.hasSubs {
      NarrowPut(Header(d), HAS_SUBDEPARTMENTS, Bool(true));
    }
  }

  ghost predicate OwnNamesNulFree(m: VariantMap) {
    forall k :: k in m ==> NUL !in k
  }

  /** The tree of a dictionary has the same names, each with the tree of its value. */
  lemma TreeOf(m: VariantMap)
    requires OwnNamesNulFree(m)
    ensures Tree(Dict(m)).Dict? && Tree(Dict(m)).d.Keys == m.Keys
    ensures forall k :: k in m ==> Tree(Dict(m)).d[k] == Tree(m[k])
  {
    DictRoundTrip(m);
  }

  lemma QueryNames(q: Query)
    ensures OwnNamesNulFree(CannedQueryMaps.Serialize(q))
    ensures CannedQueryMaps.Serialize(NarrowQuery(q)).Keys == CannedQueryMaps.Serialize(q).Keys
  {
    assert NUL !in SCOPE && NUL !in QUERY_STRING && NUL !in DEPARTMENT_ID && NUL !in FILTER_STATE && NUL !in USER_DATA;
  }

  /** Reading determines a map with the usual entries. */
  lemma FromMapInverse(m: VariantMap, q: Query)
    requires FromMap(m) == Ok(q) && m.Keys == CannedQueryMaps.Serialize(q).Keys
    ensures m == CannedQueryMaps.Serialize(q)
  {
    KeysDiffer();
  }

  /** A query that comes back from the cache was written without loss. */
  lemma CachedQuery(q: Query)
    requires var t := Tree(Dict(CannedQueryMaps.Serialize(q))); t.Dict? && FromMap(t.d) == Ok(NarrowQuery(q))
    ensures Tree(Dict(CannedQueryMaps.Serialize(q))) == Dict(CannedQueryMaps.Serialize(NarrowQuery(q)))
  {
    QueryNames(q);
    TreeOf(CannedQueryMaps.Serialize(q));
    FromMapInverse(Tree(Dict(CannedQueryMaps.Serialize(q))).d, NarrowQuery(q));
  }

  lemma DepartmentNames(d: Department)
    ensures OwnNamesNulFree(Serialize(d))
    ensures Serialize(NarrowDepartment(d)).Keys == Serialize(d).Keys
  {
    assert NUL !in LABEL && NUL !in ALT_LABEL && NUL !in QUERY && NUL !in DEPARTMENTS && NUL !in HAS_SUBDEPARTMENTS;
  }

  lemma {:induction false} CreatedOneByOne(a: seq<Variant>, i: nat)
    requires CreateAll(a).Ok? && i < |a|
    ensures |CreateAll(a).value| == |a| && Create(a[i]) == Ok(CreateAll(a).value[i])
    decreases |a|
  {
    CreateFirst(a);
    if |a| > 1 {
      CreatedOneByOne(a[1..], if i > 0 then i - 1 else 0);
    }
  }

  /** What reading a node says about the entries it was read from. */
  lemma CreatedFrom(m: VariantMap, d: Department)
    requires Create(Dict(m)) == Ok(d)
    ensures LABEL in m && m[LABEL] == String(d.caption)
    ensures QUERY in m && m[QUERY].Dict? && FromMap(m[QUERY].d) == Ok(d.query)
    ensures if ALT_LABEL in m then m[ALT_LABEL] == String(d.altCaption) else d.altCaption == []
    ensures if HAS_SUBDEPARTMENTS in m then m[HAS_SUBDEPARTMENTS] == Bool(d.hasSubs) else !d.hasSubs
    ensures if DEPARTMENTS in m then m[DEPARTMENTS].Array? && CreateAll(m[DEPARTMENTS].a) == Ok(d.subs) else d.subs == []
  {
  }

  lemma HeaderFrom(m: VariantMap, d: Department)
    requires m.Keys == Serialize(d).Keys && LABEL in m && m[LABEL] == String(d.caption)
    requires QUERY in m && m[QUERY] == Dict(CannedQueryMaps.Serialize(d.query))
    requires ALT_LABEL in m ==> m[ALT_LABEL] == String(d.altCaption)
    requires HAS_SUBDEPARTMENTS in m ==> m[HAS_SUBDEPARTMENTS] == Bool(true)
    requires DEPARTMENTS in m ==> m[DEPARTMENTS] == Array(SerializeAll(d.subs))
    ensures m == Serialize(d)
  {
    DepartmentKeysDiffer();
    if d.subs != [] {
      SerializeWithSubs(d);
    }
  }

  lemma SerializedEntries(d: Department)
    ensures var m := Serialize(d);
            && QUERY in m && m[QUERY] == Dict(CannedQueryMaps.Serialize(d.query))
            && (DEPARTMENTS in m <==> d.subs != []) && (d.subs != [] ==> m[DEPARTMENTS] == Array(SerializeAll(d.subs)))
            && (HAS_SUBDEPARTMENTS in m <==> d.subs == [] && d.hasSubs)
  {
    DepartmentKeysDiffer();
    if d.subs != [] {
      SerializeWithSubs(d);
    }
  }

  lemma CachedEntries(d: Department) returns (t: VariantMap)
    ensures Tree(Dict(Serialize(d))) == Dict(t) && t.Keys == Serialize(NarrowDepartment(d)).Keys
    ensures QUERY in t && t[QUERY] == Tree(Dict(CannedQueryMaps.Serialize(d.query)))
    ensures (DEPARTMENTS in t <==> d.subs != []) && (d.subs != [] ==> t[DEPARTMENTS] == Tree(Array(SerializeAll(d.subs))))
    ensures HAS_SUBDEPARTMENTS in t <==> d.subs == [] && d.hasSubs
  {
    DepartmentNames(d);
    TreeOf(Serialize(d));
    SerializedEntries(d);
    t := Tree(Dict(Serialize(d))).d;
  }

  /** Departments that come back from the cache were written without loss. */
  lemma {:induction false} CachedDepartment(d: Department)
    requires Create(Tree(Dict(Serialize(d)))) == Ok(Canonical(NarrowDepartment(d)))
    ensures Tree(Dict(Serialize(d))) == Dict(Serialize(NarrowDepartment(d)))
    decreases d, 1
  {
    var n := NarrowDepartment(d);
    var t := CachedEntries(d);
    CreatedFrom(t, Canonical(n));
    assert t[QUERY] == Dict(CannedQueryMaps.Serialize(n.query)) by {
      CachedQuery(d.query);
    }
    assert DEPARTMENTS in t ==> t[DEPARTMENTS] == Array(SerializeAll(n.subs)) by {
      if d.subs != [] {
        CachedSubs(d, t[DEPARTMENTS].a);
      }
    }
    HeaderFrom(t, n);
  }

  lemma {:induction false} CachedSubs(d: Department, a: seq<Variant>)
    requires Tree(Array(SerializeAll(d.subs))) == Array(a) && CreateAll(a) == Ok(Canonical(NarrowDepartment(d)).subs)
    ensures a == SerializeAll(NarrowDepartment(d).subs)
    decreases d, 0
  {
    forall i | 0 <= i < |d.subs|
      ensures a[i] == Dict(Serialize(NarrowDepartment(d.subs[i])))
    {
      assert a[i] == Tree(Dict(Serialize(d.subs[i])));
      CreatedOneByOne(a, i);
      CachedDepartment(d.subs[i]);
    }
  }

  /** Departments written to the cache as a JSON tree and read back are the same up to the width of
      integers in their queries, exactly if they hold no NUL. */
  lemma {:induction false} CachedDepartmentsComeBack(d: Department)
    requires Valid(d)
    ensures Create(Tree(Dict(Serialize(d)))) == Ok(Canonical(NarrowDepartment(d))) <==> NulFree(Dict(Serialize(d)))
  {
    if NulFree(Dict(Serialize(d))) {
      TreeRoundTrip(Dict(Serialize(d)));
      NarrowSerialized(d);
      DepartmentRoundTrip(NarrowDepartment(d));
    } else if Create(Tree(Dict(Serialize(d)))) == Ok(Canonical(NarrowDepartment(d))) {
      CachedDepartment(d);
      NarrowSerialized(d);
      TreeRoundTrip(Dict(Serialize(d)));
    }
  }
}
