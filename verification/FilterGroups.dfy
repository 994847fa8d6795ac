/** Filters that share filter groups, and how sharing travels: groups are written once, filters refer to
    them by id. A group is an object; two filters share a group when they hold the same object. */
module FilterGroups {
  import opened Bytes
  import opened Results
  import opened Variants
  import opened CannedQueryMaps
  import opened FilterCodecs

  class FilterGroup {
    const id: Str
    const caption: Str

    constructor (id: Str, caption: Str)
      ensures this.id == id && this.caption == caption
    {
      this.id, this.caption := id, caption;
    }
  }

  datatype Grouped = Grouped(filter: Filter, group: FilterGroup?)

  /** Two group objects with one id. */
  ghost predicate Clash(fs: seq<Grouped>) {
    exists i, j :: 0 <= i < |fs| && 0 <= j < |fs| && Clashing(fs[i].group, fs[j].group)
  }

  predicate Clashing(g: FilterGroup?, h: FilterGroup?) {
    g != null && h != null && g.id == h.id && g != h
  }

  // ----- groups

  function Describe(g: FilterGroup): Variant {
    Dict(map[ID := String(g.id), LABEL := String(g.caption)])
  }

  /** The groups in use, in order of first use. */
  ghost function GroupsOf(fs: seq<Grouped>): (gs: seq<FilterGroup>)
    ensures forall i :: 0 <= i < |fs| && fs[i].group != null ==> fs[i].group in gs
    ensures forall k :: 0 <= k < |gs| ==> exists i :: 0 <= i < |fs| && fs[i].group == gs[k]
    ensures forall k, l :: 0 <= k < l < |gs| ==> gs[k] != gs[l]
  {
    if fs == [] then []
    else
      var n := |fs| - 1;
      var gs := GroupsOf(fs[..n]);
      assert forall i :: 0 <= i < n ==> fs[..n][i] == fs[i];
      if fs[n].group == null || fs[n].group in gs then gs else gs + [fs[n].group]
  }

  ghost function Described(gs: seq<FilterGroup>): seq<Variant> {
    seq(|gs|, k requires 0 <= k < |gs| => Describe(gs[k]))
  }

  ghost predicate Indexes(lookup: map<Str, FilterGroup>, gs: seq<FilterGroup>) {
    && (forall id :: id in lookup ==> lookup[id].id == id && lookup[id] in gs)
    && (forall k :: 0 <= k < |gs| ==> gs[k].id in lookup && lookup[gs[k].id] == gs[k])
  }

  lemma IndexNewGroup(lookup: map<Str, FilterGroup>, gs: seq<FilterGroup>, g: FilterGroup)
    requires Indexes(lookup, gs) && g.id !in lookup
    ensures g !in gs && Indexes(lookup[g.id := g], gs + [g])
    ensures Described(gs + [g]) == Described(gs) + [Describe(g)]
  {
    var hs := gs + [g];
    assert hs[|gs|] == g && forall k :: 0 <= k < |gs| ==> hs[k] == gs[k];
    assert forall h :: h in gs ==> h in hs;
  }

  lemma IndexedMeansNoClash(fs: seq<Grouped>, lookup: map<Str, FilterGroup>)
    requires Indexes(lookup, GroupsOf(fs))
    ensures !Clash(fs)
  {
    var gs := GroupsOf(fs);
    forall i, j | 0 <= i < |fs| && 0 <= j < |fs|
      ensures !Clashing(fs[i].group, fs[j].group)
    {
      assert fs[i].group == null || fs[i].group in gs;
      assert fs[j].group == null || fs[j].group in gs;
    }
  }

  lemma ClashFound(fs: seq<Grouped>, i: nat, lookup: map<Str, FilterGroup>)
    requires i < |fs| && Indexes(lookup, GroupsOf(fs[..i]))
    requires fs[i].group != null && fs[i].group.id in lookup && lookup[fs[i].group.id] != fs[i].group
    ensures Clash(fs)
  {
    var other := lookup[fs[i].group.id];
    var k :| 0 <= k < |GroupsOf(fs[..i])| && GroupsOf(fs[..i])[k] == other;
    var j :| 0 <= j < |fs[..i]| && fs[..i][j].group == other;
    assert Clashing(fs[j].group, fs[i].group);
  }

  method SerializeFilterGroups(fs: seq<Grouped>) returns (r: Result<seq<Variant>>)
    ensures r == Throws(Logic) <==> Clash(fs)
    ensures !Clash(fs) ==> r == Ok(Described(GroupsOf(fs)))
  {
    var lookup: map<Str, FilterGroup>, va := map[], [];
    for i := 0 to |fs|
      invariant Indexes(lookup, GroupsOf(fs[..i])) && va == Described(GroupsOf(fs[..i]))
    {
      assert fs[..i + 1][..i] == fs[..i] && fs[..i + 1][i] == fs[i];
      var g := fs[i].group;
      if g != null {
        if g.id !in lookup {
          IndexNewGroup(lookup, GroupsOf(fs[..i]), g);
          lookup := lookup[g.id := g];
          va := va + [Describe(g)];
        } else if lookup[g.id] != g {
          ClashFound(fs, i, lookup);
          return Throws(Logic);
        }
      }
    }
    assert fs[..|fs|] == fs;
    IndexedMeansNoClash(fs, lookup);
    r := Ok(va);
  }

  function ReadGroup(v: Variant): Result<(Str, Str)> {
    var m :- GetDict(v);
    var idv :- Required(m, ID);
    var id :- GetString(idv);
    var captionv :- Required(m, LABEL);
    var caption :- GetString(captionv);
    Ok((id, caption))
  }

  lemma GroupRoundTrip(g: FilterGroup)
    ensures ReadGroup(Describe(g)) == Ok((g.id, g.caption))
  {
  }

  /** The first failing element decides the exception. */
  ghost predicate FirstFailure<T>(results: seq<Result<T>>, e: Exception) {
    exists i :: 0 <= i < |results| && results[i] == Throws(e) && forall j :: 0 <= j < i ==> results[j].Ok?
  }

  ghost function ReadGroups(a: seq<Variant>): seq<Result<(Str, Str)>> {
    seq(|a|, i requires 0 <= i < |a| => ReadGroup(a[i]))
  }

  ghost predicate LastGiven(pairs: seq<(Str, Str)>, id: Str, caption: Str) {
    exists i :: 0 <= i < |pairs| && pairs[i] == (id, caption) && forall j :: i < j < |pairs| ==> pairs[j].0 != id
  }

  /** The last description of an id wins. */
  ghost predicate Builds(pairs: seq<(Str, Str)>, groups: map<Str, FilterGroup>) {
    && (forall i :: 0 <= i < |pairs| ==> pairs[i].0 in groups)
    && (forall id :: id in groups ==> groups[id].id == id && LastGiven(pairs, id, groups[id].caption))
  }

  method DeserializeFilterGroups(a: seq<Variant>) returns (r: Result<map<Str, FilterGroup>>, ghost pairs: seq<(Str, Str)>)
    ensures r.Throws? ==> FirstFailure(ReadGroups(a), r.error)
    ensures r.Ok? ==> |pairs| == |a| && forall i :: 0 <= i < |a| ==> ReadGroup(a[i]) == Ok(pairs[i])
    ensures r.Ok? ==> Builds(pairs, r.value)
  {
    var groups: map<Str, FilterGroup> := map[];
    pairs := [];
    for i := 0 to |a|
      invariant |pairs| == i && forall j :: 0 <= j < i ==> ReadGroup(a[j]) == Ok(pairs[j])
      invariant Builds(pairs, groups)
    {
      var read := ReadGroup(a[i]);
      if read.Throws? {
        assert ReadGroups(a)[i] == Throws(read.error) && forall j :: 0 <= j < i ==> ReadGroups(a)[j].Ok?;
        return Throws(read.error), pairs;
      }
      var g := new FilterGroup(read.value.0, read.value.1);
      Rebuild(pairs, groups, read.value, g);
      groups := groups[read.value.0 := g];
      pairs := pairs + [read.value];
    }
    r := Ok(groups);
  }

  lemma Rebuild(pairs: seq<(Str, Str)>, groups: map<Str, FilterGroup>, p: (Str, Str), g: FilterGroup)
    requires Builds(pairs, groups) && g.id == p.0 && g.caption == p.1
    ensures Builds(pairs + [p], groups[p.0 := g])
  {
    var ps, gs := pairs + [p], groups[p.0 := g];
    forall id | id in gs
      ensures gs[id].id == id && LastGiven(ps, id, gs[id].caption)
    {
      if id == p.0 {
        assert ps[|pairs|] == (id, gs[id].caption);
      } else {
        var i :| 0 <= i < |pairs| && pairs[i] == (id, groups[id].caption) &&
                 forall j :: i < j < |pairs| ==> pairs[j].0 != id;
        assert ps[i] == (id, gs[id].caption) && forall j :: i < j < |ps| ==> ps[j].0 != id;
      }
    }
  }

  // ----- filters

  function GroupId(g: FilterGroup?): Option<Str> {
    if g == null then None else Some(g.id)
  }

  ghost predicate AllWellFormed(fs: seq<Grouped>) {
    forall i :: 0 <= i < |fs| ==> WellFormed(fs[i].filter)
  }

  method SerializeFilters(fs: seq<Grouped>) returns (a: seq<Variant>)
    requires AllWellFormed(fs)
    ensures |a| == |fs|
    ensures forall i :: 0 <= i < |fs| ==> a[i] == Dict(FilterCodecs.Serialize(fs[i].filter, GroupId(fs[i].group)))
  {
    a := [];
    for i := 0 to |fs|
      invariant |a| == i
      invariant forall j :: 0 <= j < i ==> a[j] == Dict(FilterCodecs.Serialize(fs[j].filter, GroupId(fs[j].group)))
    {
      a := a + [Dict(FilterCodecs.Serialize(fs[i].filter, GroupId(fs[i].group)))];
    }
  }

  function ReadFilter(v: Variant, groups: map<Str, FilterGroup>): Result<Grouped> {
    var m :- GetDict(v);
    var f :- Deserialize(m);
    if FILTER_GROUP in m then
      var id :- GetString(m[FILTER_GROUP]);
      if id in groups then Ok(Grouped(f, groups[id])) else Throws(Logic)
    else Ok(Grouped(f, null))
  }

  ghost function ReadFilters(a: seq<Variant>, groups: map<Str, FilterGroup>): seq<Result<Grouped>> {
    seq(|a|, i requires 0 <= i < |a| => ReadFilter(a[i], groups))
  }

  method DeserializeFilters(a: seq<Variant>, groups: map<Str, FilterGroup>) returns (r: Result<seq<Grouped>>)
    ensures r.Throws? ==> FirstFailure(ReadFilters(a, groups), r.error)
    ensures r.Ok? ==> |r.value| == |a| && forall i :: 0 <= i < |a| ==> ReadFilter(a[i], groups) == Ok(r.value[i])
  {
    var fs := [];
    for i := 0 to |a|
      invariant |fs| == i && forall j :: 0 <= j < i ==> ReadFilter(a[j], groups) == Ok(fs[j])
    {
      var read := ReadFilter(a[i], groups);
      if read.Throws? {
        var results := ReadFilters(a, groups);
        assert results[i] == Throws(read.error) && forall j :: 0 <= j < i ==> results[j].Ok?;
        return Throws(read.error);
      }
      fs := fs + [read.value];
    }
    r := Ok(fs);
  }

  // ----- the whole trip

  lemma FilterComesBack(f: Grouped, groups: map<Str, FilterGroup>)
    requires WellFormed(f.filter) && (f.group != null ==> f.group.id in groups)
    ensures ReadFilter(Dict(FilterCodecs.Serialize(f.filter, GroupId(f.group))), groups) == Returned(f, groups)
  {
    var group := GroupId(f.group);
    FilterRoundTrip(f.filter, group);
    BaseSurvives(f.filter, group);
  }

  /** When no two group objects have one id, the groups rebuilt from their descriptions carry the same ids and captions. */
  lemma GroupsComeBack(fs: seq<Grouped>, pairs: seq<(Str, Str)>, groups: map<Str, FilterGroup>)
    requires !Clash(fs) && |pairs| == |GroupsOf(fs)| && Builds(pairs, groups)
    requires forall k :: 0 <= k < |pairs| ==> ReadGroup(Describe(GroupsOf(fs)[k])) == Ok(pairs[k])
    ensures Faithful(fs, groups)
  {
    var gs := GroupsOf(fs);
    forall i | 0 <= i < |fs| && fs[i].group != null
      ensures var id := fs[i].group.id;
              id in groups && groups[id].id == id && groups[id].caption == fs[i].group.caption
    {
      var id := fs[i].group.id;
      var k :| 0 <= k < |gs| && gs[k] == fs[i].group;
      GroupRoundTrip(gs[k]);
      assert pairs[k].0 == id;
      var l :| 0 <= l < |pairs| && pairs[l] == (id, groups[id].caption);
      GroupRoundTrip(gs[l]);
      var j :| 0 <= j < |fs| && fs[j].group == gs[l];
      assert !Clashing(fs[i].group, fs[j].group);
    }
  }

  /** What reading one pushed filter yields. */
  ghost function Returned(f: Grouped, groups: map<Str, FilterGroup>): Result<Grouped>
    requires f.group != null ==> f.group.id in groups
  {
    if !HintsAllowed(f.filter) then Throws(InvalidArgument)
    else Ok(Grouped(Truncate(f.filter), if f.group == null then null else groups[f.group.id]))
  }

  /** Every group in use is found under its id. */
  ghost predicate Faithful(fs: seq<Grouped>, groups: map<Str, FilterGroup>) {
    forall i :: 0 <= i < |fs| && fs[i].group != null ==>
      fs[i].group.id in groups && groups[fs[i].group.id].id == fs[i].group.id &&
      groups[fs[i].group.id].caption == fs[i].group.caption
  }

  lemma SharingIsKept(fs: seq<Grouped>, groups: map<Str, FilterGroup>, i: nat, j: nat)
    requires !Clash(fs) && Faithful(fs, groups) && i < |fs| && j < |fs|
    requires Returned(fs[i], groups).Ok? && Returned(fs[j], groups).Ok?
    ensures Returned(fs[i], groups).value.group == Returned(fs[j], groups).value.group <==> fs[i].group == fs[j].group
  {
    assert !Clashing(fs[i].group, fs[j].group);
  }

  /** Pushing filters and receiving them: every filter comes back in its place with its date bounds truncated,
      in a group with the same id and caption, and two filters share a group afterwards exactly if they did before.
      The trip fails exactly if two groups clash or some display hint is not allowed. */
  method Transfer(fs: seq<Grouped>) returns (r: Result<seq<Grouped>>)
    requires AllWellFormed(fs)
    ensures Clash(fs) ==> r == Throws(Logic)
    ensures !Clash(fs) && (exists i :: 0 <= i < |fs| && !HintsAllowed(fs[i].filter)) ==> r == Throws(InvalidArgument)
    ensures r.Ok? <==> !Clash(fs) && forall i :: 0 <= i < |fs| ==> HintsAllowed(fs[i].filter)
    ensures r.Ok? ==> |r.value| == |fs| && forall i :: 0 <= i < |fs| ==>
              r.value[i].filter == Truncate(fs[i].filter) && GroupId(r.value[i].group) == GroupId(fs[i].group) &&
              (fs[i].group != null ==> r.value[i].group.caption == fs[i].group.caption)
    ensures r.Ok? ==> forall i, j :: 0 <= i < |fs| && 0 <= j < |fs| ==>
              (r.value[i].group == r.value[j].group <==> fs[i].group == fs[j].group)
  {
    var written := SerializeFilterGroups(fs);
    if written.Throws? {
      return Throws(written.error);
    }
    var data := SerializeFilters(fs);
    var read, pairs := DeserializeFilterGroups(written.value);
    forall k | 0 <= k < |GroupsOf(fs)|
      ensures ReadGroup(written.value[k]).Ok?
    {
      GroupRoundTrip(GroupsOf(fs)[k]);
    }
    assert read.Ok?;
    var groups := read.value;
    GroupsComeBack(fs, pairs, groups);
    forall i | 0 <= i < |fs|
      ensures ReadFilter(data[i], groups) == Returned(fs[i], groups)
    {
      FilterComesBack(fs[i], groups);
    }
    r := DeserializeFilters(data, groups);
    if r.Ok? {
      forall i, j | 0 <= i < |fs| && 0 <= j < |fs|
        ensures r.value[i].group == r.value[j].group <==> fs[i].group == fs[j].group
      {
        SharingIsKept(fs, groups, i, j);
      }
    }
  }
}
