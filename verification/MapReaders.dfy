/** What the readers of canned queries and departments accept, for every map: an independent description of the variant
    forms, which each reader meets in both directions. */
module MapReaders {
  import opened Bytes
  import opened Results
  import opened Variants
  import opened CannedQueries
  import opened CannedQueryMaps
  import opened Departments

  // ----- canned queries

  ghost predicate DescribesQuery(m: VariantMap, q: Query) {
    && "scope" in m && m["scope"] == String(q.scopeId) && q.scopeId != []
    && "filter_state" in m && m["filter_state"] == Dict(q.filterState)
    && OptionalText(m, "department_id", q.departmentId) && OptionalText(m, "query_string", q.queryString)
    && q.userData == if "user_data" in m then Some(m["user_data"]) else None
  }

  /** A map is read as a query exactly if it describes it. A missing or empty scope and a missing filter state are
      invalid arguments; entries of a wrong type are logic errors. */
  lemma QueryReadIff(m: VariantMap, q: Query)
    ensures FromMap(m) == Ok(q) <==> DescribesQuery(m, q)
    ensures FromMap(m).Throws? ==> (FromMap(m).error == InvalidArgument || FromMap(m).error == Logic)
    ensures FromMap(m) == Throws(InvalidArgument) <==>
            "scope" !in m || m["scope"] == String([]) || (m["scope"].String? && "filter_state" !in m)
  {
    KeysDiffer();
  }

  // ----- departments

  ghost predicate DescribesDepartment(v: Variant, d: Department)
    decreases d
  {
    && v.Dict? && "label" in v.d && v.d["label"] == String(d.caption) && d.caption != []
    && OptionalText(v.d, "alt_label", d.altCaption)
    && "query" in v.d && v.d["query"].Dict? && DescribesQuery(v.d["query"].d, d.query)
    && (if "has_subdepartments" in v.d then v.d["has_subdepartments"] == Bool(d.hasSubs) else !d.hasSubs)
    && (if "departments" in v.d
        then v.d["departments"].Array? && |v.d["departments"].a| == |d.subs| &&
             forall i :: 0 <= i < |d.subs| ==> DescribesDepartment(v.d["departments"].a[i], d.subs[i])
        else d.subs == [])
  }

  lemma {:induction false} AllCreatedIff(a: seq<Variant>, ds: seq<Department>)
    ensures CreateAll(a) == Ok(ds) <==> |a| == |ds| && forall i :: 0 <= i < |a| ==> Create(a[i]) == Ok(ds[i])
    decreases |a|
  {
    if a != [] {
      CreateFirst(a);
      if ds != [] {
        AllCreatedIff(a[1..], ds[1..]);
        assert ds == [ds[0]] + ds[1..];
        assert forall i :: 0 < i < |a| ==> a[i] == a[1..][i - 1];
        assert forall i :: 0 < i < |ds| ==> ds[i] == ds[1..][i - 1];
      }
    }
  }

  lemma NodeIff(m: VariantMap, d: Department)
    ensures Create(Dict(m)) == Ok(d) <==>
            && "label" in m && m["label"] == String(d.caption) && d.caption != [] && OptionalText(m, "alt_label", d.altCaption)
            && "query" in m && m["query"].Dict? && FromMap(m["query"].d) == Ok(d.query)
            && (if "has_subdepartments" in m then m["has_subdepartments"] == Bool(d.hasSubs) else !d.hasSubs)
            && (if "departments" in m then m["departments"].Array? && CreateAll(m["departments"].a) == Ok(d.subs) else d.subs == [])
  {
    DepartmentKeysDiffer();
  }

  /** A variant is read as a department exactly if it describes it, at every depth. */
  lemma {:induction false} DepartmentReadIff(v: Variant, d: Department)
    ensures Create(v) == Ok(d) <==> DescribesDepartment(v, d)
    decreases d
  {
    if v.Dict? {
      NodeIff(v.d, d);
      if "query" in v.d && v.d["query"].Dict? {
        QueryReadIff(v.d["query"].d, d.query);
      }
      if "departments" in v.d && v.d["departments"].Array? {
        var a := v.d["departments"].a;
        AllCreatedIff(a, d.subs);
        forall i | 0 <= i < |a| && i < |d.subs|
          ensures Create(a[i]) == Ok(d.subs[i]) <==> DescribesDepartment(a[i], d.subs[i])
        {
          DepartmentReadIff(a[i], d.subs[i]);
        }
      }
    }
  }

  /** So the variant form of a department is a description of it. */
  lemma WrittenDepartmentDescribes(d: Department)
    requires Valid(d)
    ensures DescribesDepartment(Dict(Departments.Serialize(d)), Canonical(d))
  {
    DepartmentRoundTrip(d);
    DepartmentReadIff(Dict(Departments.Serialize(d)), Canonical(d));
  }
}
