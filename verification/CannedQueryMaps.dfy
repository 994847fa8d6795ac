/** The variant form in which canned queries travel inside other objects. */
module CannedQueryMaps {
  import opened Bytes
  import opened Results
  import opened Variants
  import opened CannedQueries

  // ----- accessors of Variant: any other type throws

  function GetString(v: Variant): Result<Str> {
    if v.String? then Ok(v.s) else Throws(Logic)
  }

  function GetDict(v: Variant): Result<VariantMap> {
    if v.Dict? then Ok(v.d) else Throws(Logic)
  }

  function GetArray(v: Variant): Result<seq<Variant>> {
    if v.Array? then Ok(v.a) else Throws(Logic)
  }

  function GetBool(v: Variant): Result<bool> {
    if v.Bool? then Ok(v.b) else Throws(Logic)
  }

  function GetInt(v: Variant): Result<Int32> {
    if v.Int? then Ok(v.i) else Throws(Logic)
  }

  function GetLong(v: Variant): Result<Int64> {
    if v.Long? then Ok(v.n) else Throws(Logic)
  }

  /** The string stored under an optional key. */
  function StringOr(m: VariantMap, key: Str, default: Str): Result<Str> {
    if key in m then GetString(m[key]) else Ok(default)
  }

  /** The same on the map itself: the entry is this string, or it is absent and the string is empty. */
  ghost predicate OptionalText(m: VariantMap, key: Str, s: Str) {
    if key in m then m[key] == String(s) else s == []
  }

  const SCOPE: Str := "scope"
  const QUERY_STRING: Str := "query_string"
  const DEPARTMENT_ID: Str := "department_id"
  const FILTER_STATE: Str := "filter_state"
  const USER_DATA: Str := "user_data"

  lemma KeysDiffer()
    ensures SCOPE != QUERY_STRING && SCOPE != DEPARTMENT_ID && SCOPE != FILTER_STATE && SCOPE != USER_DATA
    ensures QUERY_STRING != DEPARTMENT_ID && QUERY_STRING != FILTER_STATE && QUERY_STRING != USER_DATA
    ensures DEPARTMENT_ID != FILTER_STATE && DEPARTMENT_ID != USER_DATA && FILTER_STATE != USER_DATA
  {
    assert QUERY_STRING[0] != FILTER_STATE[0];
  }

  function Serialize(q: Query): VariantMap {
    var m: VariantMap := map[
      SCOPE := String(q.scopeId), QUERY_STRING := String(q.queryString),
      DEPARTMENT_ID := String(q.departmentId), FILTER_STATE := Dict(q.filterState)];
    if q.userData.Some? then m[USER_DATA := q.userData.value] else m
  }

  function FromMap(m: VariantMap): Result<Query> {
    if SCOPE !in m then Throws(InvalidArgument)
    else
      var id :- GetString(m[SCOPE]);
      if id == [] || FILTER_STATE !in m then Throws(InvalidArgument)
      else
        var filters :- GetDict(m[FILTER_STATE]);
        var dep :- StringOr(m, DEPARTMENT_ID, []);
        var s :- StringOr(m, QUERY_STRING, []);
        Ok(Query(id, s, dep, filters, if USER_DATA in m then Some(m[USER_DATA]) else None))
  }

  /** A canned query survives its variant form exactly if its scope id is not empty. */
  lemma QueryMapRoundTrip(q: Query)
    ensures FromMap(Serialize(q)) == Ok(q) <==> q.scopeId != []
    ensures q.scopeId == [] ==> FromMap(Serialize(q)) == Throws(InvalidArgument)
  {
    KeysDiffer();
  }
}
