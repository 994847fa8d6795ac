/** Canned queries: their variant form, and their scope:// URIs. */
module CannedQueries {
  import opened Bytes
  import opened Results
  import opened Variants
  import opened JsonNodes
  import opened Percent

  datatype Query = Query(
    scopeId: Str, queryString: Str, departmentId: Str, filterState: VariantMap, userData: Option<Variant>)

  /** The JSON text layer, which is foreign code. `parse` fails on text that is not JSON. */
  datatype JsonText = JsonText(write: Node -> Str, parse: Str -> Option<Node>)

  /** What this model relies on about the text layer, for one tree. */
  ghost predicate ReadsBack(text: JsonText, n: Node) {
    text.parse(text.write(n)) == Some(n)
  }

  const SCHEMA: Str := "scope://"

  // ----- to_uri

  function Pair(key: Str, value: Str): Str {
    key + "=" + Encode(value)
  }

  function Dep(id: Str): Str {
    if id == [] then [] else "&" + Pair("dep", id)
  }

  ghost function Filters(m: VariantMap, text: JsonText): Str {
    if m == map[] then [] else "&" + Pair("filters", text.write(ToNode(Dict(m))))
  }

  ghost function Data(d: Option<Variant>, text: JsonText): Str {
    if d.None? then [] else "&" + Pair("data", text.write(ToNode(d.value)))
  }

  ghost function Parameters(q: Query, text: JsonText): Str {
    Pair("q", q.queryString) + Dep(q.departmentId) + Filters(q.filterState, text) + Data(q.userData, text)
  }

  ghost function ToUri(q: Query, text: JsonText): Str {
    SCHEMA + q.scopeId + "?" + Parameters(q, text)
  }

  // ----- from_uri

  /** The first position of `c`, or the length if there is none. */
  function IndexOf(s: Str, c: Byte): (i: nat)
    ensures i <= |s| && c !in s[..i]
    ensures i < |s| ==> s[i] == c
    ensures i < |s| <==> c in s
  {
    if s == [] || s[0] == c then 0
    else
      assert s == [s[0]] + s[1..];
      1 + IndexOf(s[1..], c)
  }

  /** What std::getline yields one after the other. */
  function Segments(s: Str): seq<Str> {
    if s == [] then []
    else
      var i := IndexOf(s, '&');
      if i == |s| then [s] else [s[..i]] + Segments(s[i + 1..])
  }

  function ReadJson(value: Str, text: JsonText): Result<Variant> {
    var json :- Decode(value);
    match text.parse(json)
    case None => Throws(Resource)
    case Some(n) => Ok(ToVariant(n))
  }

  /** One key=value pair; unknown keys are ignored. */
  function KeyValue(q: Query, key: Str, value: Str, text: JsonText): Result<Query> {
    if key == "q" then
      var s :- Decode(value);
      Ok(q.(queryString := s))
    else if key == "dep" then
      var s :- Decode(value);
      Ok(q.(departmentId := s))
    else if key == "filters" then
      var v :- ReadJson(value, text);
      if v.Dict? then Ok(q.(filterState := v.d)) else Throws(InvalidArgument)
    else if key == "data" then
      var v :- ReadJson(value, text);
      Ok(q.(userData := Some(v)))
    else Ok(q)
  }

  /** A segment without '=' is ignored. */
  function Segment(q: Query, kv: Str, text: JsonText): Result<Query> {
    var i := IndexOf(kv, '=');
    if i == |kv| then Ok(q) else KeyValue(q, kv[..i], kv[i + 1..], text)
  }

  function AllSegments(q: Query, kvs: seq<Str>, text: JsonText): Result<Query>
    decreases |kvs|
  {
    if kvs == [] then Ok(q)
    else
      var q' :- Segment(q, kvs[0], text);
      AllSegments(q', kvs[1..], text)
  }

  function FromUri(uri: Str, text: JsonText): Result<Query> {
    if !(SCHEMA <= uri) then Throws(InvalidArgument)
    else
      var rest := uri[|SCHEMA|..];
      var next := IndexOf(rest, '?');
      if next == 0 then Throws(InvalidArgument)
      else
        var id :- Decode(rest[..next]);
        var q := Query(id, [], [], map[], None);
        if next == |rest| then Ok(q) else AllSegments(q, Segments(rest[next + 1..]), text)
  }

  // ----- segments put together come apart again

  lemma {:induction false} FirstSegment(a: Str, b: Str)
    requires '&' !in a
    ensures Segments(a + "&" + b) == [a] + Segments(b)
    ensures a != [] ==> Segments(a) == [a]
  {
    var s := a + "&" + b;
    FirstIndex(a, "&" + b, '&');
    assert s == a + ("&" + b) && s[..|a|] == a && s[|a| + 1..] == b;
    assert IndexOf(a, '&') == |a|;
  }

  lemma {:induction false} FirstIndex(a: Str, b: Str, c: Byte)
    requires c !in a && b != [] && b[0] == c
    ensures IndexOf(a + b, c) == |a|
  {
    assert (a + b)[|a|] == c;
    assert forall j :: 0 <= j < |a| ==> (a + b)[j] == a[j];
  }

  function Join(kvs: seq<Str>): Str {
    if kvs == [] then [] else if |kvs| == 1 then kvs[0] else kvs[0] + "&" + Join(kvs[1..])
  }

  lemma {:induction false} AllSegmentsAppend(q: Query, a: seq<Str>, b: seq<Str>, text: JsonText)
    ensures AllSegments(q, a + b, text) ==
            match AllSegments(q, a, text) case Ok(q') => AllSegments(q', b, text) case Throws(e) => Throws(e)
    decreases |a|
  {
    if a == [] {
      assert a + b == b;
    } else {
      assert (a + b)[1..] == a[1..] + b;
      var r := Segment(q, a[0], text);
      if r.Ok? {
        AllSegmentsAppend(r.value, a[1..], b, text);
      }
    }
  }

  /** Splitting what was joined has the same effect as the segments themselves. */
  lemma {:induction false} SplitJoin(q: Query, kvs: seq<Str>, text: JsonText)
    requires forall i :: 0 <= i < |kvs| ==> '&' !in kvs[i]
    ensures AllSegments(q, Segments(Join(kvs)), text) == AllSegments(q, kvs, text)
    decreases |kvs|
  {
    if |kvs| == 1 {
      FirstSegment(kvs[0], []);
      assert IndexOf([], '=') == 0;
    } else if |kvs| > 1 {
      FirstSegment(kvs[0], Join(kvs[1..]));
      var r := Segment(q, kvs[0], text);
      if r.Ok? {
        SplitJoin(r.value, kvs[1..], text);
      }
    }
  }

  /** The meaning of a URI with scope `id` and parameters `kvs`. */
  function Interpret(id: Str, kvs: seq<Str>, text: JsonText): Result<Query> {
    if id == [] then Throws(InvalidArgument)
    else
      var decoded :- Decode(id);
      AllSegments(Query(decoded, [], [], map[], None), kvs, text)
  }

  lemma {:induction false} UriParts(id: Str, parameters: Str)
    requires '?' !in id
    ensures var uri := SCHEMA + id + "?" + parameters;
            && SCHEMA <= uri
            && var rest := uri[|SCHEMA|..];
               IndexOf(rest, '?') == |id| && |id| < |rest| && rest[..|id|] == id && rest[|id| + 1..] == parameters
  {
    var uri := SCHEMA + id + "?" + parameters;
    assert uri[|SCHEMA|..] == id + ("?" + parameters);
    FirstIndex(id, "?" + parameters, '?');
  }

  lemma {:induction false} FromUriInterprets(id: Str, kvs: seq<Str>, text: JsonText)
    requires '?' !in id && forall i :: 0 <= i < |kvs| ==> '&' !in kvs[i]
    ensures FromUri(SCHEMA + id + "?" + Join(kvs), text) == Interpret(id, kvs, text)
  {
    UriParts(id, Join(kvs));
    if id != [] && Decode(id).Ok? {
      SplitJoin(Query(Decode(id).value, [], [], map[], None), kvs, text);
    }
  }

  ghost predicate Ignorable(kv: Str) {
    '=' !in kv || kv[..IndexOf(kv, '=')] !in {"q", "dep", "filters", "data"}
  }

  lemma {:induction false} IgnoredSegment(q: Query, before: seq<Str>, junk: Str, after: seq<Str>, text: JsonText)
    requires Ignorable(junk)
    ensures AllSegments(q, before + [junk] + after, text) == AllSegments(q, before + after, text)
  {
    AllSegmentsAppend(q, before, [junk] + after, text);
    AllSegmentsAppend(q, before, after, text);
    assert before + [junk] + after == before + ([junk] + after);
    assert ([junk] + after)[1..] == after;
  }

  /** Segments without '=' or with an unknown key never change the result, wherever they stand. */
  lemma {:induction false} UnknownSegmentsAreIgnored(
    id: Str, before: seq<Str>, junk: Str, after: seq<Str>, text: JsonText)
    requires '?' !in id && Ignorable(junk) && '&' !in junk
    requires forall i :: 0 <= i < |before| ==> '&' !in before[i]
    requires forall i :: 0 <= i < |after| ==> '&' !in after[i]
    ensures FromUri(SCHEMA + id + "?" + Join(before + [junk] + after), text)
            == FromUri(SCHEMA + id + "?" + Join(before + after), text)
  {
    FromUriInterprets(id, before + [junk] + after, text);
    FromUriInterprets(id, before + after, text);
    if Decode(id).Ok? {
      IgnoredSegment(Query(Decode(id).value, [], [], map[], None), before, junk, after, text);
    }
  }

  // ----- round trip

  /** A variant after its trip through JSON. */
  ghost function Tree(v: Variant): Variant {
    ToVariant(ToNode(v))
  }

  function DepPairs(id: Str): seq<Str> {
    if id == [] then [] else [Pair("dep", id)]
  }

  ghost function FilterPairs(m: VariantMap, text: JsonText): seq<Str> {
    if m == map[] then [] else [Pair("filters", text.write(ToNode(Dict(m))))]
  }

  ghost function DataPairs(d: Option<Variant>, text: JsonText): seq<Str> {
    if d.None? then [] else [Pair("data", text.write(ToNode(d.value)))]
  }

  ghost function Pairs(q: Query, text: JsonText): seq<Str> {
    [Pair("q", q.queryString)]
    + (DepPairs(q.departmentId) + (FilterPairs(q.filterState, text) + DataPairs(q.userData, text)))
  }

  /** Each of `kvs` with the separator in front. */
  function Separated(kvs: seq<Str>): Str {
    if kvs == [] then [] else "&" + kvs[0] + Separated(kvs[1..])
  }

  lemma {:induction false} SeparatedAppend(a: seq<Str>, b: seq<Str>)
    ensures Separated(a + b) == Separated(a) + Separated(b)
    decreases |a|
  {
    if a == [] {
      assert a + b == b;
    } else {
      assert (a + b)[1..] == a[1..] + b;
      SeparatedAppend(a[1..], b);
    }
  }

  lemma {:induction false} JoinSeparated(kvs: seq<Str>)
    requires kvs != []
    ensures Join(kvs) == kvs[0] + Separated(kvs[1..])
    decreases |kvs|
  {
    if |kvs| > 1 {
      JoinSeparated(kvs[1..]);
    }
  }

  lemma {:induction false} JoinParts(a: Str, b: seq<Str>, c: seq<Str>, d: seq<Str>)
    ensures Join([a] + (b + (c + d))) == a + Separated(b) + Separated(c) + Separated(d)
  {
    JoinSeparated([a] + (b + (c + d)));
    assert ([a] + (b + (c + d)))[1..] == b + (c + d);
    SeparatedAppend(b, c + d);
    SeparatedAppend(c, d);
    assert a + (Separated(b) + (Separated(c) + Separated(d))) == a + Separated(b) + Separated(c) + Separated(d);
  }

  lemma {:induction false} OneSeparated(kv: Str)
    ensures Separated([kv]) == "&" + kv
  {
    assert [kv][1..] == [] && "&" + kv + [] == "&" + kv;
  }

  lemma {:induction false} ParametersJoinPairs(q: Query, text: JsonText)
    ensures Parameters(q, text) == Join(Pairs(q, text))
  {
    var deps, filters, data := DepPairs(q.departmentId), FilterPairs(q.filterState, text), DataPairs(q.userData, text);
    JoinParts(Pair("q", q.queryString), deps, filters, data);
    if deps != [] {
      OneSeparated(deps[0]);
    }
    if filters != [] {
      OneSeparated(filters[0]);
    }
    if data != [] {
      OneSeparated(data[0]);
    }
  }

  lemma {:induction false} KeyAndValue(key: Str, value: Str)
    requires '=' !in key && '&' !in key && '&' !in value
    ensures var kv := key + "=" + value;
            && '&' !in kv && IndexOf(kv, '=') == |key| && |key| < |kv|
            && kv[..|key|] == key && kv[|key| + 1..] == value
  {
    assert key + "=" + value == key + ("=" + value);
    FirstIndex(key, "=" + value, '=');
  }

  /** An encoded value stands where the parser looks for it. */
  lemma {:induction false} ReadPair(q: Query, key: Str, s: Str, text: JsonText)
    requires '=' !in key && '&' !in key
    ensures AllSegments(q, [Pair(key, s)], text) == KeyValue(q, key, Encode(s), text)
    ensures Decode(Encode(s)) == Ok(s) && '&' !in Pair(key, s)
  {
    EncodedBytes(s);
    DecodeEncode(s);
    KeyAndValue(key, Encode(s));
    assert [Pair(key, s)][1..] == [];
  }

  /** What each group of parameters does to the query that has been read so far. */
  lemma {:induction false} ReadDep(q: Query, id: Str, text: JsonText)
    requires q.departmentId == []
    ensures AllSegments(q, DepPairs(id), text) == Ok(q.(departmentId := id))
    ensures forall i :: 0 <= i < |DepPairs(id)| ==> '&' !in DepPairs(id)[i]
  {
    if id != [] {
      ReadPair(q, "dep", id, text);
    }
  }

  lemma EmptyTree(m: VariantMap)
    requires m == map[]
    ensures Tree(Dict(m)) == Dict(m)
  {
    TreeRoundTrip(Dict(m));
    assert Narrow(Dict(m)).d == map[];
  }

  lemma {:induction false} ReadFilterJson(q: Query, json: Str, v: Variant, text: JsonText)
    requires v.Dict? && text.parse(json).Some? && ToVariant(text.parse(json).value) == v
    ensures AllSegments(q, [Pair("filters", json)], text) == Ok(q.(filterState := v.d))
    ensures '&' !in Pair("filters", json)
  {
    ReadPair(q, "filters", json, text);
  }

  lemma {:induction false} ReadFilters(q: Query, m: VariantMap, text: JsonText)
    requires q.filterState == map[] && ReadsBack(text, ToNode(Dict(m)))
    ensures Tree(Dict(m)).Dict? && AllSegments(q, FilterPairs(m, text), text) == Ok(q.(filterState := Tree(Dict(m)).d))
    ensures forall i :: 0 <= i < |FilterPairs(m, text)| ==> '&' !in FilterPairs(m, text)[i]
  {
    if m == map[] {
      EmptyTree(m);
    } else {
      ReadFilterJson(q, text.write(ToNode(Dict(m))), Tree(Dict(m)), text);
    }
  }

  lemma {:induction false} ReadData(q: Query, d: Option<Variant>, text: JsonText)
    requires q.userData == None && (d.Some? ==> ReadsBack(text, ToNode(d.value)))
    ensures AllSegments(q, DataPairs(d, text), text)
            == Ok(q.(userData := if d.Some? then Some(Tree(d.value)) else None))
    ensures forall i :: 0 <= i < |DataPairs(d, text)| ==> '&' !in DataPairs(d, text)[i]
  {
    if d.Some? {
      ReadPair(q, "data", text.write(ToNode(d.value)), text);
    }
  }

  /** The text layer gives back the trees of this query. */
  ghost predicate TextCarries(text: JsonText, q: Query) {
    ReadsBack(text, ToNode(Dict(q.filterState))) && (q.userData.Some? ==> ReadsBack(text, ToNode(q.userData.value)))
  }

  /** The query that comes out when the scope id survives. */
  ghost function Carried(q: Query): (r: Query)
    ensures Tree(Dict(q.filterState)).Dict?
  {
    q.(filterState := Tree(Dict(q.filterState)).d,
       userData := if q.userData.Some? then Some(Tree(q.userData.value)) else None)
  }

  ghost predicate NoSeparator(kvs: seq<Str>) {
    forall i :: 0 <= i < |kvs| ==> '&' !in kvs[i]
  }

  lemma NoSeparatorAppend(a: seq<Str>, b: seq<Str>)
    requires NoSeparator(a) && NoSeparator(b)
    ensures NoSeparator(a + b)
  {
  }

  /** Four groups of segments, one after the other. */
  lemma {:induction false} ReadInTurn(q0: Query, q1: Query, q2: Query, q3: Query, q4: Query,
                                      a: seq<Str>, b: seq<Str>, c: seq<Str>, d: seq<Str>, text: JsonText)
    requires AllSegments(q0, a, text) == Ok(q1) && AllSegments(q1, b, text) == Ok(q2)
    requires AllSegments(q2, c, text) == Ok(q3) && AllSegments(q3, d, text) == Ok(q4)
    requires NoSeparator(a) && NoSeparator(b) && NoSeparator(c) && NoSeparator(d)
    ensures AllSegments(q0, a + (b + (c + d)), text) == Ok(q4) && NoSeparator(a + (b + (c + d)))
  {
    AllSegmentsAppend(q0, a, b + (c + d), text);
    AllSegmentsAppend(q1, b, c + d, text);
    AllSegmentsAppend(q2, c, d, text);
    NoSeparatorAppend(c, d);
    NoSeparatorAppend(b, c + d);
    NoSeparatorAppend(a, b + (c + d));
  }

  lemma {:induction false} ReadQueryString(q: Query, s: Str, text: JsonText)
    ensures AllSegments(q, [Pair("q", s)], text) == Ok(q.(queryString := s)) && NoSeparator([Pair("q", s)])
  {
    ReadPair(q, "q", s, text);
  }

  lemma {:induction false} ReadPairs(q: Query, text: JsonText)
    requires TextCarries(text, q)
    ensures AllSegments(Query(q.scopeId, [], [], map[], None), Pairs(q, text), text) == Ok(Carried(q))
    ensures forall i :: 0 <= i < |Pairs(q, text)| ==> '&' !in Pairs(q, text)[i]
  {
    var q0 := Query(q.scopeId, [], [], map[], None);
    var q1 := q0.(queryString := q.queryString);
    var q2 := q1.(departmentId := q.departmentId);
    var q3 := q2.(filterState := Carried(q).filterState);
    ReadQueryString(q0, q.queryString, text);
    ReadDep(q1, q.departmentId, text);
    ReadFilters(q2, q.filterState, text);
    ReadData(q3, q.userData, text);
    ReadInTurn(q0, q1, q2, q3, Carried(q), [Pair("q", q.queryString)], DepPairs(q.departmentId),
               FilterPairs(q.filterState, text), DataPairs(q.userData, text), text);
  }

  lemma {:induction false} AllSegmentsKeepScope(q: Query, kvs: seq<Str>, text: JsonText)
    ensures var r := AllSegments(q, kvs, text); r.Ok? ==> r.value.scopeId == q.scopeId
    decreases |kvs|
  {
    if kvs != [] {
      var r := Segment(q, kvs[0], text);
      if r.Ok? {
        AllSegmentsKeepScope(r.value, kvs[1..], text);
      }
    }
  }

  lemma {:induction false} ScopeIdRead(id: Str, parameters: Str, text: JsonText)
    requires '?' !in id
    ensures var r := FromUri(SCHEMA + id + "?" + parameters, text); r.Ok? ==> Decode(id) == Ok(r.value.scopeId)
  {
    UriParts(id, parameters);
    if id != [] && Decode(id).Ok? {
      AllSegmentsKeepScope(Query(Decode(id).value, [], [], map[], None), Segments(parameters), text);
    }
  }

  /** The text up to the first '?' of the scope id, and the rest. */
  lemma {:induction false} SplitScopeId(id: Str, parameters: Str) returns (read: Str, tail: Str)
    ensures SCHEMA + id + "?" + parameters == SCHEMA + read + "?" + tail
    ensures '?' !in read && if '?' in id then |read| < |id| else read == id
  {
    var next := IndexOf(id, '?');
    read := id[..next];
    if next == |id| {
      tail := parameters;
    } else {
      tail := id[next + 1..] + "?" + parameters;
      assert id == read + "?" + id[next + 1..];
    }
  }

  /** A scope id that contains '?' or '%' comes back shorter, if at all. */
  lemma {:induction false} ScopeIdLost(id: Str, parameters: Str, text: JsonText)
    requires '%' in id || '?' in id
    ensures var r := FromUri(SCHEMA + id + "?" + parameters, text); r.Ok? ==> |r.value.scopeId| < |id|
  {
    var read, tail := SplitScopeId(id, parameters);
    ScopeIdRead(read, tail, text);
    DecodeLength(read);
  }

  /** The same query up to the width of its integers. */
  ghost function NarrowQuery(q: Query): Query {
    q.(filterState := Narrow(Dict(q.filterState)).d,
       userData := if q.userData.Some? then Some(Narrow(q.userData.value)) else None)
  }

  /** A canned query survives its URI, up to the width of integers in its filter state and user data,
      exactly if its scope id contains neither '%' nor '?' and its filter state and user data contain no
      NUL. */
  lemma {:induction false} UriRoundTrip(q: Query, text: JsonText)
    requires q.scopeId != [] && TextCarries(text, q)
    ensures FromUri(ToUri(q, text), text) == Ok(NarrowQuery(q)) <==>
            && '%' !in q.scopeId && '?' !in q.scopeId
            && NulFree(Dict(q.filterState)) && (q.userData.Some? ==> NulFree(q.userData.value))
  {
    if '%' in q.scopeId || '?' in q.scopeId {
      ScopeIdLost(q.scopeId, Parameters(q, text), text);
    } else {
      ReadPairs(q, text);
      ParametersJoinPairs(q, text);
      FromUriInterprets(q.scopeId, Pairs(q, text), text);
      DecodeLength(q.scopeId);
      assert FromUri(ToUri(q, text), text) == Ok(Carried(q));
      TreeRoundTrip(Dict(q.filterState));
      if q.userData.Some? {
        TreeRoundTrip(q.userData.value);
      }
    }
  }

  /** A scope id that reads as percent-encoded text comes back decoded, the rest of the query as usual. */
  lemma {:induction false} ScopeIdComesBackDecoded(q: Query, text: JsonText)
    requires q.scopeId != [] && '?' !in q.scopeId && Decode(q.scopeId).Ok? && TextCarries(text, q)
    ensures FromUri(ToUri(q, text), text) == Ok(Carried(q).(scopeId := Decode(q.scopeId).value))
  {
    var q' := q.(scopeId := Decode(q.scopeId).value);
    ReadPairs(q', text);
    ParametersJoinPairs(q, text);
    assert Pairs(q', text) == Pairs(q, text);
    FromUriInterprets(q.scopeId, Pairs(q, text), text);
  }

  /** The URI of a query for the scope "%41" names the scope "A". */
  lemma PercentInScopeId(text: JsonText)
    requires TextCarries(text, Query("%41", [], [], map[], None))
    ensures FromUri(ToUri(Query("%41", [], [], map[], None), text), text) == Ok(Query("A", [], [], map[], None))
  {
    var id: Str := "%41";
    assert Decode(id) == Ok("A") by {
      assert id[3..] == [] && HexPair(id[1], id[2]) == Some('A');
      assert Decode(id[3..]) == Ok([]) && ['A'] + [] == "A";
    }
    ScopeIdComesBackDecoded(Query(id, [], [], map[], None), text);
    EmptyTree(map[]);
  }

  // ----- the methods of the source

  method PrintPair(key: Str, value: Str) returns (s: Str)
    ensures s == Pair(key, value)
  {
    var e := ToPercentEncoding(value);
    s := key + "=" + e;
  }

  method PrintDep(id: Str) returns (s: Str)
    ensures s == Dep(id)
  {
    if id == [] {
      return [];
    }
    s := PrintPair("dep", id);
    s := "&" + s;
  }

  method PrintFilters(m: VariantMap, text: JsonText) returns (s: Str)
    ensures s == Filters(m, text)
  {
    if m == map[] {
      return [];
    }
    var n := VariantToNode(Dict(m));
    s := PrintPair("filters", text.write(n));
    s := "&" + s;
  }

  method PrintData(d: Option<Variant>, text: JsonText) returns (s: Str)
    ensures s == Data(d, text)
  {
    if d.None? {
      return [];
    }
    var n := VariantToNode(d.value);
    s := PrintPair("data", text.write(n));
    s := "&" + s;
  }

  method PrintUri(q: Query, text: JsonText) returns (s: Str)
    ensures s == ToUri(q, text)
  {
    s := PrintPair("q", q.queryString);
    var dep := PrintDep(q.departmentId);
    var filters := PrintFilters(q.filterState, text);
    var data := PrintData(q.userData, text);
    s := SCHEMA + q.scopeId + "?" + (s + dep + filters + data);
  }

  method ReadUri(uri: Str, text: JsonText) returns (r: Result<Query>)
    ensures r == FromUri(uri, text)
  {
    if !(SCHEMA <= uri) {
      return Throws(InvalidArgument);
    }
    var rest := uri[|SCHEMA|..];
    var next := IndexOf(rest, '?');
    if next == 0 {
      return Throws(InvalidArgument);
    }
    var id := FromPercentEncoding(rest[..next]);
    if id.Throws? {
      return Throws(id.error);
    }
    var q := Query(id.value, [], [], map[], None);
    if next == |rest| {
      return Ok(q);
    }
    r := ReadParameters(q, rest[next + 1..], text);
  }

  /** The getline loop. */
  method ReadParameters(q0: Query, s: Str, text: JsonText) returns (r: Result<Query>)
    ensures r == AllSegments(q0, Segments(s), text)
  {
    var q, left := q0, s;
    while left != []
      invariant AllSegments(q, Segments(left), text) == AllSegments(q0, Segments(s), text)
      decreases |left|
    {
      var i := IndexOf(left, '&');
      ghost var after := if i == |left| then [] else left[i + 1..];
      assert Segments(left) == [left[..i]] + Segments(after) by {
        if i == |left| {
          assert left[..i] == left;
        }
      }
      assert Segments(left)[0] == left[..i] && Segments(left)[1..] == Segments(after);
      var q' := ReadSegment(q, left[..i], text);
      if q'.Throws? {
        return q';
      }
      q, left := q'.value, if i == |left| then [] else left[i + 1..];
    }
    return Ok(q);
  }

  method ReadSegment(q: Query, kv: Str, text: JsonText) returns (r: Result<Query>)
    ensures r == Segment(q, kv, text)
  {
    var i := IndexOf(kv, '=');
    if i == |kv| {
      return Ok(q);
    }
    var key, value := kv[..i], kv[i + 1..];
    if key == "q" || key == "dep" || key == "filters" || key == "data" {
      var s := FromPercentEncoding(value);
      if s.Throws? {
        return Throws(s.error);
      }
      if key == "q" {
        return Ok(q.(queryString := s.value));
      }
      if key == "dep" {
        return Ok(q.(departmentId := s.value));
      }
      var n := text.parse(s.value);
      if n.None? {
        return Throws(Resource);
      }
      var v := NodeToVariant(n.value);
      if key == "data" {
        return Ok(q.(userData := Some(v)));
      }
      if !v.Dict? {
        return Throws(InvalidArgument);
      }
      return Ok(q.(filterState := v.d));
    }
    return Ok(q);
  }
}
