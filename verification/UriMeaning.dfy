/** What a scope:// URI means, for every text: which texts are refused, and which parameter sets which field. */
module UriMeaning {
  import opened Bytes
  import opened Results
  import opened Variants
  import opened JsonNodes
  import opened Percent
  import opened CannedQueries

  // ----- the scope part

  /** A text without the schema, or without a scope id, is refused. */
  lemma NotAUri(uri: Str, text: JsonText)
    requires !(SCHEMA <= uri) || uri == SCHEMA || SCHEMA + "?" <= uri
    ensures FromUri(uri, text) == Throws(InvalidArgument)
  {
    if SCHEMA + "?" <= uri {
      assert uri[|SCHEMA|] == '?';
    }
  }

  /** A URI may end after the scope id; that means the same as no parameters. */
  lemma {:induction false} NoParameters(id: Str, text: JsonText)
    requires '?' !in id
    ensures FromUri(SCHEMA + id, text) == FromUri(SCHEMA + id + "?", text)
    ensures id != [] && Decode(id).Ok? ==> FromUri(SCHEMA + id, text) == Ok(Query(Decode(id).value, [], [], map[], None))
    ensures id != [] && '%' !in id ==> FromUri(SCHEMA + id, text) == Ok(Query(id, [], [], map[], None))
    ensures id == [] || Decode(id).Throws? ==> FromUri(SCHEMA + id, text) == Throws(InvalidArgument)
  {
    var bare, full := SCHEMA + id, SCHEMA + id + "?";
    assert bare[|SCHEMA|..] == id && IndexOf(id, '?') == |id| && id[..|id|] == id;
    UriParts(id, []);
    assert full == SCHEMA + id + "?" + [];
    DecodeLength(id);
    DecodeRefuses(id);
  }

  /** Decoding fails in only one way. */
  lemma {:induction false} DecodeRefuses(s: Str)
    ensures Decode(s).Throws? ==> Decode(s).error == InvalidArgument
  {
    if s != [] {
      DecodeRefuses(s[1..]);
      if |s| >= 3 {
        DecodeRefuses(s[3..]);
      }
    }
  }

  // ----- the parameters

  const Q: Str := "q"
  const DEP: Str := "dep"
  const FILTERS: Str := "filters"
  const DATA: Str := "data"

  /** The value that a segment gives to a key. */
  function ValueOf(kv: Str, key: Str): Option<Str> {
    if |key| < |kv| && kv[..|key|] == key && kv[|key|] == '=' then Some(kv[|key| + 1..]) else None
  }

  /** The JSON value that percent-encoded text stands for. */
  function JsonOf(value: Str, text: JsonText): Option<Variant> {
    match Decode(value)
    case Throws(_) => None
    case Ok(json) => match text.parse(json) case None => None case Some(n) => Some(ToVariant(n))
  }

  ghost predicate Readable(kv: Str, text: JsonText) {
    && (ValueOf(kv, Q).Some? ==> Decode(ValueOf(kv, Q).value).Ok?)
    && (ValueOf(kv, DEP).Some? ==> Decode(ValueOf(kv, DEP).value).Ok?)
    && (ValueOf(kv, FILTERS).Some? ==> JsonOf(ValueOf(kv, FILTERS).value, text).Some? && JsonOf(ValueOf(kv, FILTERS).value, text).value.Dict?)
    && (ValueOf(kv, DATA).Some? ==> JsonOf(ValueOf(kv, DATA).value, text).Some?)
  }

  /** Well-encoded text that is not JSON is a resource error, anything else an invalid argument. */
  ghost predicate NotJson(kv: Str, key: Str, text: JsonText) {
    ValueOf(kv, key).Some? && Decode(ValueOf(kv, key).value).Ok? && text.parse(Decode(ValueOf(kv, key).value).value).None?
  }

  /** The text before the first '=' is the key. */
  lemma KeyIsBeforeEquals(kv: Str, key: Str)
    requires '=' !in key
    ensures var i := IndexOf(kv, '=');
            && (ValueOf(kv, key).Some? <==> i < |kv| && kv[..i] == key)
            && (ValueOf(kv, key).Some? ==> ValueOf(kv, key).value == kv[i + 1..])
  {
    if ValueOf(kv, key).Some? {
      FirstIndex(key, kv[|key|..], '=');
      assert key + kv[|key|..] == kv;
    }
  }

  lemma KeysAreDistinct()
    ensures Q != DEP && Q != FILTERS && Q != DATA && DEP != FILTERS && DEP != DATA && FILTERS != DATA
    ensures '=' !in Q && '=' !in DEP && '=' !in FILTERS && '=' !in DATA
  {
  }

  /** What one segment does to one field. */
  function TextAfter(kv: Str, key: Str, before: Str): Str {
    if ValueOf(kv, key).Some? && Decode(ValueOf(kv, key).value).Ok? then Decode(ValueOf(kv, key).value).value else before
  }

  function FiltersAfter(kv: Str, before: VariantMap, text: JsonText): VariantMap {
    if ValueOf(kv, FILTERS).Some? then
      match JsonOf(ValueOf(kv, FILTERS).value, text) case Some(Dict(d)) => d case _ => before
    else before
  }

  function DataAfter(kv: Str, before: Option<Variant>, text: JsonText): Option<Variant> {
    if ValueOf(kv, DATA).Some? && JsonOf(ValueOf(kv, DATA).value, text).Some? then JsonOf(ValueOf(kv, DATA).value, text)
    else before
  }

  lemma SegmentMeans(q: Query, kv: Str, text: JsonText)
    ensures var r := Segment(q, kv, text);
            && (r.Ok? <==> Readable(kv, text))
            && (r.Ok? ==> r.value == Query(q.scopeId, TextAfter(kv, Q, q.queryString), TextAfter(kv, DEP, q.departmentId),
                                           FiltersAfter(kv, q.filterState, text), DataAfter(kv, q.userData, text)))
            && (r.Throws? ==> r.error == if NotJson(kv, FILTERS, text) || NotJson(kv, DATA, text) then Resource else InvalidArgument)
  {
    KeysAreDistinct();
    KeyIsBeforeEquals(kv, Q);
    KeyIsBeforeEquals(kv, DEP);
    KeyIsBeforeEquals(kv, FILTERS);
    KeyIsBeforeEquals(kv, DATA);
    var i := IndexOf(kv, '=');
    if i < |kv| {
      DecodeRefuses(kv[i + 1..]);
    }
  }

  /** The value of the last segment for a key; earlier ones are overwritten. */
  function LastOf(kvs: seq<Str>, key: Str): Option<Str> {
    if kvs == [] then None
    else if ValueOf(kvs[|kvs| - 1], key).Some? then ValueOf(kvs[|kvs| - 1], key)
    else LastOf(kvs[..|kvs| - 1], key)
  }

  ghost predicate AllReadable(kvs: seq<Str>, text: JsonText) {
    forall i :: 0 <= i < |kvs| ==> Readable(kvs[i], text)
  }

  lemma AllButLast(q: Query, kvs: seq<Str>, text: JsonText)
    requires kvs != []
    ensures var before, last := kvs[..|kvs| - 1], kvs[|kvs| - 1];
            AllSegments(q, kvs, text) ==
            match AllSegments(q, before, text) case Ok(q') => Segment(q', last, text) case Throws(e) => Throws(e)
  {
    var before, last := kvs[..|kvs| - 1], kvs[|kvs| - 1];
    assert kvs == before + [last];
    AllSegmentsAppend(q, before, [last], text);
    var one := [last];
    assert one[1..] == [];
  }

  lemma ReadableLast(kvs: seq<Str>, text: JsonText)
    requires kvs != []
    ensures AllReadable(kvs, text) <==> AllReadable(kvs[..|kvs| - 1], text) && Readable(kvs[|kvs| - 1], text)
  {
    var before := kvs[..|kvs| - 1];
    assert forall i :: 0 <= i < |before| ==> before[i] == kvs[i];
  }

  /** Parameters are accepted exactly if every known one is readable. */
  lemma {:induction false} AcceptedIffReadable(q: Query, kvs: seq<Str>, text: JsonText)
    ensures AllSegments(q, kvs, text).Ok? <==> AllReadable(kvs, text)
    decreases |kvs|
  {
    if kvs != [] {
      var before := kvs[..|kvs| - 1];
      AllButLast(q, kvs, text);
      AcceptedIffReadable(q, before, text);
      ReadableLast(kvs, text);
      if AllSegments(q, before, text).Ok? {
        SegmentMeans(AllSegments(q, before, text).value, kvs[|kvs| - 1], text);
      }
    }
  }

  /** The first unreadable segment decides the exception. */
  lemma {:induction false} FirstUnreadableDecides(q: Query, kvs: seq<Str>, i: nat, text: JsonText)
    requires i < |kvs| && AllReadable(kvs[..i], text) && !Readable(kvs[i], text)
    ensures AllSegments(q, kvs, text) ==
            Throws(if NotJson(kvs[i], FILTERS, text) || NotJson(kvs[i], DATA, text) then Resource else InvalidArgument)
  {
    AcceptedIffReadable(q, kvs[..i], text);
    assert kvs == kvs[..i] + kvs[i..];
    AllSegmentsAppend(q, kvs[..i], kvs[i..], text);
    SegmentMeans(AllSegments(q, kvs[..i], text).value, kvs[i], text);
  }

  /** What the last value of each key makes of a query. */
  ghost predicate Set(q: Query, kvs: seq<Str>, text: JsonText, r: Query) {
    && r.scopeId == q.scopeId
    && r.queryString == (match LastOf(kvs, Q) case None => q.queryString case Some(v) => TextOf(v))
    && r.departmentId == (match LastOf(kvs, DEP) case None => q.departmentId case Some(v) => TextOf(v))
    && (match LastOf(kvs, FILTERS) case None => r.filterState == q.filterState case Some(v) => JsonOf(v, text) == Some(Dict(r.filterState)))
    && (match LastOf(kvs, DATA) case None => r.userData == q.userData case Some(v) => r.userData.Some? && JsonOf(v, text) == r.userData)
  }

  function TextOf(value: Str): Str {
    if Decode(value).Ok? then Decode(value).value else []
  }

  /** Accepted parameters set each field to the last value of its key and leave the others alone. */
  lemma {:induction false} LastValueCounts(q: Query, kvs: seq<Str>, text: JsonText)
    requires AllReadable(kvs, text)
    ensures AllSegments(q, kvs, text).Ok? && Set(q, kvs, text, AllSegments(q, kvs, text).value)
    decreases |kvs|
  {
    AcceptedIffReadable(q, kvs, text);
    if kvs != [] {
      var before, last := kvs[..|kvs| - 1], kvs[|kvs| - 1];
      AllButLast(q, kvs, text);
      LastValueCounts(q, before, text);
      SegmentMeans(AllSegments(q, before, text).value, last, text);
    }
  }

  /** The meaning of a whole URI. */
  lemma {:induction false} UriMeans(id: Str, kvs: seq<Str>, text: JsonText)
    requires '?' !in id && forall i :: 0 <= i < |kvs| ==> '&' !in kvs[i]
    ensures var r := FromUri(SCHEMA + id + "?" + Join(kvs), text);
            && (r.Ok? <==> id != [] && Decode(id).Ok? && AllReadable(kvs, text))
            && (r.Ok? ==> Set(Query(Decode(id).value, [], [], map[], None), kvs, text, r.value))
  {
    FromUriInterprets(id, kvs, text);
    if id != [] && Decode(id).Ok? {
      var q := Query(Decode(id).value, [], [], map[], None);
      AcceptedIffReadable(q, kvs, text);
      if AllReadable(kvs, text) {
        LastValueCounts(q, kvs, text);
      }
    }
  }
}
