/** Conversion between variants and JSON trees. Integers lose the distinction between 32 and 64 bits on
    the way, and strings pass through char pointers, which end at the first NUL. */
module JsonNodes {
  import opened Bytes
  import opened Variants

  const NUL: Byte := '\0'

  /** A json-glib tree. Objects keep their members in insertion order, one per name. */
  datatype Node =
    | JNull
    | JInt(n: Int64)
    | JDouble(f: Float)
    | JBool(b: bool)
    | JString(s: Str)
    | JArray(elements: seq<Node>)
    | JObject(members: seq<(Str, Node)>)

  /** What is left of a string that is handed over as a char pointer. */
  function CStr(s: Str): (r: Str)
    ensures NUL !in r
    ensures r == s <==> NUL !in s
  {
    if s == [] || s[0] == NUL then []
    else [s[0]] + CStr(s[1..])
  }

  /** json_object_set_member: replaces the member of that name, or appends. */
  function SetMember(ms: seq<(Str, Node)>, name: Str, n: Node): seq<(Str, Node)> {
    if ms == [] then [(name, n)]
    else if ms[0].0 == name then [(name, n)] + ms[1..]
    else [ms[0]] + SetMember(ms[1..], name, n)
  }

  ghost function ToNode(v: Variant): Node
    decreases v, 1, 0
  {
    match v
    case Null => JNull
    case Int(i) => JInt(i)
    case Long(n) => JInt(n)
    case Bool(b) => JBool(b)
    case String(s) => JString(CStr(s))
    case Double(f) => JDouble(f)
    case Array(a) => JArray(seq(|a|, i requires 0 <= i < |a| => ToNode(a[i])))
    case Dict(d) => JObject(Members(v, SortedKeys(d.Keys)))
  }

  /** The object after the members `ks` have been set, in this order. */
  ghost function Members(v: Variant, ks: seq<Str>): seq<(Str, Node)>
    requires v.Dict? && forall k :: k in ks ==> k in v.d
    decreases v, 0, |ks|
  {
    if ks == [] then []
    else
      var last := ks[|ks| - 1];
      SetMember(Members(v, ks[..|ks| - 1]), CStr(last), ToNode(v.d[last]))
  }

  predicate FitsInt(n: int) {
    -0x8000_0000 <= n < 0x8000_0000
  }

  function ToVariant(n: Node): Variant
    decreases n, 1, 0
  {
    match n
    case JNull => Null
    case JInt(x) => if FitsInt(x) then Int(x) else Long(x)
    case JDouble(f) => Double(f)
    case JBool(b) => Bool(b)
    case JString(s) => String(s)
    case JArray(es) => Array(seq(|es|, i requires 0 <= i < |es| => ToVariant(es[i])))
    case JObject(ms) => Dict(Collect(n, |ms|))
  }

  /** The dictionary after the first `i` members. */
  function Collect(n: Node, i: nat): VariantMap
    requires n.JObject? && i <= |n.members|
    decreases n, 0, i
  {
    if i == 0 then map[]
    else
      var last := n.members[i - 1];
      Collect(n, i - 1)[last.0 := ToVariant(last.1)]
  }

  // ----- what survives

  /** Every 64-bit integer that fits 32 bits becomes a 32-bit integer, at any depth. */
  ghost function Narrow(v: Variant): Variant {
    match v
    case Long(n) => if FitsInt(n) then Int(n) else v
    case Array(a) => Array(seq(|a|, i requires 0 <= i < |a| => Narrow(a[i])))
    case Dict(d) => Dict(map k | k in d :: Narrow(d[k]))
    case _ => v
  }

  ghost predicate NulFree(v: Variant) {
    match v
    case String(s) => NUL !in s
    case Array(a) => forall i :: 0 <= i < |a| ==> NulFree(a[i])
    case Dict(d) => forall k :: k in d ==> NUL !in k && NulFree(d[k])
    case _ => true
  }

  lemma {:induction false} NarrowIdempotent(v: Variant)
    ensures Narrow(Narrow(v)) == Narrow(v)
    decreases v
  {
    match v
    case Array(a) =>
      forall i | 0 <= i < |a|
        ensures Narrow(Narrow(a[i])) == Narrow(a[i])
      {
        NarrowIdempotent(a[i]);
      }
    case Dict(d) =>
      forall k | k in d
        ensures Narrow(Narrow(d[k])) == Narrow(d[k])
      {
        NarrowIdempotent(d[k]);
      }
    case _ =>
  }

  lemma {:induction false} SetNewMember(ms: seq<(Str, Node)>, name: Str, n: Node)
    requires forall i :: 0 <= i < |ms| ==> ms[i].0 != name
    ensures SetMember(ms, name, n) == ms + [(name, n)]
  {
    if ms != [] {
      SetNewMember(ms[1..], name, n);
    }
  }

  lemma {:induction false} SetMemberNames(ms: seq<(Str, Node)>, name: Str, n: Node)
    requires forall i :: 0 <= i < |ms| ==> NUL !in ms[i].0
    requires NUL !in name
    ensures forall i :: 0 <= i < |SetMember(ms, name, n)| ==> NUL !in SetMember(ms, name, n)[i].0
  {
    if ms != [] && ms[0].0 != name {
      SetMemberNames(ms[1..], name, n);
    }
  }

  /** Without NUL in the names, nothing is merged or lost. */
  lemma {:induction false} MembersInOrder(v: Variant, ks: seq<Str>)
    requires v.Dict? && Ascending(ks)
    requires forall k :: k in ks ==> k in v.d && NUL !in k
    ensures Members(v, ks) == seq(|ks|, i requires 0 <= i < |ks| => (ks[i], ToNode(v.d[ks[i]])))
    decreases |ks|
  {
    if ks != [] {
      var init, last := ks[..|ks| - 1], ks[|ks| - 1];
      MembersInOrder(v, init);
      forall i | 0 <= i < |init|
        ensures init[i] != last
      {
        StrTrichotomy(init[i], last);
      }
      SetNewMember(Members(v, init), last, ToNode(v.d[last]));
    }
  }

  lemma {:induction false} MemberNames(v: Variant, ks: seq<Str>)
    requires v.Dict? && forall k :: k in ks ==> k in v.d
    ensures forall i :: 0 <= i < |Members(v, ks)| ==> NUL !in Members(v, ks)[i].0
    decreases |ks|
  {
    if ks != [] {
      var last := ks[|ks| - 1];
      MemberNames(v, ks[..|ks| - 1]);
      SetMemberNames(Members(v, ks[..|ks| - 1]), CStr(last), ToNode(v.d[last]));
    }
  }

  lemma {:induction false} CollectKeys(n: Node, i: nat)
    requires n.JObject? && i <= |n.members|
    ensures forall k :: k in Collect(n, i) ==> exists j :: 0 <= j < i && n.members[j].0 == k
  {
    if i > 0 {
      CollectKeys(n, i - 1);
    }
  }

  /** Collecting a listing of distinct names gives back each name's own value. */
  lemma {:induction false} CollectListing(v: Variant, ks: seq<Str>, n: Node, i: nat)
    requires v.Dict? && Ascending(ks) && forall k :: k in ks ==> k in v.d
    requires n.JObject? && |n.members| == |ks| && i <= |ks|
    requires forall j :: 0 <= j < |ks| ==> n.members[j] == (ks[j], ToNode(v.d[ks[j]]))
    ensures Collect(n, i) == map k | k in ks[..i] :: ToVariant(ToNode(v.d[k]))
  {
    if i > 0 {
      CollectListing(v, ks, n, i - 1);
      assert ks[..i] == ks[..i - 1] + [ks[i - 1]];
    }
  }

  lemma DictRoundTrip(d: VariantMap)
    requires forall k :: k in d ==> NUL !in k
    ensures ToVariant(ToNode(Dict(d))).d == map k | k in d :: ToVariant(ToNode(d[k]))
  {
    var v, ks := Dict(d), SortedKeys(d.Keys);
    SortedKeysAscend(d.Keys);
    MembersInOrder(v, ks);
    CollectListing(v, ks, ToNode(v), |ks|);
    assert ks[..|ks|] == ks;
  }

  lemma NamesLoseNul(d: VariantMap, k: Str)
    requires NUL in k
    ensures k !in ToVariant(ToNode(Dict(d))).d
  {
    var v := Dict(d);
    MemberNames(v, SortedKeys(d.Keys));
    CollectKeys(ToNode(v), |ToNode(v).members|);
  }

  /** Through a JSON tree and back, a variant comes out with its integers narrowed and otherwise
      unchanged exactly if no string or name in it, at any depth, contains NUL. */
  lemma {:induction false} TreeRoundTrip(v: Variant)
    ensures ToVariant(ToNode(v)) == Narrow(v) <==> NulFree(v)
    decreases v, 1
  {
    match v
    case Array(a) => ArrayTreeRoundTrip(v);
    case Dict(d) => DictTreeRoundTrip(v);
    case _ =>
  }

  lemma {:induction false} ArrayTreeRoundTrip(v: Variant)
    requires v.Array?
    ensures ToVariant(ToNode(v)) == Narrow(v) <==> NulFree(v)
    decreases v, 0
  {
    var b, c := ToVariant(ToNode(v)).a, Narrow(v).a;
    forall i | 0 <= i < |v.a|
      ensures b[i] == c[i] <==> NulFree(v.a[i])
    {
      TreeRoundTrip(v.a[i]);
    }
    assert b == c <==> NulFree(v);
  }

  lemma {:induction false} DictTreeRoundTrip(v: Variant)
    requires v.Dict?
    ensures ToVariant(ToNode(v)) == Narrow(v) <==> NulFree(v)
    decreases v, 0
  {
    var d, e := ToVariant(ToNode(v)).d, Narrow(v).d;
    if k :| k in v.d && NUL in k {
      NamesLoseNul(v.d, k);
      assert k in e;
    } else {
      DictRoundTrip(v.d);
      forall k | k in v.d
        ensures d[k] == e[k] <==> NulFree(v.d[k])
      {
        TreeRoundTrip(v.d[k]);
      }
      assert d == e <==> NulFree(v);
    }
  }

  // ----- what a tree stands for

  /** The tree says the same as the variant: same kind, same value, the same elements in order, and one member for every
      entry. An integer may stand for either width. */
  ghost predicate Represents(n: Node, v: Variant)
    decreases n
  {
    match n
    case JNull => v == Null
    case JInt(x) => (v.Int? && v.i == x) || (v.Long? && v.n == x)
    case JDouble(f) => v == Double(f)
    case JBool(b) => v == Bool(b)
    case JString(s) => v == String(s)
    case JArray(es) => v.Array? && |v.a| == |es| && forall i :: 0 <= i < |es| ==> Represents(es[i], v.a[i])
    case JObject(ms) =>
      && v.Dict? && DistinctNames(ms)
      && (forall i :: 0 <= i < |ms| ==> ms[i].0 in v.d && Represents(ms[i].1, v.d[ms[i].0]))
      && (forall k :: k in v.d ==> exists i :: 0 <= i < |ms| && ms[i].0 == k)
  }

  ghost predicate DistinctNames(ms: seq<(Str, Node)>) {
    forall i, j :: 0 <= i < j < |ms| ==> ms[i].0 != ms[j].0
  }

  lemma ObjectRepresents(v: Variant, ks: seq<Str>, n: Node)
    requires v.Dict? && Ascending(ks) && forall k :: k in ks <==> k in v.d
    requires n.JObject? && |n.members| == |ks|
    requires forall i :: 0 <= i < |ks| ==> n.members[i].0 == ks[i] && ks[i] in v.d && Represents(n.members[i].1, v.d[ks[i]])
    ensures Represents(n, v)
  {
    forall i, j | 0 <= i < j < |ks|
      ensures n.members[i].0 != n.members[j].0
    {
      StrTrichotomy(ks[i], ks[j]);
    }
    forall k | k in v.d
      ensures exists i :: 0 <= i < |n.members| && n.members[i].0 == k
    {
      var i :| 0 <= i < |ks| && ks[i] == k;
      assert n.members[i].0 == k;
    }
  }

  /** A variant without NUL is turned into a tree that says the same. */
  lemma {:induction false} TreeRepresents(v: Variant)
    requires NulFree(v)
    ensures Represents(ToNode(v), v)
  {
    match v
    case Array(a) =>
      forall i | 0 <= i < |a|
        ensures Represents(ToNode(v).elements[i], a[i])
      {
        TreeRepresents(a[i]);
      }
    case Dict(d) =>
      var ks := SortedKeys(d.Keys);
      SortedKeysAscend(d.Keys);
      MembersInOrder(v, ks);
      forall i | 0 <= i < |ks|
        ensures Represents(ToNode(v).members[i].1, d[ks[i]])
      {
        TreeRepresents(d[ks[i]]);
      }
      ObjectRepresents(v, ks, ToNode(v));
    case _ =>
  }

  /** Objects have one member per name, at every depth. */
  ghost predicate WellNamed(n: Node)
    decreases n
  {
    match n
    case JArray(es) => forall i :: 0 <= i < |es| ==> WellNamed(es[i])
    case JObject(ms) => DistinctNames(ms) && forall i :: 0 <= i < |ms| ==> WellNamed(ms[i].1)
    case _ => true
  }

  lemma {:induction false} CollectDistinct(n: Node, i: nat, j: nat)
    requires n.JObject? && DistinctNames(n.members) && j < i <= |n.members|
    ensures n.members[j].0 in Collect(n, i) && Collect(n, i)[n.members[j].0] == ToVariant(n.members[j].1)
  {
    if j < i - 1 {
      CollectDistinct(n, i - 1, j);
    }
  }

  /** Every tree is turned into a variant that says the same. */
  lemma {:induction false} VariantRepresents(n: Node)
    requires WellNamed(n)
    ensures Represents(n, ToVariant(n))
  {
    match n
    case JArray(es) =>
      forall i | 0 <= i < |es|
        ensures Represents(es[i], ToVariant(n).a[i])
      {
        VariantRepresents(es[i]);
      }
    case JObject(ms) =>
      CollectKeys(n, |ms|);
      forall i | 0 <= i < |ms|
        ensures ms[i].0 in ToVariant(n).d && Represents(ms[i].1, ToVariant(n).d[ms[i].0])
      {
        CollectDistinct(n, |ms|, i);
        VariantRepresents(ms[i].1);
      }
    case _ =>
  }

  /** Every string ends at its first NUL. */
  ghost function Cut(v: Variant): Variant {
    match v
    case String(s) => String(CStr(s))
    case Array(a) => Array(seq(|a|, i requires 0 <= i < |a| => Cut(a[i])))
    case Dict(d) => Dict(map k | k in d :: Cut(d[k]))
    case _ => v
  }

  ghost predicate NamesNulFree(v: Variant) {
    match v
    case Array(a) => forall i :: 0 <= i < |a| ==> NamesNulFree(a[i])
    case Dict(d) => forall k :: k in d ==> NUL !in k && NamesNulFree(d[k])
    case _ => true
  }

  /** With NUL in strings but not in names, what comes out is cut and narrowed. */
  lemma {:induction false} TreeCuts(v: Variant)
    requires NamesNulFree(v)
    ensures ToVariant(ToNode(v)) == Narrow(Cut(v))
  {
    match v
    case Array(a) =>
      forall i | 0 <= i < |a|
        ensures ToVariant(ToNode(a[i])) == Narrow(Cut(a[i]))
      {
        TreeCuts(a[i]);
      }
      assert ToVariant(ToNode(v)).a == Narrow(Cut(v)).a;
    case Dict(d) =>
      DictRoundTrip(d);
      forall k | k in d
        ensures ToVariant(ToNode(d[k])) == Narrow(Cut(d[k]))
      {
        TreeCuts(d[k]);
      }
      assert ToVariant(ToNode(v)).d == Narrow(Cut(v)).d;
    case _ =>
  }

  // ----- the loops of the source

  method VariantToNode(v: Variant) returns (n: Node)
    ensures n == ToNode(v)
    decreases v, 1
  {
    match v
    case Null => n := JNull;
    case Int(i) => n := JInt(i);
    case Long(x) => n := JInt(x);
    case Bool(b) => n := JBool(b);
    case String(s) => n := JString(CStr(s));
    case Double(f) => n := JDouble(f);
    case Array(a) =>
      var es: seq<Node> := [];
      for i := 0 to |a|
        invariant |es| == i && forall j :: 0 <= j < i ==> es[j] == ToNode(a[j])
      {
        var e := VariantToNode(a[i]);
        es := es + [e];
      }
      n := JArray(es);
    case Dict(d) => n := DictToNode(v);
  }

  lemma NextMember(v: Variant, ks: seq<Str>, i: nat)
    requires v.Dict? && i < |ks| && forall k :: k in ks ==> k in v.d
    ensures Members(v, ks[..i + 1]) == SetMember(Members(v, ks[..i]), CStr(ks[i]), ToNode(v.d[ks[i]]))
  {
    assert ks[..i + 1][..i] == ks[..i];
  }

  method DictToNode(v: Variant) returns (n: Node)
    requires v.Dict?
    ensures n == JObject(Members(v, SortedKeys(v.d.Keys)))
    decreases v, 0
  {
    var ms: seq<(Str, Node)> := [];
    var ks := IterationOrder(v.d.Keys);
    for i := 0 to |ks|
      invariant ms == Members(v, ks[..i])
    {
      var e := VariantToNode(v.d[ks[i]]);
      NextMember(v, ks, i);
      ms := SetMember(ms, CStr(ks[i]), e);
    }
    assert ks[..|ks|] == ks;
    n := JObject(ms);
  }

  method NodeToVariant(n: Node) returns (v: Variant)
    ensures v == ToVariant(n)
    decreases n
  {
    match n
    case JNull => v := Null;
    case JInt(x) =>
      if x < -0x8000_0000 || x > 0x7fff_ffff {
        v := Long(x);
      } else {
        v := Int(x);
      }
    case JDouble(f) => v := Double(f);
    case JBool(b) => v := Bool(b);
    case JString(s) => v := String(s);
    case JArray(es) =>
      var a: seq<Variant> := [];
      for i := 0 to |es|
        invariant |a| == i && forall j :: 0 <= j < i ==> a[j] == ToVariant(es[j])
      {
        var e := NodeToVariant(es[i]);
        a := a + [e];
      }
      v := Array(a);
    case JObject(ms) =>
      var d: VariantMap := map[];
      for i := 0 to |ms|
        invariant d == Collect(n, i)
      {
        var e := NodeToVariant(ms[i].1);
        d := d[ms[i].0 := e];
      }
      v := Dict(d);
  }
}
