/** Variants and their comparison operators. */
module Variants {
  import opened Bytes

  type Int32 = x: int | -0x8000_0000 <= x < 0x8000_0000
  type Int64 = x: int | -0x8000_0000_0000_0000 <= x < 0x8000_0000_0000_0000

  /** A double; the two zeros are equal and count as one value. */
  datatype Float = NaN | NegInf | Finite(r: real) | PosInf

  type VariantMap = map<Str, Variant>

  datatype Variant =
    | Null
    | Int(i: Int32)
    | Bool(b: bool)
    | String(s: Str)
    | Double(f: Float)
    | Dict(d: map<Str, Variant>)
    | Array(a: seq<Variant>)
    | Long(n: Int64)

  /** Position in the Type enum, which is also the position in the underlying boost::variant. */
  function Which(v: Variant): nat {
    match v
    case Null => 0
    case Int(_) => 1
    case Bool(_) => 2
    case String(_) => 3
    case Double(_) => 4
    case Dict(_) => 5
    case Array(_) => 6
    case Long(_) => 7
  }

  // ----- operator== and operator<

  predicate FloatEq(x: Float, y: Float) {
    x == y && !x.NaN?
  }

  predicate FloatLess(x: Float, y: Float) {
    if x.NaN? || y.NaN? then false
    else if x.Finite? && y.Finite? then x.r < y.r
    else (x.NegInf? && !y.NegInf?) || (!x.PosInf? && y.PosInf?)
  }

  ghost predicate Eq(v: Variant, w: Variant)
    decreases v
  {
    match (v, w)
    case (Double(x), Double(y)) => FloatEq(x, y)
    case (Dict(d), Dict(e)) => d.Keys == e.Keys && forall k :: k in d ==> Eq(d[k], e[k])
    case (Array(a), Array(b)) => |a| == |b| && forall i :: 0 <= i < |a| ==> Eq(a[i], b[i])
    case _ => v == w
  }

  ghost function MaxOf(s: set<nat>): (m: nat)
    ensures forall x :: x in s ==> x <= m
  {
    if s == {} then 0
    else
      var x :| x in s;
      assert forall y :: y in s ==> y == x || y in s - {x};
      var m := MaxOf(s - {x});
      if x > m then x else m
  }

  ghost function Height(v: Variant): (h: nat)
    ensures v.Dict? ==> forall k :: k in v.d ==> Height(v.d[k]) < h
    ensures v.Array? ==> forall i :: 0 <= i < |v.a| ==> Height(v.a[i]) < h
  {
    match v
    case Dict(d) =>
      var hs := set k | k in d :: Height(d[k]);
      assert forall k :: k in d ==> Height(d[k]) in hs;
      1 + MaxOf(hs)
    case Array(a) =>
      var hs := set i | 0 <= i < |a| :: Height(a[i]);
      assert forall i :: 0 <= i < |a| ==> Height(a[i]) in hs;
      1 + MaxOf(hs)
    case _ => 0
  }

  predicate IsContainer(v: Variant) {
    v.Dict? || v.Array?
  }

  /** What a container iterates over. An array compares like a list of entries with equal keys. */
  ghost function Items(v: Variant): (r: seq<(Str, Variant)>)
    requires IsContainer(v)
    ensures forall i :: 0 <= i < |r| ==> Height(r[i].1) < Height(v)
  {
    if v.Array? then seq(|v.a|, i requires 0 <= i < |v.a| => ([], v.a[i]))
    else
      var ks := SortedKeys(v.d.Keys);
      seq(|ks|, i requires 0 <= i < |ks| => (ks[i], v.d[ks[i]]))
  }

  ghost predicate Less(v: Variant, w: Variant)
    decreases Height(v) + Height(w), 1, 0
  {
    if Which(v) != Which(w) then Which(v) < Which(w)
    else
      match v
      case Null => false
      case Int(i) => i < w.i
      case Bool(b) => !b && w.b
      case String(s) => StrLess(s, w.s)
      case Double(f) => FloatLess(f, w.f)
      case Dict(_) => ItemsLess(v, w, 0)
      case Array(_) => ItemsLess(v, w, 0)
      case Long(n) => n < w.n
  }

  /** operator< of std::pair on the entries at position i. */
  ghost predicate EntryLess(v: Variant, w: Variant, i: nat)
    requires IsContainer(v) && IsContainer(w) && i < |Items(v)| && i < |Items(w)|
    decreases Height(v) + Height(w), 0, 0
  {
    var x, y := Items(v)[i], Items(w)[i];
    StrLess(x.0, y.0) || (!StrLess(y.0, x.0) && Less(x.1, y.1))
  }

  /** std::lexicographical_compare from position i on. */
  ghost predicate ItemsLess(v: Variant, w: Variant, i: nat)
    requires IsContainer(v) && IsContainer(w) && i <= |Items(v)| && i <= |Items(w)|
    decreases Height(v) + Height(w), 0, |Items(v)| - i + 1
  {
    if i == |Items(w)| then false
    else if i == |Items(v)| then true
    else if EntryLess(v, w, i) then true
    else if EntryLess(w, v, i) then false
    else ItemsLess(v, w, i + 1)
  }

  // ----- the order is total wherever there is no NaN

  ghost predicate NaNFree(v: Variant) {
    match v
    case Double(f) => !f.NaN?
    case Dict(d) => forall k :: k in d ==> NaNFree(d[k])
    case Array(a) => forall i :: 0 <= i < |a| ==> NaNFree(a[i])
    case _ => true
  }

  /** Equality is identity on values without NaN... */
  lemma {:induction false} EqIsIdentity(v: Variant, w: Variant)
    requires NaNFree(v)
    ensures Eq(v, w) <==> v == w
    decreases v
  {
    match (v, w)
    case (Dict(d), Dict(e)) =>
      forall k | k in d && k in e
        ensures Eq(d[k], e[k]) <==> d[k] == e[k]
      {
        EqIsIdentity(d[k], e[k]);
      }
      assert v == w <==> d == e;
    case (Array(a), Array(b)) =>
      forall i | 0 <= i < |a| && i < |b|
        ensures Eq(a[i], b[i]) <==> a[i] == b[i]
      {
        EqIsIdentity(a[i], b[i]);
      }
      assert v == w <==> a == b;
    case _ =>
  }

  /** ...and a variant equals itself exactly if it contains no NaN at any depth. */
  lemma {:induction false} ReflexiveIffNaNFree(v: Variant)
    ensures Eq(v, v) <==> NaNFree(v)
    decreases v
  {
    match v
    case Dict(d) =>
      forall k | k in d
        ensures Eq(d[k], d[k]) <==> NaNFree(d[k])
      {
        ReflexiveIffNaNFree(d[k]);
      }
    case Array(a) =>
      forall i | 0 <= i < |a|
        ensures Eq(a[i], a[i]) <==> NaNFree(a[i])
      {
        ReflexiveIffNaNFree(a[i]);
      }
    case _ =>
  }

  /** The two containers list the same entries from position i on. */
  ghost predicate SameFrom(v: Variant, w: Variant, i: nat)
    requires IsContainer(v) && IsContainer(w)
  {
    |Items(v)| == |Items(w)| && forall j :: i <= j < |Items(v)| ==> Items(v)[j] == Items(w)[j]
  }

  lemma SameKeys(d: VariantMap, e: VariantMap)
    requires SameFrom(Dict(d), Dict(e), 0)
    ensures d.Keys == e.Keys
  {
    var ks, js := SortedKeys(d.Keys), SortedKeys(e.Keys);
    assert forall i :: 0 <= i < |ks| ==> Items(Dict(d))[i].0 == ks[i];
    assert forall i :: 0 <= i < |js| ==> Items(Dict(e))[i].0 == js[i];
    SameListing(ks, js, d.Keys, e.Keys);
  }

  lemma SameListing(ks: seq<Str>, js: seq<Str>, a: set<Str>, b: set<Str>)
    requires |ks| == |js| && forall i :: 0 <= i < |ks| ==> ks[i] == js[i]
    requires (forall k :: k in ks <==> k in a) && (forall k :: k in js <==> k in b)
    ensures a == b
  {
    assert ks == js;
  }

  lemma SameItems(v: Variant, w: Variant)
    requires IsContainer(v) && Which(v) == Which(w) && SameFrom(v, w, 0)
    ensures v == w
  {
    if v.Array? {
      assert forall i :: 0 <= i < |v.a| ==> Items(v)[i].1 == v.a[i];
      assert v.a == w.a;
    } else {
      SameKeys(v.d, w.d);
      var ks := SortedKeys(v.d.Keys);
      forall k | k in v.d
        ensures v.d[k] == w.d[k]
      {
        var i :| 0 <= i < |ks| && ks[i] == k;
        assert Items(v)[i].1 == v.d[k] && Items(w)[i].1 == w.d[k];
      }
      assert v.d == w.d;
    }
  }

  lemma {:induction false} Trichotomy(v: Variant, w: Variant)
    requires NaNFree(v) && NaNFree(w)
    ensures Less(v, w) <==> !Less(w, v) && v != w
    decreases Height(v) + Height(w), 1, 0
  {
    if Which(v) == Which(w) {
      if IsContainer(v) {
        ItemsTrichotomy(v, w, 0);
        if SameFrom(v, w, 0) {
          SameItems(v, w);
        }
      } else if v.String? {
        StrTrichotomy(v.s, w.s);
      }
    }
  }

  lemma {:induction false} ItemsTrichotomy(v: Variant, w: Variant, i: nat)
    requires NaNFree(v) && NaNFree(w) && IsContainer(v) && Which(v) == Which(w)
    requires i <= |Items(v)| && i <= |Items(w)|
    ensures ItemsLess(v, w, i) <==> !ItemsLess(w, v, i) && !SameFrom(v, w, i)
    decreases Height(v) + Height(w), 0, |Items(v)| - i
  {
    if i < |Items(v)| && i < |Items(w)| {
      EntryTrichotomy(v, w, i);
      ItemsTrichotomy(v, w, i + 1);
      assert SameFrom(v, w, i) <==> Items(v)[i] == Items(w)[i] && SameFrom(v, w, i + 1);
    }
  }

  lemma {:induction false} EntryTrichotomy(v: Variant, w: Variant, i: nat)
    requires NaNFree(v) && NaNFree(w) && IsContainer(v) && Which(v) == Which(w)
    requires i < |Items(v)| && i < |Items(w)|
    ensures EntryLess(v, w, i) <==> !EntryLess(w, v, i) && Items(v)[i] != Items(w)[i]
    decreases Height(v) + Height(w), 0, 0
  {
    var x, y := Items(v)[i], Items(w)[i];
    StrTrichotomy(x.0, y.0);
    Trichotomy(x.1, y.1);
  }

  lemma {:induction false} Transitive(u: Variant, v: Variant, w: Variant)
    requires NaNFree(u) && NaNFree(v) && NaNFree(w)
    requires Less(u, v) && Less(v, w)
    ensures Less(u, w)
    decreases Height(u) + Height(v) + Height(w), 1, 0
  {
    if Which(u) == Which(v) == Which(w) {
      if IsContainer(u) {
        ItemsTransitive(u, v, w, 0);
      } else if u.String? {
        StrTransitive(u.s, v.s, w.s);
      }
    }
  }

  lemma {:induction false} ItemsTransitive(u: Variant, v: Variant, w: Variant, i: nat)
    requires NaNFree(u) && NaNFree(v) && NaNFree(w) && IsContainer(u) && Which(u) == Which(v) == Which(w)
    requires i <= |Items(u)| && i <= |Items(v)| && i <= |Items(w)|
    requires ItemsLess(u, v, i) && ItemsLess(v, w, i)
    ensures ItemsLess(u, w, i)
    decreases Height(u) + Height(v) + Height(w), 0, |Items(u)| - i
  {
    if i < |Items(u)| {
      EntryTrichotomy(u, v, i);
      EntryTrichotomy(v, w, i);
      EntryTrichotomy(u, w, i);
      if EntryLess(u, v, i) && EntryLess(v, w, i) {
        EntryTransitive(u, v, w, i);
      } else if !EntryLess(u, v, i) && !EntryLess(v, w, i) {
        ItemsTransitive(u, v, w, i + 1);
      } else {
        EntryCongruent(u, v, w, i);
      }
    }
  }

  lemma {:induction false} EntryTransitive(u: Variant, v: Variant, w: Variant, i: nat)
    requires NaNFree(u) && NaNFree(v) && NaNFree(w) && IsContainer(u) && Which(u) == Which(v) == Which(w)
    requires i < |Items(u)| && i < |Items(v)| && i < |Items(w)|
    requires EntryLess(u, v, i) && EntryLess(v, w, i)
    ensures EntryLess(u, w, i)
    decreases Height(u) + Height(v) + Height(w), 0, 0
  {
    var x, y, z := Items(u)[i], Items(v)[i], Items(w)[i];
    StrTrichotomy(x.0, y.0);
    StrTrichotomy(y.0, z.0);
    StrTrichotomy(x.0, z.0);
    if StrLess(x.0, y.0) && StrLess(y.0, z.0) {
      StrTransitive(x.0, y.0, z.0);
    } else if x.0 == y.0 == z.0 {
      Transitive(x.1, y.1, z.1);
    }
  }

  lemma EntryCongruent(u: Variant, v: Variant, w: Variant, i: nat)
    requires IsContainer(u) && IsContainer(v) && IsContainer(w)
    requires i < |Items(u)| && i < |Items(v)| && i < |Items(w)|
    requires || (Items(u)[i] == Items(v)[i] && EntryLess(v, w, i))
             || (EntryLess(u, v, i) && Items(v)[i] == Items(w)[i])
    ensures EntryLess(u, w, i)
  {
  }

  /** operator< is a strict total order, in step with operator==, on all variants without NaN. */
  lemma OperatorLessIsAStrictTotalOrder(u: Variant, v: Variant, w: Variant)
    requires NaNFree(u) && NaNFree(v) && NaNFree(w)
    ensures !Less(v, v)
    ensures Less(u, v) && Less(v, w) ==> Less(u, w)
    ensures Eq(u, v) ==> !Less(u, v) && !Less(v, u)
    ensures Less(u, v) ==> !Eq(u, v) && !Less(v, u)
    ensures Less(u, v) || Eq(u, v) || Less(v, u)
  {
    Trichotomy(v, v);
    Trichotomy(u, v);
    EqIsIdentity(u, v);
    if Less(u, v) && Less(v, w) {
      Transitive(u, v, w);
    }
  }

  /** operator< orders the variants of `S` strictly and totally, and operator== holds where neither is less. */
  ghost predicate StrictlyOrders(S: iset<Variant>) {
    && (forall v :: v in S ==> !Less(v, v))
    && (forall u, v, w :: u in S && v in S && w in S && Less(u, v) && Less(v, w) ==> Less(u, w))
    && (forall u, v :: u in S && v in S ==> (Eq(u, v) <==> !Less(u, v) && !Less(v, u)) && !(Less(u, v) && Less(v, u)))
  }

  /** It does exactly for the sets of variants without a NaN at any depth. */
  lemma OrdersIffNaNFree(S: iset<Variant>)
    ensures StrictlyOrders(S) <==> forall v :: v in S ==> NaNFree(v)
  {
    if forall v :: v in S ==> NaNFree(v) {
      forall u, v, w | u in S && v in S && w in S
        ensures !Less(v, v) && (Less(u, v) && Less(v, w) ==> Less(u, w))
        ensures (Eq(u, v) <==> !Less(u, v) && !Less(v, u)) && !(Less(u, v) && Less(v, u))
      {
        OperatorLessIsAStrictTotalOrder(u, v, w);
      }
      assert forall v :: v in S ==> !Less(v, v);
    } else {
      var v :| v in S && !NaNFree(v);
      ReflexiveIffNaNFree(v);
    }
  }

  /** With NaN inside arrays, operator< can run in a circle. */
  lemma NaNBreaksTransitivity()
    ensures var u := Array([Double(Finite(2.0)), Int(0)]);
            var v := Array([Double(NaN), Int(1)]);
            var w := Array([Double(Finite(1.0)), Int(2)]);
            Less(u, v) && Less(v, w) && Less(w, u) && !Less(u, w)
  {
    var u := Array([Double(Finite(2.0)), Int(0)]);
    var v := Array([Double(NaN), Int(1)]);
    var w := Array([Double(Finite(1.0)), Int(2)]);
    assert EntryLess(w, u, 0) && !EntryLess(u, w, 0);
    assert !EntryLess(u, v, 0) && !EntryLess(v, u, 0) && EntryLess(u, v, 1);
    assert !EntryLess(v, w, 0) && !EntryLess(w, v, 0) && EntryLess(v, w, 1);
    assert ItemsLess(u, v, 1) && ItemsLess(v, w, 1);
  }
}
