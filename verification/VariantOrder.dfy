/** What operator< of variants means, kind by kind and value by value. */
module VariantOrder {
  import opened Bytes
  import opened Variants

  /** The kind of `v` comes before the kind of `w` in the Type enum. */
  predicate EarlierKind(v: Variant, w: Variant) {
    || (v.Null? && !w.Null?)
    || (v.Int? && (w.Bool? || w.String? || w.Double? || w.Dict? || w.Array? || w.Long?))
    || (v.Bool? && (w.String? || w.Double? || w.Dict? || w.Array? || w.Long?))
    || (v.String? && (w.Double? || w.Dict? || w.Array? || w.Long?))
    || (v.Double? && (w.Dict? || w.Array? || w.Long?))
    || (v.Dict? && (w.Array? || w.Long?))
    || (v.Array? && w.Long?)
  }

  /** Whatever the values, kinds are ordered as in the enum: any integer is less than any boolean, and so on. */
  lemma KindsFollowTheEnum(v: Variant, w: Variant)
    requires EarlierKind(v, w)
    ensures Less(v, w) && !Less(w, v) && !Eq(v, w)
  {
  }

  /** Numbers are ordered by value, false before true, and strings by their bytes. */
  lemma ScalarsByValue(i: Int32, j: Int32, m: Int64, n: Int64, b: bool, c: bool, s: Str, t: Str)
    ensures Less(Int(i), Int(j)) <==> i < j
    ensures Less(Long(m), Long(n)) <==> m < n
    ensures Less(Bool(b), Bool(c)) <==> !b && c
    ensures Less(String(s), String(t)) <==> StringBefore(s, t)
    ensures !Less(Null, Null)
  {
    StringsByFirstDifference(s, t);
  }

  /** Doubles are ordered by value between the infinities, and a NaN is on neither side of anything. */
  lemma DoublesByValue(x: real, y: real, f: Float)
    ensures Less(Double(Finite(x)), Double(Finite(y))) <==> x < y
    ensures Less(Double(NegInf), Double(f)) <==> f != NegInf && f != NaN
    ensures Less(Double(f), Double(PosInf)) <==> f != PosInf && f != NaN
    ensures !Less(Double(NaN), Double(f)) && !Less(Double(f), Double(NaN))
    ensures !Less(Double(PosInf), Double(f)) && !Less(Double(f), Double(NegInf))
  {
  }

  // ----- strings

  /** A proper prefix, or a smaller byte at the first difference. */
  ghost predicate StringBefore(s: Str, t: Str) {
    exists i :: StringBeforeAt(s, t, i)
  }

  ghost predicate StringBeforeAt(s: Str, t: Str, i: int) {
    0 <= i <= |s| && i < |t| && (forall k :: 0 <= k < i ==> s[k] == t[k]) && (i == |s| || s[i] < t[i])
  }

  lemma {:induction false} StringsByFirstDifference(s: Str, t: Str)
    ensures StrLess(s, t) <==> StringBefore(s, t)
  {
    if t != [] && (s == [] || s[0] != t[0]) {
      assert StrLess(s, t) ==> StringBeforeAt(s, t, 0);
    } else if t != [] {
      StringsByFirstDifference(s[1..], t[1..]);
      assert forall k :: 0 < k < |s| ==> s[k] == s[1..][k - 1];
      assert forall k :: 0 < k < |t| ==> t[k] == t[1..][k - 1];
      if i :| StringBeforeAt(s, t, i) {
        assert StringBeforeAt(s[1..], t[1..], i - 1);
      }
      if i :| StringBeforeAt(s[1..], t[1..], i) {
        assert StringBeforeAt(s, t, i + 1);
      }
    }
  }

  // ----- containers

  lemma {:induction false} ItemsStep(v: Variant, w: Variant, i: nat)
    requires NaNFree(v) && NaNFree(w) && IsContainer(v) && Which(v) == Which(w)
    requires i < |Items(v)| && i < |Items(w)|
    ensures ItemsLess(v, w, i) <==> if Items(v)[i] == Items(w)[i] then ItemsLess(v, w, i + 1) else EntryLess(v, w, i)
  {
    EntryTrichotomy(v, w, i);
    EntryTrichotomy(w, v, i);
  }

  lemma ItemsEnd(v: Variant, w: Variant, i: nat)
    requires IsContainer(v) && IsContainer(w) && i <= |Items(v)| && i <= |Items(w)| && (i == |Items(v)| || i == |Items(w)|)
    ensures ItemsLess(v, w, i) <==> i < |Items(w)|
  {
  }

  /** Two lists part at the first position at which they differ or at which one of them ends. */
  ghost predicate PartAt<T(!new)>(x: seq<T>, y: seq<T>, j: nat) {
    && j <= |x| && j <= |y| && (forall k :: 0 <= k < j ==> x[k] == y[k]) && (j < |x| && j < |y| ==> x[j] != y[j])
  }

  lemma {:induction false} Part<T(!new)>(x: seq<T>, y: seq<T>) returns (j: nat)
    ensures PartAt(x, y, j)
  {
    if x == [] || y == [] || x[0] != y[0] {
      j := 0;
    } else {
      j := Part(x[1..], y[1..]);
      assert forall k :: 0 < k < |x| ==> x[k] == x[1..][k - 1];
      assert forall k :: 0 < k < |y| ==> y[k] == y[1..][k - 1];
      j := j + 1;
    }
  }

  lemma {:induction false} PartingDecides(v: Variant, w: Variant, i: nat, j: nat)
    requires NaNFree(v) && NaNFree(w) && IsContainer(v) && Which(v) == Which(w)
    requires PartAt(Items(v), Items(w), j) && i <= j
    ensures ItemsLess(v, w, i) <==> j < |Items(w)| && (j == |Items(v)| || EntryLess(v, w, j))
    decreases j - i
  {
    if i == |Items(v)| || i == |Items(w)| {
      ItemsEnd(v, w, i);
    } else {
      ItemsStep(v, w, i);
      if i < j {
        PartingDecides(v, w, i + 1, j);
      }
    }
  }

  /** A proper prefix, or a lesser element at the first difference. */
  ghost predicate ArrayBefore(a: seq<Variant>, b: seq<Variant>) {
    exists i :: ArrayBeforeAt(a, b, i)
  }

  ghost predicate ArrayBeforeAt(a: seq<Variant>, b: seq<Variant>, i: int) {
    0 <= i <= |a| && i < |b| && (forall k :: 0 <= k < i ==> a[k] == b[k]) && (i == |a| || Less(a[i], b[i]))
  }

  lemma ArraysByFirstDifference(a: seq<Variant>, b: seq<Variant>)
    requires NaNFree(Array(a)) && NaNFree(Array(b))
    ensures Less(Array(a), Array(b)) <==> ArrayBefore(a, b)
  {
    var v, w := Array(a), Array(b);
    assert forall k :: 0 <= k < |a| ==> Items(v)[k] == ([], a[k]);
    assert forall k :: 0 <= k < |b| ==> Items(w)[k] == ([], b[k]);
    var j := Part(Items(v), Items(w));
    PartingDecides(v, w, 0, j);
    assert forall k :: 0 <= k < j ==> Items(v)[k] == Items(w)[k] && a[k] == b[k];
    StrTrichotomy([], []);
    if Less(v, w) {
      assert ArrayBeforeAt(a, b, j);
    }
    if i :| ArrayBeforeAt(a, b, i) {
      if i < |a| {
        Trichotomy(a[i], a[i]);
      }
      assert i == j;
    }
  }

  /** The least key at which two dictionaries differ. */
  ghost predicate LeastDifference(d: VariantMap, e: VariantMap, k: Str) {
    && !AgreeAt(d, e, k)
    && forall j :: StrLess(j, k) ==> AgreeAt(d, e, j)
  }

  ghost predicate AgreeAt(d: VariantMap, e: VariantMap, k: Str) {
    (k in d <==> k in e) && (k in d ==> d[k] == e[k])
  }

  ghost predicate HasKeyAfter(d: VariantMap, k: Str) {
    exists j :: j in d && StrLess(k, j)
  }

  /** At that key the lesser value decides; if only one side has the key, that side comes first exactly if the other
      side goes on. */
  ghost predicate DictBefore(d: VariantMap, e: VariantMap, k: Str) {
    if k in d && k in e then Less(d[k], e[k])
    else if k in d then HasKeyAfter(e, k)
    else !HasKeyAfter(d, k)
  }

  lemma OneLeastDifference(d: VariantMap, e: VariantMap, j: Str, k: Str)
    requires LeastDifference(d, e, j) && LeastDifference(d, e, k)
    ensures j == k
  {
    StrTrichotomy(j, k);
  }

  lemma DifferentSomewhere(d: VariantMap, e: VariantMap) returns (k: Str)
    requires d != e
    ensures LeastDifference(d, e, k)
  {
    var ks := set x | x in d.Keys + e.Keys && !AgreeAt(d, e, x);
    assert (forall x :: x in d.Keys + e.Keys ==> AgreeAt(d, e, x)) ==> d == e;
    var x :| x in d.Keys + e.Keys && !AgreeAt(d, e, x);
    assert x in ks;
    k := LeastExists(ks);
    forall j | StrLess(j, k)
      ensures AgreeAt(d, e, j)
    {
      if !AgreeAt(d, e, j) {
        assert j in ks;
        StrTrichotomy(j, k);
      }
    }
  }

  /** Keys below the one at position j are listed before it. */
  lemma ListedBefore(ks: seq<Str>, j: nat, x: Str)
    requires Ascending(ks) && j <= |ks| && x in ks && (j < |ks| ==> StrLess(x, ks[j]))
    ensures exists i :: 0 <= i < j && ks[i] == x
  {
    var i :| 0 <= i < |ks| && ks[i] == x;
    if j < |ks| {
      StrTrichotomy(ks[i], ks[j]);
    }
  }

  /** Two sorted listings that agree up to position j. */
  ghost predicate AgreeUpTo(d: VariantMap, e: VariantMap, ks: seq<Str>, js: seq<Str>, j: nat) {
    && Ascending(ks) && Ascending(js) && (forall x :: x in ks <==> x in d) && (forall x :: x in js <==> x in e)
    && j <= |ks| && j <= |js| && forall i :: 0 <= i < j ==> ks[i] == js[i] && d[ks[i]] == e[ks[i]]
  }

  lemma AgreeBelow(d: VariantMap, e: VariantMap, ks: seq<Str>, js: seq<Str>, j: nat, x: Str)
    requires AgreeUpTo(d, e, ks, js, j)
    requires (j < |ks| ==> StrLess(x, ks[j])) && (j < |js| ==> StrLess(x, js[j]))
    ensures AgreeAt(d, e, x)
  {
    if x in d {
      ListedBefore(ks, j, x);
      var i :| 0 <= i < j && ks[i] == x;
      assert js[i] in js;
    }
    if x in e {
      ListedBefore(js, j, x);
      var i :| 0 <= i < j && js[i] == x;
      assert ks[i] in ks;
    }
  }

  /** Where the listings part, `ks` has the lesser key `c`, or the only one. */
  lemma PartingKey(d: VariantMap, e: VariantMap, ks: seq<Str>, js: seq<Str>, j: nat)
    requires AgreeUpTo(d, e, ks, js, j) && j < |ks| && (j == |js| || StrLess(ks[j], js[j]))
    ensures ks[j] in d && ks[j] !in e && LeastDifference(d, e, ks[j])
    ensures HasKeyAfter(e, ks[j]) <==> j < |js|
  {
    var c := ks[j];
    assert c in ks;
    forall i | 0 <= i < |js|
      ensures if i < j then StrLess(js[i], c) else StrLess(c, js[i])
    {
      if i < j {
        assert js[i] == ks[i];
      } else if i > j {
        StrTransitive(c, js[j], js[i]);
      }
    }
    assert c !in e by {
      StrTrichotomy(c, c);
    }
    forall x | StrLess(x, c)
      ensures AgreeAt(d, e, x)
    {
      if j < |js| {
        StrTransitive(x, c, js[j]);
      }
      AgreeBelow(d, e, ks, js, j, x);
    }
    if j < |js| {
      assert js[j] in e;
    }
    if x :| x in e && StrLess(c, x) {
      var i :| 0 <= i < |js| && js[i] == x;
      StrTrichotomy(c, x);
    }
  }

  lemma Mirrored(d: VariantMap, e: VariantMap, k: Str)
    requires LeastDifference(e, d, k)
    ensures LeastDifference(d, e, k)
  {
    assert forall j :: AgreeAt(d, e, j) <==> AgreeAt(e, d, j);
  }

  lemma SharedPartingKey(d: VariantMap, e: VariantMap, ks: seq<Str>, js: seq<Str>, j: nat)
    requires AgreeUpTo(d, e, ks, js, j) && j < |ks| && j < |js| && ks[j] == js[j]
    requires ks[j] in d && ks[j] in e && d[ks[j]] != e[ks[j]]
    ensures LeastDifference(d, e, ks[j])
  {
    forall x | StrLess(x, ks[j])
      ensures AgreeAt(d, e, x)
    {
      AgreeBelow(d, e, ks, js, j, x);
    }
  }

  ghost predicate Lists(ks: seq<Str>, d: VariantMap) {
    && Ascending(ks) && (forall x :: x in ks <==> x in d)
    && |Items(Dict(d))| == |ks| && forall i :: 0 <= i < |ks| ==> ks[i] in d && Items(Dict(d))[i] == (ks[i], d[ks[i]])
  }

  lemma Listing(d: VariantMap) returns (ks: seq<Str>)
    ensures Lists(ks, d)
  {
    ks := SortedKeys(d.Keys);
    SortedKeysAscend(d.Keys);
  }

  lemma CommonPrefix(d: VariantMap, e: VariantMap, ks: seq<Str>, js: seq<Str>, j: nat)
    requires Lists(ks, d) && Lists(js, e) && j <= |ks| && j <= |js|
    requires forall i :: 0 <= i < j ==> Items(Dict(d))[i] == Items(Dict(e))[i]
    ensures AgreeUpTo(d, e, ks, js, j) && AgreeUpTo(e, d, js, ks, j)
  {
    forall i | 0 <= i < j
      ensures ks[i] == js[i] && d[ks[i]] == e[ks[i]]
    {
      assert Items(Dict(d))[i] == Items(Dict(e))[i];
    }
  }

  lemma EntriesCompare(d: VariantMap, e: VariantMap, ks: seq<Str>, js: seq<Str>, j: nat)
    requires Lists(ks, d) && Lists(js, e) && j < |ks| && j < |js|
    ensures EntryLess(Dict(d), Dict(e), j) <==>
            StrLess(ks[j], js[j]) || (!StrLess(js[j], ks[j]) && Less(d[ks[j]], e[js[j]]))
  {
  }

  /** The least key at which two dictionaries differ decides their order. */
  lemma DictsByLeastDifference(d: VariantMap, e: VariantMap, k: Str)
    requires NaNFree(Dict(d)) && NaNFree(Dict(e)) && LeastDifference(d, e, k)
    ensures Less(Dict(d), Dict(e)) <==> DictBefore(d, e, k)
  {
    var ks := Listing(d);
    var js := Listing(e);
    var j := Part(Items(Dict(d)), Items(Dict(e)));
    PartingDecides(Dict(d), Dict(e), 0, j);
    CommonPrefix(d, e, ks, js, j);
    if j < |ks| && j < |js| {
      EntriesCompare(d, e, ks, js, j);
    }
    assert Less(Dict(d), Dict(e)) <==> ItemsLess(Dict(d), Dict(e), 0);
    DecideAt(d, e, ks, js, j, k);
  }

  lemma DecideAt(d: VariantMap, e: VariantMap, ks: seq<Str>, js: seq<Str>, j: nat, k: Str)
    requires AgreeUpTo(d, e, ks, js, j) && AgreeUpTo(e, d, js, ks, j) && LeastDifference(d, e, k)
    requires j < |ks| && j < |js| ==> ks[j] in d && js[j] in e && (ks[j], d[ks[j]]) != (js[j], e[js[j]])
    ensures DictBefore(d, e, k) <==>
            j < |js| && (j == |ks| || StrLess(ks[j], js[j]) || (!StrLess(js[j], ks[j]) && Less(d[ks[j]], e[js[j]])))
  {
    if j < |ks| && j < |js| {
      StrTrichotomy(ks[j], js[j]);
    }
    if j < |ks| && (j == |js| || StrLess(ks[j], js[j])) {
      PartingKey(d, e, ks, js, j);
      OneLeastDifference(d, e, k, ks[j]);
    } else if j < |js| && (j == |ks| || StrLess(js[j], ks[j])) {
      PartingKey(e, d, js, ks, j);
      Mirrored(d, e, js[j]);
      OneLeastDifference(d, e, k, js[j]);
    } else if j < |ks| {
      SharedPartingKey(d, e, ks, js, j);
      OneLeastDifference(d, e, k, ks[j]);
    } else {
      NoDifference(d, e, ks, js, k);
    }
  }

  lemma NoDifference(d: VariantMap, e: VariantMap, ks: seq<Str>, js: seq<Str>, k: Str)
    requires AgreeUpTo(d, e, ks, js, |ks|) && |ks| == |js|
    ensures AgreeAt(d, e, k)
  {
    AgreeBelow(d, e, ks, js, |ks|, k);
  }

  /** For any two dictionaries without NaN: neither is less if they are equal, otherwise some least key decides. */
  lemma DictsAreDecided(d: VariantMap, e: VariantMap)
    requires NaNFree(Dict(d)) && NaNFree(Dict(e))
    ensures Less(Dict(d), Dict(e)) <==> exists k :: LeastDifference(d, e, k) && DictBefore(d, e, k)
  {
    if d == e {
      Trichotomy(Dict(d), Dict(e));
    } else {
      var k := DifferentSomewhere(d, e);
      DictsByLeastDifference(d, e, k);
      forall j | LeastDifference(d, e, j)
        ensures j == k
      {
        OneLeastDifference(d, e, j, k);
      }
    }
  }
}
