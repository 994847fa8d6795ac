/** Byte strings: std::string holds arbitrary bytes, compared as unsigned values. */
module Bytes {
  type Byte = c: char | c as int < 256 witness 'a'
  type Str = seq<Byte>

  /** operator< of std::string. */
  predicate StrLess(a: Str, b: Str) {
    if b == [] then false
    else if a == [] then true
    else if a[0] != b[0] then a[0] < b[0]
    else StrLess(a[1..], b[1..])
  }

  lemma {:induction false} StrTrichotomy(a: Str, b: Str)
    ensures StrLess(a, b) <==> !StrLess(b, a) && a != b
  {
    if a != [] && b != [] && a[0] == b[0] {
      StrTrichotomy(a[1..], b[1..]);
      assert a == [a[0]] + a[1..] && b == [b[0]] + b[1..];
    }
  }

  lemma {:induction false} StrTransitive(a: Str, b: Str, c: Str)
    requires StrLess(a, b) && StrLess(b, c)
    ensures StrLess(a, c)
  {
    if a != [] && a[0] == b[0] && b[0] == c[0] {
      StrTransitive(a[1..], b[1..], c[1..]);
    }
  }

  ghost predicate Distinct(ids: seq<Str>) {
    forall i, j :: 0 <= i < j < |ids| ==> ids[i] != ids[j]
  }

  /** `ks` lists its elements in strictly increasing order, as std::map iterates over its keys. */
  ghost predicate Ascending(ks: seq<Str>) {
    forall i, j :: 0 <= i < j < |ks| ==> StrLess(ks[i], ks[j])
  }

  predicate IsLeast(k: Str, ks: set<Str>) {
    k in ks && forall j :: j in ks && j != k ==> StrLess(k, j)
  }

  lemma {:induction false} LeastExists(ks: set<Str>) returns (k: Str)
    requires ks != {}
    ensures IsLeast(k, ks)
    decreases |ks|
  {
    k :| k in ks;
    if ks - {k} != {} {
      var least := LeastExists(ks - {k});
      StrTrichotomy(k, least);
      if StrLess(k, least) {
        forall j | j in ks && j != k && j != least
          ensures StrLess(k, j)
        {
          assert j in ks - {k};
          StrTransitive(k, least, j);
        }
      } else {
        assert forall j :: j in ks ==> j == k || j in ks - {k};
        k := least;
      }
    } else {
      assert forall j :: j in ks ==> j == k || j in ks - {k};
    }
  }

  ghost function Least(ks: set<Str>): (k: Str)
    requires ks != {}
    ensures IsLeast(k, ks)
  {
    assert exists k :: IsLeast(k, ks) by {
      var k := LeastExists(ks);
    }
    var k :| IsLeast(k, ks);
    k
  }

  /** The keys of a std::map in iteration order. */
  ghost function SortedKeys(ks: set<Str>): (r: seq<Str>)
    ensures forall k :: k in r <==> k in ks
  {
    if ks == {} then [] else [Least(ks)] + SortedKeys(ks - {Least(ks)})
  }

  lemma {:induction false} SortedKeysAscend(ks: set<Str>)
    ensures Ascending(SortedKeys(ks))
  {
    if ks != {} {
      SortedKeysAscend(ks - {Least(ks)});
    }
  }

  lemma LeastIsUnique(k: Str, ks: set<Str>)
    requires IsLeast(k, ks)
    ensures k == Least(ks)
  {
    StrTrichotomy(k, Least(ks));
  }

  method IterationOrder(ks: set<Str>) returns (r: seq<Str>)
    ensures r == SortedKeys(ks)
    decreases |ks|
  {
    if ks == {} {
      return [];
    }
    ghost var least := LeastExists(ks);
    var k :| k in ks && IsLeast(k, ks);
    LeastIsUnique(k, ks);
    var rest := IterationOrder(ks - {k});
    r := [k] + rest;
  }
}
