/** Filter state and option-selector filters. The state maps a filter's id to an array with the ids of
    its selected options; the array is edited in place. */
module OptionSelectors {
  import opened Bytes
  import opened Results
  import opened Variants
  import opened CannedQueryMaps
  import opened FilterStates

  datatype FilterOption = FilterOption(id: Str, caption: Str, isDefault: bool)

  // ----- the stored selection

  function Stored(ids: seq<Str>): Variant {
    Array(seq(|ids|, i requires 0 <= i < |ids| => String(ids[i])))
  }

  /** std::find_if over the array: an element that is not a string throws, unless the search ended
      before it. The result is the length if nothing was found. */
  function Position(a: seq<Variant>, oid: Str): (r: Result<nat>)
    ensures r.Ok? ==> r.value <= |a|
  {
    if a == [] then Ok(0)
    else
      var s :- GetString(a[0]);
      if s == oid then Ok(0)
      else
        var i :- Position(a[1..], oid);
        Ok(i + 1)
  }

  /** The static update_state: select or deselect one option of one filter. */
  function UpdateState(state: VariantMap, fid: Str, oid: Str, active: bool): Result<VariantMap> {
    if fid == [] || oid == [] then Throws(InvalidArgument)
    else if fid !in state then Ok(state[fid := Array(if active then [String(oid)] else [])])
    else
      var a :- GetArray(state[fid]);
      var i :- Position(a, oid);
      if i == |a| then Ok(if active then state[fid := Array(a + [String(oid)])] else state)
      else Ok(if active then state else state[fid := Array(a[..i] + a[i + 1..])])
  }

  // ----- after any sequence of updates

  datatype Update = Update(fid: Str, oid: Str, active: bool)

  /** The state after `us`; an update that throws leaves it unchanged. */
  function After(state: VariantMap, us: seq<Update>): VariantMap {
    if us == [] then state
    else
      var s, u := After(state, us[..|us| - 1]), us[|us| - 1];
      var r := UpdateState(s, u.fid, u.oid, u.active);
      if r.Ok? then r.value else s
  }

  predicate Effective(u: Update, fid: Str) {
    u.fid == fid && fid != [] && u.oid != []
  }

  /** The last update of this option selected it. */
  predicate LastActive(us: seq<Update>, fid: Str, oid: Str) {
    us != [] && (if Effective(us[|us| - 1], fid) && us[|us| - 1].oid == oid then us[|us| - 1].active
                 else LastActive(us[..|us| - 1], fid, oid))
  }

  lemma {:induction false} PositionInStored(ids: seq<Str>, oid: Str)
    ensures Position(Stored(ids).a, oid).Ok?
    ensures var i := Position(Stored(ids).a, oid).value;
            && oid !in ids[..i] && (i < |ids| ==> ids[i] == oid) && (i == |ids| <==> oid !in ids)
  {
    var a := Stored(ids).a;
    if ids != [] && ids[0] != oid {
      assert a[1..] == Stored(ids[1..]).a;
      PositionInStored(ids[1..], oid);
      var i := Position(a[1..], oid).value;
      assert ids[..i + 1] == [ids[0]] + ids[1..][..i];
      assert ids == [ids[0]] + ids[1..];
    }
  }

  /** One update of a stored selection adds or removes exactly the one option. */
  lemma {:induction false} UpdateStored(state: VariantMap, fid: Str, ids: seq<Str>, oid: Str, active: bool)
      returns (ids': seq<Str>)
    requires fid != [] && oid != [] && fid in state && state[fid] == Stored(ids) && Distinct(ids)
    ensures UpdateState(state, fid, oid, active) == Ok(state[fid := Stored(ids')])
    ensures Distinct(ids')
    ensures forall x :: x in ids' <==> if x == oid then active else x in ids
    ensures !active ==> |ids'| <= |ids|
  {
    PositionInStored(ids, oid);
    var i := Position(Stored(ids).a, oid).value;
    if i == |ids| && active {
      ids' := ids + [oid];
      assert Stored(ids').a == Stored(ids).a + [String(oid)];
    } else if i < |ids| && !active {
      ids' := ids[..i] + ids[i + 1..];
      assert Stored(ids').a == Stored(ids).a[..i] + Stored(ids).a[i + 1..];
      Removed(ids, i);
    } else {
      ids' := ids;
      assert state[fid := Stored(ids)] == state;
    }
  }

  lemma Removed(ids: seq<Str>, i: nat)
    requires i < |ids| && Distinct(ids)
    ensures Distinct(ids[..i] + ids[i + 1..])
    ensures forall x :: x in ids[..i] + ids[i + 1..] <==> x in ids && x != ids[i]
  {
    var r := ids[..i] + ids[i + 1..];
    assert forall j :: 0 <= j < |r| ==> r[j] == ids[if j < i then j else j + 1];
    forall x | x in ids && x != ids[i]
      ensures x in r
    {
      var j :| 0 <= j < |ids| && ids[j] == x;
      assert r[if j < i then j else j - 1] == x;
    }
  }

  /** From a state without the filter, after any updates of any filters, the filter's array lists,
      without duplicates, exactly the options whose last update was active. */
  lemma {:induction false} SelectionRefinesASet(state: VariantMap, us: seq<Update>, fid: Str) returns (ids: seq<Str>)
    requires fid !in state
    ensures fid in After(state, us) <==> exists i :: 0 <= i < |us| && Effective(us[i], fid)
    ensures fid in After(state, us) ==> After(state, us)[fid] == Stored(ids)
    ensures Distinct(ids) && forall x :: x in ids <==> LastActive(us, fid, x)
    decreases |us|
  {
    if us == [] {
      ids := [];
    } else {
      var init, u := us[..|us| - 1], us[|us| - 1];
      ids := SelectionRefinesASet(state, init, fid);
      var s := After(state, init);
      assert forall i :: 0 <= i < |init| ==> init[i] == us[i];
      if Effective(u, fid) {
        if fid in s {
          ids := UpdateStored(s, fid, ids, u.oid, u.active);
        } else {
          NoneActive(init, fid);
          ids := if u.active then [u.oid] else [];
          assert Stored(ids).a == if u.active then [String(u.oid)] else [];
        }
      }
    }
  }

  lemma {:induction false} NoneActive(us: seq<Update>, fid: Str)
    requires forall i :: 0 <= i < |us| ==> !Effective(us[i], fid)
    ensures forall x :: !LastActive(us, fid, x)
  {
    if us != [] {
      NoneActive(us[..|us| - 1], fid);
    }
  }

  /** Updates of one filter leave the entries of all others alone. */
  lemma {:induction false} OtherFiltersUnchanged(state: VariantMap, us: seq<Update>, other: Str)
    requires forall i :: 0 <= i < |us| ==> us[i].fid != other
    ensures other in After(state, us) <==> other in state
    ensures other in state ==> After(state, us)[other] == state[other]
  {
    if us != [] {
      OtherFiltersUnchanged(state, us[..|us| - 1], other);
    }
  }

  // ----- filter instances

  datatype Selector = Selector(id: Str, caption: Str, multi: bool, options: seq<FilterOption>)

  predicate HasId(options: seq<FilterOption>, oid: Str) {
    exists i :: 0 <= i < |options| && options[i].id == oid
  }

  predicate HasDefault(options: seq<FilterOption>) {
    exists i :: 0 <= i < |options| && options[i].isDefault
  }

  function AddOption(f: Selector, o: FilterOption): Result<Selector> {
    if o.id == [] || o.caption == [] then Throws(InvalidArgument)
    else if o.isDefault && !f.multi && HasDefault(f.options) then Throws(Logic)
    else Ok(f.(options := f.options + [o]))
  }

  /** The member update_state: the state afterwards, and whether the call threw. Selecting an option of
      a single-selection filter first forgets what was selected. */
  function Choose(f: Selector, state: VariantMap, oid: Str, active: bool): (VariantMap, Option<Exception>) {
    if !HasId(f.options, oid) then (state, Some(InvalidArgument))
    else
      var s := if active && !f.multi then state - {f.id} else state;
      var r := UpdateState(s, f.id, oid, active);
      if r.Ok? then (r.value, None) else (s, Some(r.error))
  }

  predicate AllStrings(a: seq<Variant>) {
    forall i :: 0 <= i < |a| ==> a[i].String?
  }

  /** The positions of the active options. A selection that is not an array of strings selects nothing. */
  function ActiveOptions(f: Selector, state: VariantMap): Result<set<nat>> {
    if f.id == [] then Throws(InvalidArgument)
    else if f.id in state then
      if state[f.id].Array? && AllStrings(state[f.id].a) then
        Ok(set i | 0 <= i < |f.options| && String(f.options[i].id) in state[f.id].a)
      else Ok({})
    else Ok(set i | 0 <= i < |f.options| && f.options[i].isDefault)
  }

  /** Scans the array until it meets the id of an option, or something that is not a string. */
  predicate Meets(a: seq<Variant>, options: seq<FilterOption>) {
    a != [] && a[0].String? && (HasId(options, a[0].s) || Meets(a[1..], options))
  }

  function HasActiveOption(f: Selector, state: VariantMap): Result<bool> {
    if f.id == [] then Throws(InvalidArgument)
    else Ok(f.id in state && state[f.id].Array? && Meets(state[f.id].a, f.options))
  }

  ghost predicate NamesOption(a: seq<Variant>, options: seq<FilterOption>, i: int) {
    0 <= i < |a| && (forall j :: 0 <= j <= i ==> a[j].String?) && HasId(options, a[i].s)
  }

  /** Some element names an option, and it and everything before it are strings. */
  ghost predicate NamesBeforeAnyError(a: seq<Variant>, options: seq<FilterOption>) {
    exists i :: NamesOption(a, options, i)
  }

  lemma {:induction false} MeetsIff(a: seq<Variant>, options: seq<FilterOption>)
    ensures Meets(a, options) <==> NamesBeforeAnyError(a, options)
  {
    if a != [] {
      MeetsIff(a[1..], options);
      assert forall j :: 0 < j < |a| ==> a[j] == a[1..][j - 1];
      if i :| NamesOption(a, options, i) {
        assert i > 0 ==> NamesOption(a[1..], options, i - 1);
      }
      if Meets(a, options) {
        if HasId(options, a[0].s) {
          assert NamesOption(a, options, 0);
        } else {
          var i :| NamesOption(a[1..], options, i);
          assert NamesOption(a, options, i + 1);
        }
      }
    }
  }

  lemma NamedInStrings(a: seq<Variant>, options: seq<FilterOption>)
    requires AllStrings(a)
    ensures NamesBeforeAnyError(a, options) <==> exists i :: 0 <= i < |options| && String(options[i].id) in a
  {
    if k :| NamesOption(a, options, k) {
      var i :| 0 <= i < |options| && options[i].id == a[k].s;
      assert String(options[i].id) in a;
    }
    if i :| 0 <= i < |options| && String(options[i].id) in a {
      var k :| 0 <= k < |a| && a[k] == String(options[i].id);
      assert NamesOption(a, options, k);
    }
  }

  /** The array goes wrong, but only after an element that names an option. */
  ghost predicate GoesWrongLate(v: Variant, options: seq<FilterOption>) {
    v.Array? && !AllStrings(v.a) && NamesBeforeAnyError(v.a, options)
  }

  /** The two queries agree on whether anything is selected, except in exactly two situations: the
      filter is not in the state and has a default, or its array goes wrong after naming an option. */
  lemma HasActiveIffActiveNonEmpty(f: Selector, state: VariantMap)
    requires f.id != []
    ensures (HasActiveOption(f, state).value <==> ActiveOptions(f, state).value != {}) <==>
            if f.id in state then !GoesWrongLate(state[f.id], f.options) else !HasDefault(f.options)
  {
    var active := ActiveOptions(f, state).value;
    if f.id in state {
      if state[f.id].Array? {
        MeetsIff(state[f.id].a, f.options);
        if AllStrings(state[f.id].a) {
          NamedInStrings(state[f.id].a, f.options);
          if i :| 0 <= i < |f.options| && String(f.options[i].id) in state[f.id].a {
            assert i in active;
          }
        }
      }
    } else if i :| 0 <= i < |f.options| && f.options[i].isDefault {
      assert i in active;
    }
  }

  /** From a state without the filter, after any updates of any filters, the two queries agree exactly if the
      filter has been updated or has no default. */
  lemma AgreeAfterUpdatesIff(f: Selector, state: VariantMap, us: seq<Update>)
    requires f.id != [] && f.id !in state
    ensures (HasActiveOption(f, After(state, us)).value <==> ActiveOptions(f, After(state, us)).value != {}) <==>
            (exists i :: 0 <= i < |us| && Effective(us[i], f.id)) || !HasDefault(f.options)
  {
    var ids := SelectionRefinesASet(state, us, f.id);
    HasActiveIffActiveNonEmpty(f, After(state, us));
  }

  /** A default is active before anything is chosen, yet nothing counts as active. */
  lemma DefaultIsNotCounted()
    ensures var f := Selector("f", "F", true, [FilterOption("a", "A", true)]);
            HasActiveOption(f, map[]) == Ok(false) && ActiveOptions(f, map[]) == Ok({0})
  {
    var f := Selector("f", "F", true, [FilterOption("a", "A", true)]);
    assert f.options[0].isDefault;
    assert ActiveOptions(f, map[]).value == {0};
  }

  // ----- the objects of the source

  /** The static update_state; its body edits a copy of the array and stores it back. */
  method UpdateById(fs: FilterState, fid: Str, oid: Str, value: bool) returns (r: Result<()>)
    modifies fs
    ensures var u := UpdateState(old(fs.state), fid, oid, value);
            && (u.Ok? ==> r.Ok? && fs.state == u.value)
            && (u.Throws? ==> r == Throws(u.error) && fs.state == old(fs.state))
  {
    if fid == [] || oid == [] {
      return Throws(InvalidArgument);
    }
    if fid !in fs.state {
      if value {
        fs.state := fs.state[fid := Array([String(oid)])];
      } else {
        fs.state := fs.state[fid := Array([])];
      }
    } else {
      if !fs.state[fid].Array? {
        return Throws(Logic);
      }
      var a := fs.state[fid].a;
      var i := FindOption(a, oid);
      if i.Throws? {
        return Throws(i.error);
      }
      if i.value == |a| {
        if value {
          a := a + [String(oid)];
        }
      } else if !value {
        a := a[..i.value] + a[i.value + 1..];
      }
      assert fs.state[fid := Array(fs.state[fid].a)] == fs.state;
      fs.state := fs.state[fid := Array(a)];
    }
    return Ok(());
  }

  method FindOption(a: seq<Variant>, oid: Str) returns (r: Result<nat>)
    ensures r == Position(a, oid)
  {
    assert a[0..] == a;
    for i := 0 to |a|
      invariant Position(a, oid) == match Position(a[i..], oid) case Ok(k) => Ok(i + k) case Throws(e) => Throws(e)
    {
      assert a[i..][1..] == a[i + 1..];
      if !a[i].String? {
        return Throws(Logic);
      }
      if a[i].s == oid {
        return Ok(i);
      }
    }
    return Ok(|a|);
  }

  class OptionSelectorFilter {
    const id: Str
    const caption: Str
    const multi: bool
    var options: seq<FilterOption>

    constructor (id: Str, caption: Str, multi: bool)
      ensures View() == Selector(id, caption, multi, [])
    {
      this.id, this.caption, this.multi, options := id, caption, multi, [];
    }

    ghost function View(): Selector
      reads this
    {
      Selector(id, caption, multi, options)
    }

    method Add(o: FilterOption) returns (r: Result<()>)
      modifies this
      ensures var a := AddOption(old(View()), o);
              && (a.Ok? ==> r.Ok? && View() == a.value)
              && (a.Throws? ==> r == Throws(a.error) && View() == old(View()))
    {
      if o.id == [] || o.caption == [] {
        return Throws(InvalidArgument);
      }
      if o.isDefault && !multi {
        for i := 0 to |options|
          invariant forall j :: 0 <= j < i ==> !options[j].isDefault
          invariant View() == old(View())
        {
          if options[i].isDefault {
            return Throws(Logic);
          }
        }
      }
      options := options + [o];
      return Ok(());
    }

    method Update(fs: FilterState, o: FilterOption, active: bool) returns (r: Result<()>)
      modifies fs
      ensures var c := Choose(View(), old(fs.state), o.id, active);
              fs.state == c.0 && (c.1.None? <==> r.Ok?) && (c.1.Some? ==> r == Throws(c.1.value))
    {
      var known := false;
      for i := 0 to |options|
        invariant known <==> HasId(options[..i], o.id)
      {
        assert options[..i + 1] == options[..i] + [options[i]];
        if options[i].id == o.id {
          known := true;
          assert options[..i + 1][i].id == o.id;
        }
      }
      assert options[..|options|] == options;
      if !known {
        return Throws(InvalidArgument);
      }
      if active && !multi {
        fs.state := fs.state - {id};
      }
      r := UpdateById(fs, id, o.id, active);
    }

    method Active(fs: FilterState) returns (r: Result<set<nat>>)
      ensures r == ActiveOptions(View(), fs.state)
    {
      if id == [] {
        return Throws(InvalidArgument);
      }
      var active: set<nat> := {};
      if id in fs.state {
        if !fs.state[id].Array? {
          return Ok({});
        }
        var a := fs.state[id].a;
        var ids: set<Str> := {};
        for i := 0 to |a|
          invariant AllStrings(a[..i])
          invariant forall x :: x in ids <==> String(x) in a[..i]
        {
          if !a[i].String? {
            return Ok({});
          }
          assert a[..i + 1] == a[..i] + [a[i]];
          ids := ids + {a[i].s};
        }
        assert a[..|a|] == a;
        for i := 0 to |options|
          invariant active == set j | 0 <= j < i && String(options[j].id) in a
        {
          if options[i].id in ids {
            active := active + {i};
          }
        }
      } else {
        for i := 0 to |options|
          invariant active == set j | 0 <= j < i && options[j].isDefault
        {
          if options[i].isDefault {
            active := active + {i};
          }
        }
      }
      return Ok(active);
    }

    method HasActive(fs: FilterState) returns (r: Result<bool>)
      ensures r == HasActiveOption(View(), fs.state)
    {
      if id == [] {
        return Throws(InvalidArgument);
      }
      if id in fs.state && fs.state[id].Array? {
        var a := fs.state[id].a;
        assert a[0..] == a;
        for i := 0 to |a|
          invariant Meets(a, options) == Meets(a[i..], options)
        {
          assert a[i..][1..] == a[i + 1..];
          if !a[i].String? {
            return Ok(false);
          }
          for j := 0 to |options|
            invariant forall k :: 0 <= k < j ==> options[k].id != a[i].s
          {
            if options[j].id == a[i].s {
              return Ok(true);
            }
          }
        }
      }
      return Ok(false);
    }
  }
}
