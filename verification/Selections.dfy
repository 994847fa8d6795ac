/** Sessions with an option-selector filter: options are added and selected in any order, and at any time the filter
    may be replaced by one that is read from a variant map. What is selected afterwards, with single and multiple
    selection, and when radio buttons reach their internal error. */
module Selections {
  import opened Bytes
  import opened Results
  import opened Variants
  import opened OptionSelectors
  import opened FilterCodecs

  /** RadioButtonsFilterImpl::active_option: the one active option, none, or an internal error. */
  function ActiveOption(f: Selector, state: VariantMap): Result<Option<nat>> {
    var active :- ActiveOptions(f, state);
    if |active| > 1 then Throws(Logic)
    else if |active| == 1 then
      OneMember(active);
      var i :| i in active;
      Ok(Some(i))
    else Ok(None)
  }

  lemma OneMember(s: set<nat>)
    requires |s| == 1
    ensures exists i :: i in s
    ensures forall i, j :: i in s && j in s ==> i == j
  {
    var x :| x in s;
    assert |s - {x}| == 0;
    forall i, j | i in s && j in s
      ensures i == j
    {
      assert i !in s - {x} && j !in s - {x};
    }
  }

  /** Options are added and selected through the filter instance; the instance may also be replaced by one that is
      read from a variant map, whatever that map holds. */
  datatype Step = Add(option: FilterOption) | Select(oid: Str, active: bool) | Read(data: VariantMap)

  datatype Session = Session(f: Selector, state: VariantMap)

  /** The filter that the map describes, if it describes one with the same id and the same kind of selection. */
  function ReadSame(m: VariantMap, f: Selector): Option<Selector> {
    match Deserialize(m)
    case Ok(Filter(_, _, Options(_, g))) => if g.multi == f.multi && g.id == f.id then Some(g) else None
    case _ => None
  }

  function Perform(s: Session, step: Step): Session {
    match step
    case Add(o) => var r := AddOption(s.f, o); if r.Ok? then s.(f := r.value) else s
    case Select(oid, active) => s.(state := Choose(s.f, s.state, oid, active).0)
    case Read(m) => var f := ReadSame(m, s.f); if f.Some? then s.(f := f.value) else s
  }

  function PerformAll(s: Session, steps: seq<Step>): Session
    decreases |steps|
  {
    if steps == [] then s else PerformAll(Perform(s, steps[0]), steps[1..])
  }

  ghost predicate AtMostOneStored(id: Str, state: VariantMap) {
    id in state ==> exists ids: seq<Str> :: |ids| <= 1 && state[id] == Stored(ids)
  }

  ghost predicate SingleInv(s: Session) {
    !s.f.multi && Sound(s.f) && AtMostOneStored(s.f.id, s.state)
  }

  lemma SelectStep(f: Selector, state: VariantMap, oid: Str, active: bool)
    requires !f.multi && Sound(f) && AtMostOneStored(f.id, state)
    ensures AtMostOneStored(f.id, Choose(f, state, oid, active).0)
  {
    if f.id != [] && HasId(f.options, oid) {
      if active || f.id !in state {
        var ids := if active then [oid] else [];
        assert Stored(ids).a == if active then [String(oid)] else [];
      } else {
        var ids: seq<Str> :| |ids| <= 1 && state[f.id] == Stored(ids);
        var ids' := UpdateStored(state, f.id, ids, oid, active);
      }
    }
  }

  lemma SingleStep(s: Session, step: Step)
    requires SingleInv(s)
    ensures SingleInv(Perform(s, step)) && Perform(s, step).f.id == s.f.id
  {
    match step
    case Add(o) =>
      if AddOption(s.f, o).Ok? {
        AddedIsSound(s.f, o);
      }
    case Select(oid, active) =>
      SelectStep(s.f, s.state, oid, active);
    case Read(m) =>
      if Deserialize(m).Ok? {
        ReadFilterIsSound(m);
      }
  }

  lemma {:induction false} SingleRun(s: Session, steps: seq<Step>)
    requires SingleInv(s)
    ensures SingleInv(PerformAll(s, steps)) && PerformAll(s, steps).f.id == s.f.id
    decreases |steps|
  {
    if steps != [] {
      SingleStep(s, steps[0]);
      SingleRun(Perform(s, steps[0]), steps[1..]);
    }
  }

  /** Some id is stored that two options share. */
  ghost predicate AmbiguousSelection(f: Selector, state: VariantMap) {
    f.id in state && exists i, j :: 0 <= i < j < |f.options| && f.options[i].id == f.options[j].id
                                    && state[f.id] == Stored([f.options[i].id])
  }

  lemma TwoMembers(s: set<nat>, i: nat, j: nat)
    requires i in s && j in s && i != j
    ensures |s| > 1
  {
    assert |s - {i}| > 0 by {
      assert j in s - {i};
    }
  }

  lemma AmbiguousThrows(f: Selector, state: VariantMap)
    requires f.id != [] && AmbiguousSelection(f, state)
    ensures ActiveOption(f, state) == Throws(Logic)
  {
    var i, j :| 0 <= i < j < |f.options| && f.options[i].id == f.options[j].id
                && state[f.id] == Stored([f.options[i].id]);
    assert state[f.id].a == [String(f.options[i].id)];
    TwoMembers(ActiveOptions(f, state).value, i, j);
  }

  /** Two active options are both defaults, or share the one stored id. */
  lemma TwoActive(s: Session, i: nat, j: nat)
    requires SingleInv(s) && s.f.id != []
    requires i < j && i in ActiveOptions(s.f, s.state).value && j in ActiveOptions(s.f, s.state).value
    ensures AmbiguousSelection(s.f, s.state)
  {
    if s.f.id in s.state {
      var ids: seq<Str> :| |ids| <= 1 && s.state[s.f.id] == Stored(ids);
      assert String(s.f.options[i].id) in Stored(ids).a && String(s.f.options[j].id) in Stored(ids).a;
      assert ids == [s.f.options[i].id];
    }
  }

  lemma ThrowsIffAmbiguous(s: Session)
    requires SingleInv(s) && s.f.id != []
    ensures ActiveOption(s.f, s.state) == Throws(Logic) <==> AmbiguousSelection(s.f, s.state)
    ensures ActiveOption(s.f, s.state).Ok? <==> !AmbiguousSelection(s.f, s.state)
  {
    var active := ActiveOptions(s.f, s.state).value;
    if AmbiguousSelection(s.f, s.state) {
      AmbiguousThrows(s.f, s.state);
    } else if |active| > 1 {
      var i :| i in active;
      assert |active - {i}| > 0;
      var j :| j in active - {i};
      if i < j {
        TwoActive(s, i, j);
      } else {
        TwoActive(s, j, i);
      }
    }
  }

  /** However a single-selection filter comes about and is used - created empty, extended, replaced by one that was
      read from any map, its options selected and deselected - at most one option is stored, at most one is a
      default, and the internal error of active_option() is reached exactly if the selected id belongs to more than
      one option; in particular never if option ids are distinct. */
  lemma {:induction false} SingleSelectionIsSafe(id: Str, caption: Str, state: VariantMap, steps: seq<Step>)
    requires id !in state
    ensures var t := PerformAll(Session(Selector(id, caption, false, []), state), steps);
            && OneDefault(t.f.options) && AtMostOneStored(id, t.state)
            && (id != [] ==> (ActiveOption(t.f, t.state) == Throws(Logic) <==> AmbiguousSelection(t.f, t.state)))
            && (id != [] && Distinct(OptionIds(t.f.options)) ==> ActiveOption(t.f, t.state).Ok?)
            && (id == [] ==> ActiveOption(t.f, t.state) == Throws(InvalidArgument))
  {
    var s := Session(Selector(id, caption, false, []), state);
    SingleRun(s, steps);
    var t := PerformAll(s, steps);
    if id != [] {
      ThrowsIffAmbiguous(t);
      if AmbiguousSelection(t.f, t.state) {
        var i, j :| 0 <= i < j < |t.f.options| && t.f.options[i].id == t.f.options[j].id
                    && t.state[t.f.id] == Stored([t.f.options[i].id]);
        assert OptionIds(t.f.options)[i] == OptionIds(t.f.options)[j];
      }
    }
  }

  function OptionIds(options: seq<FilterOption>): seq<Str> {
    seq(|options|, i requires 0 <= i < |options| => options[i].id)
  }

  /** Two options with one id: selecting either makes both active. */
  lemma DuplicateIdsReachTheInternalError()
    ensures var f := Selector("f", "F", false, []);
            var o := FilterOption("a", "A", false);
            var t := PerformAll(Session(f, map[]), [Add(o), Add(o), Select("a", true)]);
            ActiveOption(t.f, t.state).Throws?
  {
    var f := Selector("f", "F", false, []);
    var o := FilterOption("a", "A", false);
    var steps := [Add(o), Add(o), Select("a", true)];
    var s1 := Perform(Session(f, map[]), steps[0]);
    var s2 := Perform(s1, steps[1]);
    var s3 := Perform(s2, steps[2]);
    assert s2.f.options == [o, o];
    assert HasId(s2.f.options, "a") by {
      assert s2.f.options[0].id == "a";
    }
    assert PerformAll(s3, steps[3..]) == s3;
    assert steps[2..][1..] == steps[3..] && PerformAll(s2, steps[2..]) == s3;
    assert steps[1..][1..] == steps[2..] && PerformAll(s1, steps[1..]) == s3;
    assert s3.state[f.id] == Array([String("a")]);
    TwoMembers(ActiveOptions(s3.f, s3.state).value, 0, 1);
  }

  // ----- what is selected after a session

  ghost predicate Usable(s: Session) {
    s.f.id != [] && Sound(s.f)
  }

  lemma {:induction false} PerformLast(s: Session, steps: seq<Step>)
    requires steps != []
    ensures PerformAll(s, steps) == Perform(PerformAll(s, steps[..|steps| - 1]), steps[|steps| - 1])
    decreases |steps|
  {
    if |steps| > 1 {
      assert steps[1..][..|steps| - 2] == steps[..|steps| - 1][1..];
      PerformLast(Perform(s, steps[0]), steps[1..]);
    } else {
      assert steps[..0] == [] && steps[1..] == [];
    }
  }

  lemma StepKeepsKind(s: Session, step: Step)
    requires Usable(s)
    ensures Usable(Perform(s, step)) && Perform(s, step).f.id == s.f.id && Perform(s, step).f.multi == s.f.multi
  {
    match step
    case Add(o) =>
      if AddOption(s.f, o).Ok? {
        AddedIsSound(s.f, o);
      }
    case Select(_, _) =>
    case Read(m) =>
      if Deserialize(m).Ok? {
        ReadFilterIsSound(m);
      }
  }

  lemma {:induction false} SessionKeepsKind(s: Session, steps: seq<Step>)
    requires Usable(s)
    ensures var t := PerformAll(s, steps); Usable(t) && t.f.id == s.f.id && t.f.multi == s.f.multi
    decreases |steps|
  {
    if steps != [] {
      StepKeepsKind(s, steps[0]);
      SessionKeepsKind(Perform(s, steps[0]), steps[1..]);
    }
  }

  /** Step `i` selects or deselects an option that the filter has at that time. */
  ghost predicate Selects(s: Session, steps: seq<Step>, i: int, oid: Str, active: bool) {
    0 <= i < |steps| && steps[i] == Select(oid, active) && HasId(PerformAll(s, steps[..i]).f.options, oid)
  }

  /** Deselecting an option undoes its selection, and with single selection so does selecting another. */
  ghost predicate Undoes(s: Session, steps: seq<Step>, i: int, oid: Str) {
    Selects(s, steps, i, oid, false) || (!s.f.multi && SelectsAnother(s, steps, i, oid))
  }

  ghost predicate SelectsAnother(s: Session, steps: seq<Step>, i: int, oid: Str) {
    exists other :: other != oid && Selects(s, steps, i, other, true)
  }

  /** The option was selected, and nothing undid that afterwards. */
  ghost predicate StillSelected(s: Session, steps: seq<Step>, oid: Str) {
    exists i :: Selects(s, steps, i, oid, true) && forall j :: i < j < |steps| ==> !Undoes(s, steps, j, oid)
  }

  ghost predicate EverSelects(s: Session, steps: seq<Step>) {
    exists i, oid, active :: Selects(s, steps, i, oid, active)
  }

  lemma SelectsEarlier(s: Session, steps: seq<Step>, i: int, oid: Str, active: bool)
    requires steps != [] && i < |steps| - 1
    ensures Selects(s, steps, i, oid, active) == Selects(s, steps[..|steps| - 1], i, oid, active)
  {
    if 0 <= i {
      assert steps[..|steps| - 1][..i] == steps[..i];
    }
  }

  lemma UndoesEarlier(s: Session, steps: seq<Step>, i: int, oid: Str)
    requires steps != [] && i < |steps| - 1
    ensures Undoes(s, steps, i, oid) == Undoes(s, steps[..|steps| - 1], i, oid)
  {
    var before := steps[..|steps| - 1];
    SelectsEarlier(s, steps, i, oid, false);
    if other :| other != oid && Selects(s, steps, i, other, true) {
      SelectsEarlier(s, steps, i, other, true);
      assert SelectsAnother(s, before, i, oid);
    }
    if other :| other != oid && Selects(s, before, i, other, true) {
      SelectsEarlier(s, steps, i, other, true);
      assert SelectsAnother(s, steps, i, oid);
    }
  }

  lemma StillSelectedLast(s: Session, steps: seq<Step>, oid: Str)
    requires steps != []
    ensures var n := |steps| - 1;
            StillSelected(s, steps, oid) <==>
            Selects(s, steps, n, oid, true) || (StillSelected(s, steps[..n], oid) && !Undoes(s, steps, n, oid))
  {
    var n := |steps| - 1;
    if i :| Selects(s, steps, i, oid, true) && forall j :: i < j < |steps| ==> !Undoes(s, steps, j, oid) {
      if i < n {
        SelectsEarlier(s, steps, i, oid, true);
        forall j | i < j < n
          ensures !Undoes(s, steps[..n], j, oid)
        {
          UndoesEarlier(s, steps, j, oid);
        }
      }
    }
    if StillSelected(s, steps[..n], oid) && !Undoes(s, steps, n, oid) {
      var i :| Selects(s, steps[..n], i, oid, true) && forall j :: i < j < n ==> !Undoes(s, steps[..n], j, oid);
      SelectsEarlier(s, steps, i, oid, true);
      forall j | i < j < |steps|
        ensures !Undoes(s, steps, j, oid)
      {
        if j < n {
          UndoesEarlier(s, steps, j, oid);
        }
      }
    }
  }

  lemma EverSelectsLast(s: Session, steps: seq<Step>)
    requires steps != []
    ensures var n := |steps| - 1;
            EverSelects(s, steps) <==> EverSelects(s, steps[..n]) || exists oid, active :: Selects(s, steps, n, oid, active)
  {
    var n := |steps| - 1;
    if i, oid, active :| Selects(s, steps, i, oid, active) {
      if i < n {
        SelectsEarlier(s, steps, i, oid, active);
      }
    }
    if i, oid, active :| Selects(s, steps[..n], i, oid, active) {
      SelectsEarlier(s, steps, i, oid, active);
    }
  }

  /** `ids` is what the state stores for the filter. */
  ghost predicate Holds(state: VariantMap, id: Str, ids: seq<Str>) {
    Distinct(ids) && if id in state then state[id] == Stored(ids) else ids == []
  }

  lemma ChooseStored(f: Selector, state: VariantMap, ids: seq<Str>, oid: Str, active: bool) returns (ids': seq<Str>)
    requires f.id != [] && Sound(f) && HasId(f.options, oid) && Holds(state, f.id, ids)
    ensures Choose(f, state, oid, active).0 == state[f.id := Stored(ids')] && Distinct(ids')
    ensures forall x :: x in ids' <==> if x == oid then active else x in ids && (f.multi || !active)
    ensures !f.multi && active ==> ids' == [oid]
  {
    var only := if active then [oid] else [];
    assert Stored(only).a == if active then [String(oid)] else [];
    if f.id !in state || (active && !f.multi) {
      ids' := only;
      var rest := if active && !f.multi then state - {f.id} else state;
      assert rest[f.id := Stored(only)] == state[f.id := Stored(only)];
    } else {
      ids' := UpdateStored(state, f.id, ids, oid, active);
    }
  }

  ghost predicate SameElsewhere(id: Str, before: VariantMap, after: VariantMap) {
    forall k :: k != id ==> (k in after <==> k in before) && (k in before ==> after[k] == before[k])
  }

  lemma {:induction false} OthersUntouched(s: Session, steps: seq<Step>)
    requires Usable(s)
    ensures SameElsewhere(s.f.id, s.state, PerformAll(s, steps).state)
    decreases |steps|
  {
    if steps != [] {
      StepKeepsKind(s, steps[0]);
      OthersUntouched(Perform(s, steps[0]), steps[1..]);
    }
  }

  ghost predicate ListsSelected(s: Session, steps: seq<Step>, ids: seq<Str>) {
    forall x :: x in ids <==> StillSelected(s, steps, x)
  }

  /** A last step that selects or deselects an option. */
  lemma SelectedNext(s: Session, steps: seq<Step>, ids: seq<Str>, ids': seq<Str>, oid: Str, active: bool)
    requires steps != [] && Selects(s, steps, |steps| - 1, oid, active) && ListsSelected(s, steps[..|steps| - 1], ids)
    requires forall x :: x in ids' <==> if x == oid then active else x in ids && (s.f.multi || !active)
    ensures ListsSelected(s, steps, ids')
  {
    var n := |steps| - 1;
    forall x: Str
      ensures x in ids' <==> StillSelected(s, steps, x)
    {
      StillSelectedLast(s, steps, x);
      assert SelectsAnother(s, steps, n, x) <==> x != oid && active;
    }
  }

  /** A last step that does neither. */
  lemma SelectedSame(s: Session, steps: seq<Step>, ids: seq<Str>, n: nat)
    requires |steps| == n + 1 && ListsSelected(s, steps[..n], ids)
    requires forall x, active :: !Selects(s, steps, n, x, active)
    ensures ListsSelected(s, steps, ids)
  {
    forall x: Str
      ensures x in ids <==> StillSelected(s, steps, x)
    {
      StillSelectedLast(s, steps, x);
    }
  }

  /** After a session that starts without an entry for the filter, the stored array lists, without duplicates, exactly
      the options whose selection was not undone: with multiple selection those whose last selection was active, with
      single selection at most the one that was selected last. Other filters' entries are as before. */
  lemma {:induction false} SelectedAfterSession(s: Session, steps: seq<Step>) returns (ids: seq<Str>)
    requires Usable(s) && s.f.id !in s.state
    ensures var t := PerformAll(s, steps);
            && Holds(t.state, s.f.id, ids) && ListsSelected(s, steps, ids)
            && (s.f.id in t.state <==> EverSelects(s, steps))
            && SameElsewhere(s.f.id, s.state, t.state)
    decreases |steps|
  {
    OthersUntouched(s, steps);
    if steps == [] {
      ids := [];
    } else {
      var n := |steps| - 1;
      var u, step := PerformAll(s, steps[..n]), steps[n];
      ids := SelectedAfterSession(s, steps[..n]);
      PerformLast(s, steps);
      SessionKeepsKind(s, steps[..n]);
      EverSelectsLast(s, steps);
      if step.Select? && HasId(u.f.options, step.oid) {
        assert Selects(s, steps, n, step.oid, step.active);
        var ids' := ChooseStored(u.f, u.state, ids, step.oid, step.active);
        SelectedNext(s, steps, ids, ids', step.oid, step.active);
        ids := ids';
      } else {
        SelectedSame(s, steps, ids, n);
      }
    }
  }

  lemma NamedInStored(ids: seq<Str>, oid: Str)
    ensures String(oid) in Stored(ids).a <==> oid in ids
  {
    if oid in ids {
      var i :| 0 <= i < |ids| && ids[i] == oid;
      assert Stored(ids).a[i] == String(oid);
    }
  }

  lemma ActiveInStored(f: Selector, state: VariantMap, ids: seq<Str>, i: nat)
    requires f.id != [] && i < |f.options| && f.id in state && state[f.id] == Stored(ids)
    ensures ActiveOptions(f, state).Ok? && (i in ActiveOptions(f, state).value <==> f.options[i].id in ids)
  {
    NamedInStored(ids, f.options[i].id);
  }

  /** What the application sees after a session: the options whose selection was not undone, or the defaults if none was
      ever selected or deselected; and whether some option is active, defaults not counted. */
  lemma ActiveAfterSession(s: Session, steps: seq<Step>, i: nat)
    requires Usable(s) && s.f.id !in s.state && i < |PerformAll(s, steps).f.options|
    ensures var t := PerformAll(s, steps);
            && ActiveOptions(t.f, t.state).Ok? && HasActiveOption(t.f, t.state).Ok?
            && (i in ActiveOptions(t.f, t.state).value <==>
                if EverSelects(s, steps) then StillSelected(s, steps, t.f.options[i].id) else t.f.options[i].isDefault)
            && (HasActiveOption(t.f, t.state).value <==>
                EverSelects(s, steps) && exists j :: 0 <= j < |t.f.options| && StillSelected(s, steps, t.f.options[j].id))
  {
    var t := PerformAll(s, steps);
    var ids := SelectedAfterSession(s, steps);
    SessionKeepsKind(s, steps);
    if t.f.id in t.state {
      ActiveInStored(t.f, t.state, ids, i);
      HasActiveInStored(t.f, t.state, ids);
    }
  }

  lemma HasActiveInStored(f: Selector, state: VariantMap, ids: seq<Str>)
    requires f.id != [] && f.id in state && state[f.id] == Stored(ids)
    ensures HasActiveOption(f, state).value <==> exists j :: 0 <= j < |f.options| && f.options[j].id in ids
  {
    MeetsIff(Stored(ids).a, f.options);
    NamedInStrings(Stored(ids).a, f.options);
    forall j | 0 <= j < |f.options|
      ensures String(f.options[j].id) in Stored(ids).a <==> f.options[j].id in ids
    {
      NamedInStored(ids, f.options[j].id);
    }
  }

  /** Selecting an option of a single-selection filter leaves exactly that one. */
  lemma SelectingReplaces(s: Session, steps: seq<Step>, oid: Str)
    requires Usable(s) && s.f.id !in s.state && !s.f.multi && HasId(PerformAll(s, steps).f.options, oid)
    ensures s.f.id in PerformAll(s, steps + [Select(oid, true)]).state
    ensures PerformAll(s, steps + [Select(oid, true)]).state[s.f.id] == Array([String(oid)])
  {
    var all := steps + [Select(oid, true)];
    assert all[..|all| - 1] == steps;
    PerformLast(s, all);
    SessionKeepsKind(s, steps);
    var ids := SelectedAfterSession(s, steps);
    var ids' := ChooseStored(PerformAll(s, steps).f, PerformAll(s, steps).state, ids, oid, true);
    assert Stored([oid]).a == [String(oid)];
  }

  /** Two options of a multi-selection filter can be selected together. */
  lemma BothSelected(s: Session, a: FilterOption, b: FilterOption) returns (ids: seq<Str>)
    requires Usable(s) && s.f.id !in s.state && s.f.multi && a in s.f.options && b in s.f.options && a.id != b.id
    ensures Holds(PerformAll(s, [Select(a.id, true), Select(b.id, true)]).state, s.f.id, ids)
    ensures a.id in ids && b.id in ids
  {
    var steps := [Select(a.id, true), Select(b.id, true)];
    ids := SelectedAfterSession(s, steps);
    assert steps[..0] == [] && steps[..1] == [steps[0]];
    PerformLast(s, steps[..1]);
    assert steps[..1][..0] == [];
    assert Selects(s, steps, 0, a.id, true) && Selects(s, steps, 1, b.id, true);
    assert !Undoes(s, steps, 1, a.id);
  }
}
