/** Filters in the surfacing cache, which is kept as JSON: 64-bit seconds that fit 32 bits come back as 32-bit
    integers, and a date filter reads its bounds only as 64-bit integers. */
module CachedFilters {
  import opened Bytes
  import opened Results
  import opened Variants
  import opened JsonNodes
  import opened DatePickers
  import opened OptionSelectors
  import CannedQueryMaps
  import opened FilterCodecs

  predicate Scalar(v: Variant) {
    v.String? || v.Int? || v.Bool?
  }

  lemma ScalarsAreFixed(m: VariantMap)
    requires forall k :: k in m ==> Scalar(m[k])
    ensures Narrow(Dict(m)) == Dict(m)
  {
    assert Narrow(Dict(m)).d == m;
  }

  lemma OptionsAreFixed(os: seq<FilterOption>)
    ensures Narrow(Array(OptionList(os))) == Array(OptionList(os))
  {
    forall i | 0 <= i < |os|
      ensures Narrow(OptionList(os)[i]) == OptionList(os)[i]
    {
      ScalarsAreFixed(OptionMap(os[i]));
    }
    assert Narrow(Array(OptionList(os))).a == OptionList(os);
  }

  lemma BaseIsScalar(f: Filter, group: Option<Str>)
    ensures forall k :: k in BaseMap(f, group) ==> Scalar(BaseMap(f, group)[k])
  {
  }

  lemma SelectorIsFixed(f: Filter, group: Option<Str>)
    requires f.body.Options?
    ensures Narrow(Dict(Serialize(f, group))) == Dict(Serialize(f, group))
  {
    FilterKeysDiffer();
    BaseIsScalar(f, group);
    OptionsAreFixed(f.body.sel.options);
    var m := Serialize(f, group);
    assert forall k :: k in m ==> Narrow(m[k]) == m[k];
    assert Narrow(Dict(m)).d == m;
  }

  /** A bound whose seconds fit 32 bits: any date from December 1901 to January 2038. */
  ghost predicate Short(bound: Option<Int64>) {
    bound.Some? && FitsInt(ToSeconds(bound.value))
  }

  lemma {:induction false} PutsKeepScalars(m: VariantMap, key: Str, s: Str)
    requires forall k :: k in m ==> Scalar(m[k])
    ensures forall k :: k in PutString(m, key, s) ==> Scalar(PutString(m, key, s)[k])
  {
  }

  lemma NarrowBound(m: VariantMap, key: Str, bound: Option<Int64>)
    requires key !in m
    ensures var n := Narrow(Dict(PutBound(m, key, bound))).d;
            && AgreeBut(Narrow(Dict(m)).d, n, key)
            && (Short(bound) ==> ReadBound(n, key) == Throws(Logic))
            && (!Short(bound) ==> ReadBound(n, key) == ReadBound(PutBound(m, key, bound), key))
  {
  }

  ghost function Bound(b: Option<Int64>, m: VariantMap, key: Str): Result<Option<int>> {
    if Short(b) then Throws(Logic) else ReadBound(m, key)
  }

  ghost predicate AgreeButTwo(m: VariantMap, n: VariantMap, a: Str, b: Str) {
    forall k :: k != a && k != b ==> (k in m <==> k in n) && (k in m ==> m[k] == n[k])
  }

  lemma NarrowBounds(m0: VariantMap, a: Str, b: Str, min: Option<Int64>, max: Option<Int64>)
    requires a != b && a !in m0 && b !in m0 && forall k :: k in m0 ==> Scalar(m0[k])
    ensures var m := PutBound(PutBound(m0, a, min), b, max);
            var n := Narrow(Dict(m)).d;
            AgreeButTwo(m, n, a, b) && ReadBound(n, a) == Bound(min, m, a) && ReadBound(n, b) == Bound(max, m, b)
  {
    ScalarsAreFixed(m0);
    var m1 := PutBound(m0, a, min);
    NarrowBound(m0, a, min);
    NarrowBound(m1, b, max);
    BoundIsRead(m0, a, min);
    BoundIsRead(m1, b, max);
  }

  /** A picker read from narrowed data fails exactly if one of its bounds is short. */
  lemma PickerFromCache(id: Str, m: VariantMap, n: VariantMap, p: Picker)
    requires ReadPicker(id, m).Ok? && AgreeButTwo(m, n, MIN, MAX)
    requires ReadBound(n, MIN) == Bound(p.min, m, MIN) && ReadBound(n, MAX) == Bound(p.max, m, MAX)
    ensures ReadPicker(id, n) == if Short(p.min) || Short(p.max) then Throws(Logic) else ReadPicker(id, m)
  {
    FilterKeysDiffer();
  }

  lemma NarrowedPicker(f: Filter, group: Option<Str>)
    requires WellFormed(f) && f.body.Dates?
    ensures var m, p := Serialize(f, group), f.body.picker;
            var n := Narrow(Dict(m)).d;
            AgreeButTwo(m, n, MIN, MAX) && ReadBound(n, MIN) == Bound(p.min, m, MIN) && ReadBound(n, MAX) == Bound(p.max, m, MAX)
  {
    FilterKeysDiffer();
    var p, m0 := f.body.picker, BaseMap(f, group)[MODE := Int(f.body.picker.mode)];
    BaseIsScalar(f, group);
    BaseIsReadable(f, group);
    PutsKeepScalars(m0, TIME_LABEL, p.timeLabel);
    var m1 := PutString(m0, TIME_LABEL, p.timeLabel);
    PutsKeepScalars(m1, DATE_LABEL, p.dateLabel);
    NarrowBounds(PutString(m1, DATE_LABEL, p.dateLabel), MIN, MAX, p.min, p.max);
  }

  lemma SameBase(m: VariantMap, n: VariantMap, f: Filter, group: Option<Str>)
    requires AgreeButTwo(m, n, MIN, MAX) && BaseReadable(m, f, group)
    ensures BaseReadable(n, f, group)
  {
    FilterKeysDiffer();
  }

  /** With its base entries intact, a date filter is read exactly as far as its picker is. */
  lemma ReadDateFilter(m: VariantMap, f: Filter, group: Option<Str>)
    requires BaseReadable(m, f, group) && f.body.Dates?
    ensures var p := ReadPicker(f.body.picker.id, m);
            Deserialize(m) == if p.Throws? then Throws(p.error)
                              else if HintsAllowed(f) then Ok(Filter(f.title, f.hints, Dates(p.value)))
                              else Throws(InvalidArgument)
  {
    FilterKeysDiffer();
  }

  lemma CachedDateFilter(f: Filter, group: Option<Str>)
    requires WellFormed(f) && f.body.Dates?
    ensures Deserialize(Narrow(Dict(Serialize(f, group))).d) ==
            if Short(f.body.picker.min) || Short(f.body.picker.max) then Throws(Logic) else Deserialize(Serialize(f, group))
  {
    var m, p := Serialize(f, group), f.body.picker;
    var n := Narrow(Dict(m)).d;
    NarrowedPicker(f, group);
    PickerRoundTrip(f, group);
    PickerFromCache(p.id, m, n, p);
    SameBase(m, n, f, group);
    ReadDateFilter(m, f, group);
    ReadDateFilter(n, f, group);
  }

  // ----- strings end at their first NUL

  function CutOption(o: FilterOption): FilterOption {
    FilterOption(CStr(o.id), CStr(o.caption), o.isDefault)
  }

  function CutOptions(os: seq<FilterOption>): seq<FilterOption> {
    seq(|os|, i requires 0 <= i < |os| => CutOption(os[i]))
  }

  function CutBody(b: Body): Body {
    match b
    case Options(radio, s) => Options(radio, Selector(CStr(s.id), CStr(s.caption), s.multi, CutOptions(s.options)))
    case Dates(p) => Dates(p.(id := CStr(p.id), timeLabel := CStr(p.timeLabel), dateLabel := CStr(p.dateLabel)))
  }

  function CutFilter(f: Filter): Filter {
    Filter(CStr(f.title), f.hints, CutBody(f.body))
  }

  function CutGroup(group: Option<Str>): Option<Str> {
    if group.None? then None else Some(CStr(group.value))
  }

  /** The two maps agree, except that `a` may hold empty strings where `b` holds nothing. */
  ghost predicate Padded(a: VariantMap, b: VariantMap, pads: set<Str>) {
    && (forall k :: k in b ==> k in a && a[k] == b[k])
    && (forall k :: k in a && k !in b ==> k in pads && a[k] == String([]))
  }

  lemma PadPut(a: VariantMap, b: VariantMap, pads: set<Str>, key: Str, v: Variant)
    requires Padded(a, b, pads)
    ensures Padded(a[key := v], b[key := v], pads)
  {
  }

  lemma CutPut(m: VariantMap, key: Str, v: Variant)
    ensures Cut(Dict(m[key := v])).d == Cut(Dict(m)).d[key := Cut(v)]
  {
  }

  lemma CutPutString(m: VariantMap, n: VariantMap, pads: set<Str>, key: Str, s: Str)
    requires Padded(Cut(Dict(m)).d, n, pads) && key in pads && key !in m
    ensures Padded(Cut(Dict(PutString(m, key, s))).d, PutString(n, key, CStr(s)), pads)
  {
    CutPut(m, key, String(s));
    if CStr(s) != [] {
      PadPut(Cut(Dict(m)).d, n, pads, key, String(CStr(s)));
    }
  }

  lemma CutPutBound(m: VariantMap, n: VariantMap, pads: set<Str>, key: Str, bound: Option<Int64>)
    requires Padded(Cut(Dict(m)).d, n, pads)
    ensures Padded(Cut(Dict(PutBound(m, key, bound))).d, PutBound(n, key, bound), pads)
  {
    if bound.Some? {
      CutPut(m, key, Long(ToSeconds(bound.value)));
      PadPut(Cut(Dict(m)).d, n, pads, key, Long(ToSeconds(bound.value)));
    }
  }

  const PADS := {TITLE, TIME_LABEL, DATE_LABEL}

  lemma CutIdAndType(id: Str, ty: Str)
    requires NUL !in ty
    ensures Cut(Dict(IdAndType(id, ty))).d == IdAndType(CStr(id), ty)
  {
    FilterKeysDiffer();
    assert CStr(ty) == ty;
  }

  lemma CutHints(m: VariantMap, n: VariantMap, pads: set<Str>, hints: Int32)
    requires Padded(Cut(Dict(m)).d, n, pads)
    ensures Padded(Cut(Dict(PutHints(m, hints))).d, PutHints(n, hints), pads)
  {
    CutPut(m, HINTS, Int(hints));
    PadPut(Cut(Dict(m)).d, n, pads, HINTS, Int(hints));
  }

  lemma CutPutGroup(m: VariantMap, n: VariantMap, pads: set<Str>, group: Option<Str>)
    requires Padded(Cut(Dict(m)).d, n, pads)
    ensures Padded(Cut(Dict(PutGroup(m, group))).d, PutGroup(n, CutGroup(group)), pads)
  {
    if group.Some? {
      CutPut(m, FILTER_GROUP, String(group.value));
      PadPut(Cut(Dict(m)).d, n, pads, FILTER_GROUP, String(CStr(group.value)));
    }
  }

  lemma TypesHaveNoNul(b: Body)
    ensures NUL !in TypeName(b) && TypeName(CutBody(b)) == TypeName(b)
  {
    assert NUL !in OPTION_SELECTOR && NUL !in RADIO_BUTTONS && NUL !in DATETIME_PICKER;
  }

  lemma CutBase(f: Filter, group: Option<Str>)
    ensures Padded(Cut(Dict(BaseMap(f, group))).d, BaseMap(CutFilter(f), CutGroup(group)), PADS)
  {
    var id, ty := IdOf(f), TypeName(f.body);
    var m0, n0 := IdAndType(id, ty), IdAndType(CStr(id), ty);
    assert TITLE !in m0 && Padded(Cut(Dict(m0)).d, n0, PADS) by {
      TypesHaveNoNul(f.body);
      CutIdAndType(id, ty);
      FilterKeysDiffer();
    }
    CutPutString(m0, n0, PADS, TITLE, f.title);
    var m1, n1 := PutString(m0, TITLE, f.title), PutString(n0, TITLE, CStr(f.title));
    CutHints(m1, n1, PADS, f.hints);
    CutPutGroup(PutHints(m1, f.hints), PutHints(n1, f.hints), PADS, group);
    assert BaseMap(CutFilter(f), CutGroup(group)) == PutGroup(PutHints(n1, f.hints), CutGroup(group)) by {
      TypesHaveNoNul(f.body);
    }
  }

  lemma CutOptionList(os: seq<FilterOption>)
    ensures Cut(Array(OptionList(os))) == Array(OptionList(CutOptions(os)))
  {
    FilterKeysDiffer();
    forall i | 0 <= i < |os|
      ensures Cut(OptionList(os)[i]) == OptionList(CutOptions(os))[i]
    {
      assert Cut(Dict(OptionMap(os[i]))).d == OptionMap(CutOption(os[i]));
    }
    assert Cut(Array(OptionList(os))).a == OptionList(CutOptions(os));
  }

  lemma CutSelector(m: VariantMap, n: VariantMap, pads: set<Str>, s: Selector)
    requires Padded(Cut(Dict(m)).d, n, pads)
    ensures Padded(Cut(Dict(SelectorMap(m, s))).d,
                   SelectorMap(n, Selector(CStr(s.id), CStr(s.caption), s.multi, CutOptions(s.options))), pads)
  {
    var caption, options, multi := String(s.caption), Array(OptionList(s.options)), Bool(s.multi);
    CutOptionList(s.options);
    var m1 := m[LABEL := caption];
    var m2 := m1[OPTIONS := options];
    CutPut(m, LABEL, caption);
    CutPut(m1, OPTIONS, options);
    CutPut(m2, MULTI, multi);
    var n1 := n[LABEL := Cut(caption)];
    var n2 := n1[OPTIONS := Cut(options)];
    PadPut(Cut(Dict(m)).d, n, pads, LABEL, Cut(caption));
    PadPut(Cut(Dict(m1)).d, n1, pads, OPTIONS, Cut(options));
    PadPut(Cut(Dict(m2)).d, n2, pads, MULTI, multi);
  }

  lemma CutPicker(m: VariantMap, n: VariantMap, p: Picker)
    requires Padded(Cut(Dict(m)).d, n, PADS) && p.mode < 64 && TIME_LABEL !in m && DATE_LABEL !in m
    ensures var q := p.(id := CStr(p.id), timeLabel := CStr(p.timeLabel), dateLabel := CStr(p.dateLabel));
            Padded(Cut(Dict(PickerMap(m, p))).d, PickerMap(n, q), PADS)
  {
    var m0, n0 := m[MODE := Int(p.mode)], n[MODE := Int(p.mode)];
    CutPut(m, MODE, Int(p.mode));
    PadPut(Cut(Dict(m)).d, n, PADS, MODE, Int(p.mode));
    var m1, n1 := PutString(m0, TIME_LABEL, p.timeLabel), PutString(n0, TIME_LABEL, CStr(p.timeLabel));
    assert TIME_LABEL !in m0 && DATE_LABEL !in m1 by {
      FilterKeysDiffer();
    }
    CutPutString(m0, n0, PADS, TIME_LABEL, p.timeLabel);
    CutPutString(m1, n1, PADS, DATE_LABEL, p.dateLabel);
    var m2, n2 := PutString(m1, DATE_LABEL, p.dateLabel), PutString(n1, DATE_LABEL, CStr(p.dateLabel));
    CutPutBound(m2, n2, PADS, MIN, p.min);
    CutPutBound(PutBound(m2, MIN, p.min), PutBound(n2, MIN, p.min), PADS, MAX, p.max);
  }

  /** Cutting a written filter amounts to writing the cut filter, up to empty strings. */
  lemma CutSerialized(f: Filter, group: Option<Str>)
    requires WellFormed(f)
    ensures Padded(Cut(Dict(Serialize(f, group))).d, Serialize(CutFilter(f), CutGroup(group)), PADS)
  {
    CutBase(f, group);
    var m, n := BaseMap(f, group), BaseMap(CutFilter(f), CutGroup(group));
    if f.body.Options? {
      CutSelector(m, n, PADS, f.body.sel);
    } else {
      assert TIME_LABEL !in m && DATE_LABEL !in m by {
        BaseIsReadable(f, group);
        FilterKeysDiffer();
      }
      CutPicker(m, n, f.body.picker);
    }
  }

  lemma NarrowPadded(a: VariantMap, b: VariantMap, pads: set<Str>)
    requires Padded(a, b, pads)
    ensures Padded(Narrow(Dict(a)).d, Narrow(Dict(b)).d, pads)
  {
  }

  lemma PadsAreOptional(a: VariantMap, b: VariantMap, k: Str)
    requires Padded(a, b, PADS)
    ensures k in PADS ==> CannedQueryMaps.StringOr(a, k, []) == CannedQueryMaps.StringOr(b, k, [])
    ensures k !in PADS ==> (k in a <==> k in b) && (k in a ==> a[k] == b[k])
  {
  }

  lemma PaddedSelector(a: VariantMap, b: VariantMap, id: Str)
    requires Padded(a, b, PADS)
    ensures ReadSelector(id, a) == ReadSelector(id, b)
  {
    FilterKeysDiffer();
    PadsAreOptional(a, b, LABEL);
    PadsAreOptional(a, b, MULTI);
    PadsAreOptional(a, b, OPTIONS);
  }

  lemma PaddedPicker(a: VariantMap, b: VariantMap, id: Str)
    requires Padded(a, b, PADS)
    ensures ReadPicker(id, a) == ReadPicker(id, b)
  {
    FilterKeysDiffer();
    PadsAreOptional(a, b, MODE);
    PadsAreOptional(a, b, TIME_LABEL);
    PadsAreOptional(a, b, DATE_LABEL);
    PadsAreOptional(a, b, MIN);
    PadsAreOptional(a, b, MAX);
  }

  /** Empty strings in the places of optional ones make no difference to a reader. */
  lemma PaddedFilter(a: VariantMap, b: VariantMap)
    requires Padded(a, b, PADS)
    ensures Deserialize(a) == Deserialize(b)
  {
    FilterKeysDiffer();
    PadsAreOptional(a, b, FILTER_TYPE);
    PadsAreOptional(a, b, ID);
    PadsAreOptional(a, b, TITLE);
    PadsAreOptional(a, b, HINTS);
    if ID in a && a[ID].String? {
      PaddedSelector(a, b, a[ID].s);
      PaddedPicker(a, b, a[ID].s);
    }
  }

  lemma NamesPut(m: VariantMap, k: Str, v: Variant)
    requires NamesNulFree(Dict(m)) && NUL !in k && NamesNulFree(v)
    ensures NamesNulFree(Dict(m[k := v]))
  {
  }

  lemma NamesPutString(m: VariantMap, k: Str, s: Str)
    requires NamesNulFree(Dict(m)) && NUL !in k
    ensures NamesNulFree(Dict(PutString(m, k, s)))
  {
    NamesPut(m, k, String(s));
  }

  lemma NamesPutBound(m: VariantMap, k: Str, bound: Option<Int64>)
    requires NamesNulFree(Dict(m)) && NUL !in k
    ensures NamesNulFree(Dict(PutBound(m, k, bound)))
  {
    if bound.Some? {
      NamesPut(m, k, Long(ToSeconds(bound.value)));
    }
  }

  lemma BaseNames(f: Filter, group: Option<Str>)
    ensures NamesNulFree(Dict(BaseMap(f, group)))
  {
    assert NUL !in ID && NUL !in TITLE && NUL !in HINTS && NUL !in FILTER_TYPE && NUL !in FILTER_GROUP;
    var m0 := IdAndType(IdOf(f), TypeName(f.body));
    var m1 := PutString(m0, TITLE, f.title);
    NamesPutString(m0, TITLE, f.title);
    NamesPut(m1, HINTS, Int(f.hints));
    if group.Some? {
      NamesPut(PutHints(m1, f.hints), FILTER_GROUP, String(group.value));
    }
  }

  lemma OptionNames(os: seq<FilterOption>)
    ensures NamesNulFree(Array(OptionList(os)))
  {
    assert NUL !in ID && NUL !in LABEL && NUL !in DEFAULT;
    forall i | 0 <= i < |os|
      ensures NamesNulFree(OptionList(os)[i])
    {
      assert NamesNulFree(Dict(OptionMap(os[i])));
    }
  }

  lemma SelectorNames(m: VariantMap, s: Selector)
    requires NamesNulFree(Dict(m))
    ensures NamesNulFree(Dict(SelectorMap(m, s)))
  {
    assert NUL !in LABEL && NUL !in OPTIONS && NUL !in MULTI;
    OptionNames(s.options);
    var m1 := m[LABEL := String(s.caption)];
    NamesPut(m, LABEL, String(s.caption));
    NamesPut(m1, OPTIONS, Array(OptionList(s.options)));
    NamesPut(m1[OPTIONS := Array(OptionList(s.options))], MULTI, Bool(s.multi));
  }

  lemma PickerNames(m: VariantMap, p: Picker)
    requires NamesNulFree(Dict(m)) && p.mode < 64
    ensures NamesNulFree(Dict(PickerMap(m, p)))
  {
    var m0 := m[MODE := Int(p.mode)];
    var m1 := PutString(m0, TIME_LABEL, p.timeLabel);
    var m2 := PutString(m1, DATE_LABEL, p.dateLabel);
    var m3 := PutBound(m2, MIN, p.min);
    assert NUL !in MODE && NUL !in TIME_LABEL && NUL !in DATE_LABEL && NUL !in MIN && NUL !in MAX;
    NamesPut(m, MODE, Int(p.mode));
    NamesPutString(m0, TIME_LABEL, p.timeLabel);
    NamesPutString(m1, DATE_LABEL, p.dateLabel);
    NamesPutBound(m2, MIN, p.min);
    NamesPutBound(m3, MAX, p.max);
  }

  lemma NamesAreConstant(f: Filter, group: Option<Str>)
    requires WellFormed(f)
    ensures NamesNulFree(Dict(Serialize(f, group)))
  {
    BaseNames(f, group);
    if f.body.Options? {
      SelectorNames(BaseMap(f, group), f.body.sel);
    } else {
      PickerNames(BaseMap(f, group), f.body.picker);
    }
  }

  /** The filter in the cache: a tree of its variant form. */
  ghost function Cached(f: Filter, group: Option<Str>): Variant
    requires WellFormed(f)
  {
    ToVariant(ToNode(Dict(Serialize(f, group))))
  }

  ghost predicate HasShortBound(f: Filter) {
    f.body.Dates? && (Short(f.body.picker.min) || Short(f.body.picker.max))
  }

  /** What is read from the cache, for every filter: reading a date filter with a short bound throws; any other
      filter is read as if its strings had ended at their first NUL. */
  lemma CachedFilterComesBack(f: Filter, group: Option<Str>)
    requires WellFormed(f)
    ensures Cached(f, group).Dict?
    ensures Deserialize(Cached(f, group).d) ==
            if HasShortBound(f) then Throws(Logic) else Deserialize(Serialize(CutFilter(f), CutGroup(group)))
  {
    var v := Dict(Serialize(f, group));
    NamesAreConstant(f, group);
    TreeCuts(v);
    var a, b := Cut(v).d, Serialize(CutFilter(f), CutGroup(group));
    CutSerialized(f, group);
    NarrowPadded(a, b, PADS);
    PaddedFilter(Narrow(Dict(a)).d, Narrow(Dict(b)).d);
    if f.body.Options? {
      SelectorIsFixed(CutFilter(f), CutGroup(group));
    } else {
      CachedDateFilter(CutFilter(f), CutGroup(group));
    }
  }

  lemma {:induction false} ReadableOptions(s: Selector, os: seq<FilterOption>)
    requires ReadOptions(s, OptionList(os)).Ok?
    ensures forall i :: 0 <= i < |os| ==> os[i].id != [] && os[i].caption != []
    decreases |os|
  {
    if os != [] {
      OptionRoundTrip(os[0]);
      assert OptionList(os)[1..] == OptionList(os[1..]);
      ReadableOptions(AddOption(s, os[0]).value, os[1..]);
      assert forall i :: 1 <= i < |os| ==> os[i] == os[1..][i - 1];
    }
  }

  lemma CutIsWellFormed(f: Filter, group: Option<Str>)
    requires WellFormed(f) && Deserialize(Serialize(CutFilter(f), group)).Ok?
    ensures WellFormed(CutFilter(f))
  {
    if f.body.Options? {
      var c := CutFilter(f);
      var m := Serialize(c, group);
      var os := c.body.sel.options;
      assert m[OPTIONS] == Array(OptionList(os)) by {
        FilterKeysDiffer();
      }
      ReadableOptions(Selector(m[ID].s, m[LABEL].s, m[MULTI].b, []), os);
    }
  }

  /** An allowed filter is read from the cache as an ordinary push delivers it, exactly if it has no short bound and
      none of its strings holds a NUL. */
  lemma CachedLikePushedIff(f: Filter, group: Option<Str>)
    requires WellFormed(f) && HintsAllowed(f)
    ensures Cached(f, group).Dict?
    ensures Deserialize(Cached(f, group).d) == Deserialize(Serialize(f, group)) <==> !HasShortBound(f) && CutFilter(f) == f
  {
    CachedFilterComesBack(f, group);
    FilterRoundTrip(f, group);
    if !HasShortBound(f) {
      var c, g := CutFilter(f), CutGroup(group);
      if Deserialize(Serialize(c, g)).Ok? {
        CutIsWellFormed(f, g);
        FilterRoundTrip(c, g);
        assert Truncate(c) == Truncate(f) ==> c == f;
      }
      if c == f {
        FilterRoundTrip(f, g);
      }
    }
  }

  /** A date filter that starts in 2020 can be pushed but not cached. */
  lemma Bound2020IsLost()
    ensures var f := Filter([], 0, Dates(Picker("d", 0, [], [], Some(1_577_836_800_000_000_000), None)));
            && WellFormed(f) && Cached(f, None).Dict?
            && Deserialize(Cached(f, None).d) == Throws(Logic) && Deserialize(Serialize(f, None)) == Ok(f)
  {
    var f := Filter([], 0, Dates(Picker("d", 0, [], [], Some(1_577_836_800_000_000_000), None)));
    assert ToSeconds(1_577_836_800_000_000_000) == 1_577_836_800;
    CachedFilterComesBack(f, None);
    FilterRoundTrip(f, None);
  }
}
