/** What the readers of filters and filter groups accept, for every map: an independent description of the variant
    forms, which each reader meets in both directions. */
module FilterReaders {
  import opened Bytes
  import opened Results
  import opened Variants
  import opened CannedQueryMaps
  import opened OptionSelectors
  import opened DatePickers
  import opened FilterCodecs
  import FilterGroups

  /** Display hints are 0 or 1; the server sends the word "primary" for 1 and any other word for 0, and anything that is
      neither a number nor a word is ignored. */
  ghost predicate GivesHints(m: VariantMap, hints: int) {
    if "display_hints" !in m then hints == 0
    else match m["display_hints"]
      case Int(i) => (i == 0 || i == 1) && hints == i
      case String(s) => hints == if s == "primary" then 1 else 0
      case _ => hints == 0
  }

  lemma HintsReadIff(m: VariantMap, hints: Int32)
    ensures ReadHints(m) == Ok(hints) <==> GivesHints(m, hints)
    ensures ReadHints(m).Throws? ==> ReadHints(m).error == InvalidArgument
  {
  }

  // ----- options

  ghost predicate DescribesOption(v: Variant, o: FilterOption) {
    && v.Dict? && "id" in v.d && v.d["id"] == String(o.id) && "label" in v.d && v.d["label"] == String(o.caption)
    && if "default" in v.d then v.d["default"] == Bool(o.isDefault) else !o.isDefault
  }

  lemma OptionReadIff(v: Variant, o: FilterOption)
    ensures ReadOption(v) == Ok(o) <==> DescribesOption(v, o)
  {
    FilterKeysDiffer();
  }

  ghost predicate DescribesOptions(a: seq<Variant>, os: seq<FilterOption>) {
    |a| == |os| && forall i :: 0 <= i < |a| ==> DescribesOption(a[i], os[i])
  }

  lemma DescribesFirst(a: seq<Variant>, os: seq<FilterOption>)
    requires a != [] && os != []
    ensures DescribesOptions(a, os) <==> DescribesOption(a[0], os[0]) && DescribesOptions(a[1..], os[1..])
  {
    assert forall i :: 0 < i < |a| ==> a[i] == a[1..][i - 1];
    assert forall i :: 0 < i < |os| ==> os[i] == os[1..][i - 1];
  }

  /** Whether the next options can be added. */
  lemma AddableFirst(s: Selector, o: FilterOption, rest: seq<FilterOption>)
    requires Sound(s)
    ensures Sound(s.(options := s.options + ([o] + rest))) ==>
            AddOption(s, o) == Ok(s.(options := s.options + [o])) && Sound(s.(options := s.options + [o]))
    ensures s.options + ([o] + rest) == (s.options + [o]) + rest
  {
    var all := s.options + ([o] + rest);
    assert all == (s.options + [o]) + rest;
    assert forall i :: 0 <= i < |s.options| ==> all[i] == s.options[i];
    assert all[|s.options|] == o;
    assert forall i :: 0 <= i < |s.options| + 1 ==> (s.options + [o])[i] == all[i];
  }

  lemma {:induction false} OptionsReadIf(s: Selector, a: seq<Variant>, os: seq<FilterOption>)
    requires Sound(s) && DescribesOptions(a, os) && Sound(s.(options := s.options + os))
    ensures ReadOptions(s, a) == Ok(s.(options := s.options + os))
    decreases |a|
  {
    if a == [] {
      assert s.options + os == s.options;
    } else {
      assert os == [os[0]] + os[1..];
      DescribesFirst(a, os);
      OptionReadIff(a[0], os[0]);
      AddableFirst(s, os[0], os[1..]);
      OptionsReadIf(s.(options := s.options + [os[0]]), a[1..], os[1..]);
    }
  }

  lemma {:induction false} OptionsReadOnlyIf(s: Selector, a: seq<Variant>) returns (os: seq<FilterOption>)
    requires Sound(s) && ReadOptions(s, a).Ok?
    ensures DescribesOptions(a, os) && ReadOptions(s, a) == Ok(s.(options := s.options + os))
    ensures Sound(s.(options := s.options + os))
    decreases |a|
  {
    if a == [] {
      os := [];
      assert s.options + os == s.options;
    } else {
      var o := ReadOption(a[0]).value;
      AddedIsSound(s, o);
      OptionReadIff(a[0], o);
      var rest := OptionsReadOnlyIf(AddOption(s, o).value, a[1..]);
      os := [o] + rest;
      assert os[1..] == rest;
      DescribesFirst(a, os);
      assert s.options + os == (s.options + [o]) + rest;
    }
  }

  ghost predicate DescribesSelector(m: VariantMap, s: Selector) {
    && "label" in m && m["label"] == String(s.caption) && "multi_select" in m && m["multi_select"] == Bool(s.multi)
    && "options" in m && m["options"].Array? && DescribesOptions(m["options"].a, s.options)
    && (forall i :: 0 <= i < |s.options| ==> s.options[i].id != [] && s.options[i].caption != [])
    && (!s.multi ==> forall i, j :: 0 <= i < j < |s.options| ==> !s.options[i].isDefault || !s.options[j].isDefault)
  }

  lemma SelectorReadIff(m: VariantMap, s: Selector)
    ensures ReadSelector(s.id, m) == Ok(s) <==> DescribesSelector(m, s)
  {
    FilterKeysDiffer();
    if "label" in m && m["label"].String? && "multi_select" in m && m["multi_select"].Bool? && "options" in m && m["options"].Array? {
      var bare, a := Selector(s.id, m["label"].s, m["multi_select"].b, []), m["options"].a;
      assert ReadSelector(s.id, m) == ReadOptions(bare, a);
      if DescribesSelector(m, s) {
        assert [] + s.options == s.options;
        OptionsReadIf(bare, a, s.options);
      }
      if ReadOptions(bare, a).Ok? {
        var os := OptionsReadOnlyIf(bare, a);
        assert [] + os == os;
      }
    }
  }

  // ----- dates

  /** A bound is given in seconds, as a 64-bit number. */
  ghost predicate GivesBound(m: VariantMap, key: Str, bound: Option<Int64>) {
    if key in m then m[key].Long? && bound.Some? && bound.value == m[key].n * 1_000_000_000 else bound == None
  }

  ghost predicate DescribesPicker(m: VariantMap, p: Picker) {
    && "mode" in m && m["mode"].Int? && p.mode == m["mode"].i % 64
    && OptionalText(m, "time_label", p.timeLabel) && OptionalText(m, "date_label", p.dateLabel)
    && GivesBound(m, "min", p.min) && GivesBound(m, "max", p.max)
  }

  lemma PickerReadIff(m: VariantMap, p: Picker)
    ensures ReadPicker(p.id, m) == Ok(p) <==> DescribesPicker(m, p)
  {
    FilterKeysDiffer();
    BoundReadIff(m, MIN, p.min);
    BoundReadIff(m, MAX, p.max);
  }

  lemma BoundReadIff(m: VariantMap, key: Str, bound: Option<Int64>)
    ensures ReadBound(m, key) == Ok(bound) <==> GivesBound(m, key, bound)
  {
  }

  // ----- filters

  ghost predicate DescribesFilter(m: VariantMap, f: Filter) {
    && "id" in m && m["id"] == String(IdOf(f)) && OptionalText(m, "title", f.title) && GivesHints(m, f.hints)
    && "filter_type" in m
    && (match f.body
        case Options(radio, s) =>
          && m["filter_type"] == String(if radio then "radio_buttons" else "option_selector")
          && DescribesSelector(m, s) && (radio ==> !s.multi)
          && (f.hints == 1 ==> !radio && !s.multi)
        case Dates(p) => m["filter_type"] == String("datetime_picker") && DescribesPicker(m, p) && f.hints != 1)
  }

  lemma BodyReadIff(m: VariantMap, ty: Str, id: Str, b: Body)
    requires (b.Options? ==> b.sel.id == id) && (b.Dates? ==> b.picker.id == id)
    ensures ReadBody(ty, id, m) == Ok(b) <==>
            match b
            case Options(radio, s) => ty == (if radio then RADIO_BUTTONS else OPTION_SELECTOR) && ReadSelector(id, m) == Ok(s) && (radio ==> !s.multi)
            case Dates(p) => ty == DATETIME_PICKER && ReadPicker(id, m) == Ok(p)
  {
    FilterKeysDiffer();
    assert |OPTION_SELECTOR| == 15 && |RADIO_BUTTONS| == 13 && |DATETIME_PICKER| == 15;
  }

  lemma ReadersKeepId(ty: Str, id: Str, m: VariantMap)
    requires ReadBody(ty, id, m).Ok?
    ensures var b := ReadBody(ty, id, m).value; (b.Options? ==> b.sel.id == id) && (b.Dates? ==> b.picker.id == id)
  {
    if ReadBody(ty, id, m).value.Options? {
      ReadOptionsAreSound(Selector(id, m[LABEL].s, m[MULTI].b, []), m[OPTIONS].a);
    }
  }

  /** A map is read as a filter exactly if it describes it. */
  lemma FilterReadIff(m: VariantMap, f: Filter)
    ensures Deserialize(m) == Ok(f) <==> DescribesFilter(m, f)
  {
    FilterKeysDiffer();
    HintsReadIff(m, f.hints);
    if FILTER_TYPE in m && m[FILTER_TYPE].String? && ID in m && m[ID] == String(IdOf(f)) {
      BodyReadIff(m, m[FILTER_TYPE].s, IdOf(f), f.body);
      if f.body.Options? {
        SelectorReadIff(m, f.body.sel);
      } else {
        PickerReadIff(m, f.body.picker);
      }
    } else if Deserialize(m) == Ok(f) {
      ReadersKeepId(m[FILTER_TYPE].s, m[ID].s, m);
    }
  }

  /** So the variant form of a filter that may have its hint is a description of it, bounds truncated. */
  lemma WrittenFilterDescribes(f: Filter, group: Option<Str>)
    requires WellFormed(f) && HintsAllowed(f)
    ensures DescribesFilter(FilterCodecs.Serialize(f, group), Truncate(f))
  {
    FilterRoundTrip(f, group);
    FilterReadIff(FilterCodecs.Serialize(f, group), Truncate(f));
  }

  // ----- groups

  lemma GroupReadIff(v: Variant, id: Str, caption: Str)
    ensures FilterGroups.ReadGroup(v) == Ok((id, caption)) <==>
            v.Dict? && "id" in v.d && v.d["id"] == String(id) && "label" in v.d && v.d["label"] == String(caption)
  {
    FilterKeysDiffer();
  }

  lemma GroupedReadIff(v: Variant, groups: map<Str, FilterGroups.FilterGroup>, g: FilterGroups.Grouped)
    ensures FilterGroups.ReadFilter(v, groups) == Ok(g) <==>
            && v.Dict? && DescribesFilter(v.d, g.filter)
            && if "filter_group" in v.d then v.d["filter_group"].String? && v.d["filter_group"].s in groups && g.group == groups[v.d["filter_group"].s]
               else g.group == null
  {
    if v.Dict? {
      FilterReadIff(v.d, g.filter);
    }
  }
}
