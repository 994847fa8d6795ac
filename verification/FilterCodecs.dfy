/** The variant form of option-selector, radio-button and date filters. */
module FilterCodecs {
  import opened Bytes
  import opened Results
  import opened Variants
  import opened CannedQueryMaps
  import opened OptionSelectors
  import opened DatePickers

  datatype Body = Options(radio: bool, sel: Selector) | Dates(picker: Picker)

  datatype Filter = Filter(title: Str, hints: Int32, body: Body)

  function IdOf(f: Filter): Str {
    if f.body.Options? then f.body.sel.id else f.body.picker.id
  }

  const PRIMARY: Int32 := 1

  const ID: Str := "id"
  const TITLE: Str := "title"
  const HINTS: Str := "display_hints"
  const FILTER_TYPE: Str := "filter_type"
  const FILTER_GROUP: Str := "filter_group"
  const LABEL: Str := "label"
  const OPTIONS: Str := "options"
  const MULTI: Str := "multi_select"
  const DEFAULT: Str := "default"
  const MODE: Str := "mode"
  const TIME_LABEL: Str := "time_label"
  const DATE_LABEL: Str := "date_label"
  const MIN: Str := "min"
  const MAX: Str := "max"

  const OPTION_SELECTOR: Str := "option_selector"
  const RADIO_BUTTONS: Str := "radio_buttons"
  const DATETIME_PICKER: Str := "datetime_picker"

  /** Keys and type names of equal length. */
  lemma FilterKeysDiffer()
    ensures MIN != MAX && TITLE != LABEL && OPTIONS != DEFAULT && TIME_LABEL != DATE_LABEL && FILTER_GROUP != MULTI
    ensures OPTION_SELECTOR != DATETIME_PICKER
  {
    assert MIN[1] != MAX[1] && TITLE[0] != LABEL[0] && OPTIONS[0] != DEFAULT[0];
    assert TIME_LABEL[0] != DATE_LABEL[0] && FILTER_GROUP[0] != MULTI[0] && OPTION_SELECTOR[0] != DATETIME_PICKER[0];
  }

  // ----- serialize

  function TypeName(b: Body): Str {
    if b.Dates? then DATETIME_PICKER else if b.radio then RADIO_BUTTONS else OPTION_SELECTOR
  }

  function PutHints(m: VariantMap, hints: Int32): VariantMap {
    if hints == 0 then m else m[HINTS := Int(hints)]
  }

  function PutGroup(m: VariantMap, group: Option<Str>): VariantMap {
    if group.None? then m else m[FILTER_GROUP := String(group.value)]
  }

  function IdAndType(id: Str, ty: Str): VariantMap {
    map[ID := String(id), FILTER_TYPE := String(ty)]
  }

  /** What every filter writes; `group` is the id of its filter group. */
  function BaseMap(f: Filter, group: Option<Str>): VariantMap {
    PutGroup(PutHints(PutString(IdAndType(IdOf(f), TypeName(f.body)), TITLE, f.title), f.hints), group)
  }

  function OptionMap(o: FilterOption): VariantMap {
    var m: VariantMap := map[ID := String(o.id), LABEL := String(o.caption)];
    if o.isDefault then m[DEFAULT := Bool(true)] else m
  }

  function OptionList(os: seq<FilterOption>): seq<Variant> {
    seq(|os|, i requires 0 <= i < |os| => Dict(OptionMap(os[i])))
  }

  function SelectorMap(m: VariantMap, s: Selector): VariantMap {
    m[LABEL := String(s.caption)][OPTIONS := Array(OptionList(s.options))][MULTI := Bool(s.multi)]
  }

  function PutString(m: VariantMap, key: Str, s: Str): VariantMap {
    if s == [] then m else m[key := String(s)]
  }

  function PutBound(m: VariantMap, key: Str, bound: Option<Int64>): VariantMap {
    if bound.None? then m else m[key := Long(ToSeconds(bound.value))]
  }

  function PickerMap(m: VariantMap, p: Picker): VariantMap
    requires p.mode < 64
  {
    var m1 := PutString(m[MODE := Int(p.mode)], TIME_LABEL, p.timeLabel);
    var m2 := PutString(m1, DATE_LABEL, p.dateLabel);
    PutBound(PutBound(m2, MIN, p.min), MAX, p.max)
  }

  function Serialize(f: Filter, group: Option<Str>): VariantMap
    requires f.body.Dates? ==> f.body.picker.mode < 64
  {
    if f.body.Options? then SelectorMap(BaseMap(f, group), f.body.sel) else PickerMap(BaseMap(f, group), f.body.picker)
  }

  // ----- deserialize

  function Required(m: VariantMap, key: Str): Result<Variant> {
    if key in m then Ok(m[key]) else Throws(NotFound)
  }

  /** Hints arrive as a number or, from the server, as a word; anything else is ignored. */
  function ReadHints(m: VariantMap): Result<Int32> {
    if HINTS !in m then Ok(0)
    else match m[HINTS]
      case Int(i) => if i < 0 || i > PRIMARY then Throws(InvalidArgument) else Ok(i)
      case String(s) => Ok(if s == "primary" then PRIMARY else 0)
      case _ => Ok(0)
  }

  function ReadOption(v: Variant): Result<FilterOption> {
    var m :- GetDict(v);
    var idv :- Required(m, ID);
    var id :- GetString(idv);
    var labelv :- Required(m, LABEL);
    var caption :- GetString(labelv);
    if DEFAULT in m then
      var d :- GetBool(m[DEFAULT]);
      Ok(FilterOption(id, caption, d))
    else Ok(FilterOption(id, caption, false))
  }

  function ReadOptions(s: Selector, a: seq<Variant>): Result<Selector>
    decreases |a|
  {
    if a == [] then Ok(s)
    else
      var o :- ReadOption(a[0]);
      var s' :- AddOption(s, o);
      ReadOptions(s', a[1..])
  }

  function ReadSelector(id: Str, m: VariantMap): Result<Selector> {
    var labelv :- Required(m, LABEL);
    var caption :- GetString(labelv);
    var multiv :- Required(m, MULTI);
    var multi :- GetBool(multiv);
    var optionsv :- Required(m, OPTIONS);
    var a :- GetArray(optionsv);
    ReadOptions(Selector(id, caption, multi, []), a)
  }

  /** The date stored under an optional key. */
  function ReadBound(m: VariantMap, key: Str): Result<Option<int>> {
    if key !in m then Ok(None)
    else
      var n :- GetLong(m[key]);
      Ok(Some(ToTime(n)))
  }

  /** Only bounds that fit a 64-bit count of nanoseconds are modelled. */
  predicate FitsTime(b: Option<int>) {
    b.Some? ==> -0x8000_0000_0000_0000 <= b.value < 0x8000_0000_0000_0000
  }

  function ReadPicker(id: Str, m: VariantMap): Result<Picker> {
    var modev :- Required(m, MODE);
    var mode :- GetInt(modev);
    var timeLabel :- StringOr(m, TIME_LABEL, []);
    var dateLabel :- StringOr(m, DATE_LABEL, []);
    var min :- ReadBound(m, MIN);
    var max :- ReadBound(m, MAX);
    if FitsTime(min) && FitsTime(max) then Ok(Picker(id, mode % 64, timeLabel, dateLabel, min, max)) else Throws(Logic)
  }

  /** validate_display_hints() of the filter's class. */
  predicate HintsAllowed(f: Filter) {
    f.hints != PRIMARY || (f.body.Options? && !f.body.radio && !f.body.sel.multi)
  }

  function ReadBody(ty: Str, id: Str, m: VariantMap): Result<Body> {
    if ty == OPTION_SELECTOR || ty == RADIO_BUTTONS then
      var s :- ReadSelector(id, m);
      if ty == RADIO_BUTTONS && s.multi then Throws(Logic) else Ok(Options(ty == RADIO_BUTTONS, s))
    else if ty == DATETIME_PICKER then
      var p :- ReadPicker(id, m);
      Ok(Dates(p))
    else Throws(Logic)
  }

  function Deserialize(m: VariantMap): Result<Filter> {
    if FILTER_TYPE !in m then Throws(Logic)
    else
      var ty :- GetString(m[FILTER_TYPE]);
      if ty != OPTION_SELECTOR && ty != RADIO_BUTTONS && ty != DATETIME_PICKER then Throws(Logic)
      else
        var idv :- Required(m, ID);
        var id :- GetString(idv);
        var title :- StringOr(m, TITLE, []);
        var hints :- ReadHints(m);
        var body :- ReadBody(ty, id, m);
        var f := Filter(title, hints, body);
        if HintsAllowed(f) then Ok(f) else Throws(InvalidArgument)
  }

  // ----- what reading guarantees, whatever the map holds

  ghost predicate OneDefault(options: seq<FilterOption>) {
    forall i, j :: 0 <= i < j < |options| ==> !options[i].isDefault || !options[j].isDefault
  }

  /** At most one default in a single-selection filter, and no option without an id or a label. */
  ghost predicate Sound(s: Selector) {
    && (!s.multi ==> OneDefault(s.options))
    && forall i :: 0 <= i < |s.options| ==> s.options[i].id != [] && s.options[i].caption != []
  }

  lemma AddedIsSound(s: Selector, o: FilterOption)
    requires Sound(s) && AddOption(s, o).Ok?
    ensures Sound(AddOption(s, o).value)
  {
    var options := s.options + [o];
    assert forall i :: 0 <= i < |s.options| ==> options[i] == s.options[i];
  }

  lemma {:induction false} ReadOptionsAreSound(s: Selector, a: seq<Variant>)
    requires Sound(s) && ReadOptions(s, a).Ok?
    ensures var r := ReadOptions(s, a).value; Sound(r) && r.id == s.id && r.multi == s.multi
    decreases |a|
  {
    if a != [] {
      var o := ReadOption(a[0]).value;
      AddedIsSound(s, o);
      ReadOptionsAreSound(AddOption(s, o).value, a[1..]);
    }
  }

  /** Whatever map a filter is read from, a reader can rely on what the constructors enforce. */
  lemma ReadFilterIsSound(m: VariantMap)
    requires Deserialize(m).Ok?
    ensures WellFormed(Deserialize(m).value) && HintsAllowed(Deserialize(m).value)
    ensures ID in m && m[ID] == String(IdOf(Deserialize(m).value))
  {
    var f := Deserialize(m).value;
    if f.body.Options? {
      ReadOptionsAreSound(Selector(m[ID].s, m[LABEL].s, m[MULTI].b, []), m[OPTIONS].a);
    }
  }

  // ----- round trip

  /** What constructors and setters enforce. */
  ghost predicate WellFormed(f: Filter) {
    && (f.hints == 0 || f.hints == PRIMARY)
    && match f.body
       case Options(radio, s) =>
         (radio ==> !s.multi) && Sound(s)
       case Dates(p) => p.mode < 64
  }

  /** The same filter with its bounds truncated to seconds. */
  function Truncate(f: Filter): Filter {
    if f.body.Options? then f else f.(body := Dates(Reloaded(f.body.picker)))
  }

  lemma OptionRoundTrip(o: FilterOption)
    ensures ReadOption(Dict(OptionMap(o))) == Ok(o)
  {
    FilterKeysDiffer();
  }

  lemma {:induction false} OptionsRoundTrip(s: Selector, rest: seq<FilterOption>)
    requires !s.multi ==> OneDefault(s.options + rest)
    requires forall i :: 0 <= i < |rest| ==> rest[i].id != [] && rest[i].caption != []
    ensures ReadOptions(s, OptionList(rest)) == Ok(s.(options := s.options + rest))
    decreases |rest|
  {
    if rest == [] {
      assert s.options + rest == s.options;
    } else {
      var o := rest[0];
      OptionRoundTrip(o);
      assert OptionList(rest)[1..] == OptionList(rest[1..]);
      var all := s.options + rest;
      assert all == (s.options + [o]) + rest[1..];
      assert all[|s.options|] == o && forall i :: 0 <= i < |s.options| ==> all[i] == s.options[i];
      OptionsRoundTrip(s.(options := s.options + [o]), rest[1..]);
    }
  }

  /** The entries written by the base class are found again whatever the subclass adds. */
  ghost predicate BaseReadable(m: VariantMap, f: Filter, group: Option<Str>) {
    && FILTER_TYPE in m && m[FILTER_TYPE] == String(TypeName(f.body))
    && ID in m && m[ID] == String(IdOf(f))
    && StringOr(m, TITLE, []) == Ok(f.title)
    && ReadHints(m) == Ok(f.hints)
    && (FILTER_GROUP in m <==> group.Some?) && (group.Some? ==> m[FILTER_GROUP] == String(group.value))
  }

  lemma BaseIsReadable(f: Filter, group: Option<Str>)
    requires f.hints == 0 || f.hints == PRIMARY
    ensures BaseReadable(BaseMap(f, group), f, group)
    ensures BaseMap(f, group).Keys <= {ID, FILTER_TYPE, TITLE, HINTS, FILTER_GROUP}
  {
    FilterKeysDiffer();
  }

  lemma SelectorRoundTrip(f: Filter, group: Option<Str>)
    requires WellFormed(f) && f.body.Options?
    ensures var m := Serialize(f, group);
            BaseReadable(m, f, group) && ReadSelector(f.body.sel.id, m) == Ok(f.body.sel)
  {
    BaseIsReadable(f, group);
    SelectorKeepsBase(BaseMap(f, group), f, group, f.body.sel);
    SelectorIsRead(BaseMap(f, group), f.body.sel);
  }

  lemma SelectorKeepsBase(m: VariantMap, f: Filter, group: Option<Str>, s: Selector)
    requires BaseReadable(m, f, group)
    ensures BaseReadable(SelectorMap(m, s), f, group)
  {
    FilterKeysDiffer();
  }

  lemma SelectorIsRead(m: VariantMap, s: Selector)
    requires Sound(s)
    ensures ReadSelector(s.id, SelectorMap(m, s)) == Ok(s)
  {
    FilterKeysDiffer();
    OptionsRoundTrip(s.(options := []), s.options);
    assert [] + s.options == s.options;
  }

  lemma PickerRoundTrip(f: Filter, group: Option<Str>)
    requires WellFormed(f) && f.body.Dates?
    ensures var m := Serialize(f, group);
            BaseReadable(m, f, group) && ReadPicker(f.body.picker.id, m) == Ok(Reloaded(f.body.picker))
  {
    FilterKeysDiffer();
    BaseIsReadable(f, group);
    PickerFields(BaseMap(f, group), f.body.picker);
  }

  /** The two maps agree on every key but one. */
  ghost predicate AgreeBut(m: VariantMap, n: VariantMap, key: Str) {
    forall k :: k != key ==> (k in m <==> k in n) && (k in m ==> m[k] == n[k])
  }

  lemma StringIsRead(m: VariantMap, key: Str, s: Str)
    requires key !in m
    ensures StringOr(PutString(m, key, s), key, []) == Ok(s) && AgreeBut(m, PutString(m, key, s), key)
  {
  }

  lemma BoundIsRead(m: VariantMap, key: Str, bound: Option<Int64>)
    requires key !in m
    ensures ReadBound(PutBound(m, key, bound), key) == Ok(if bound.Some? then Some(Truncated(bound.value)) else None)
    ensures AgreeBut(m, PutBound(m, key, bound), key)
  {
  }

  /** Four optional entries under distinct keys are read back independently of one another. */
  lemma OptionalsAreRead(m: VariantMap, t: Str, d: Str, a: Str, b: Str, p: Picker) returns (n: VariantMap)
    requires t != d && t != a && t != b && d != a && d != b && a != b
    requires t !in m && d !in m && a !in m && b !in m
    ensures n == PutBound(PutBound(PutString(PutString(m, t, p.timeLabel), d, p.dateLabel), a, p.min), b, p.max)
    ensures StringOr(n, t, []) == Ok(p.timeLabel) && StringOr(n, d, []) == Ok(p.dateLabel)
    ensures ReadBound(n, a) == Ok(if p.min.Some? then Some(Truncated(p.min.value)) else None)
    ensures ReadBound(n, b) == Ok(if p.max.Some? then Some(Truncated(p.max.value)) else None)
    ensures forall k :: k !in {t, d, a, b} ==> (k in m <==> k in n) && (k in m ==> m[k] == n[k])
  {
    var m1 := PutString(m, t, p.timeLabel);
    var m2 := PutString(m1, d, p.dateLabel);
    var m3 := PutBound(m2, a, p.min);
    n := PutBound(m3, b, p.max);
    StringIsRead(m, t, p.timeLabel);
    StringIsRead(m1, d, p.dateLabel);
    BoundIsRead(m2, a, p.min);
    BoundIsRead(m3, b, p.max);
  }

  lemma PickerFields(m: VariantMap, p: Picker)
    requires m.Keys <= {ID, FILTER_TYPE, TITLE, HINTS, FILTER_GROUP} && p.mode < 64
    ensures ReadPicker(p.id, PickerMap(m, p)) == Ok(Reloaded(p))
    ensures forall k :: k in {ID, FILTER_TYPE, TITLE, HINTS, FILTER_GROUP} ==>
              (k in PickerMap(m, p) <==> k in m) && (k in m ==> PickerMap(m, p)[k] == m[k])
  {
    FilterKeysDiffer();
    var n := OptionalsAreRead(m[MODE := Int(p.mode)], TIME_LABEL, DATE_LABEL, MIN, MAX, p);
  }

  lemma BaseSurvives(f: Filter, group: Option<Str>)
    requires WellFormed(f)
    ensures BaseReadable(Serialize(f, group), f, group)
  {
    if f.body.Options? {
      SelectorRoundTrip(f, group);
    } else {
      PickerRoundTrip(f, group);
    }
  }

  /** A filter comes back unchanged, except that date bounds are truncated, exactly if its display hint
      is allowed for its class; otherwise reading throws. */
  lemma FilterRoundTrip(f: Filter, group: Option<Str>)
    requires WellFormed(f)
    ensures Deserialize(Serialize(f, group)) == if HintsAllowed(f) then Ok(Truncate(f)) else Throws(InvalidArgument)
  {
    FilterKeysDiffer();
    if f.body.Options? {
      SelectorRoundTrip(f, group);
    } else {
      PickerRoundTrip(f, group);
    }
  }
}
