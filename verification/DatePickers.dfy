/** Date pickers. Points in time are 64-bit counts of nanoseconds; the filter state and the filter's own
    serialised bounds keep whole seconds, truncated toward zero. */
module DatePickers {
  import opened Bytes
  import opened Results
  import opened Variants
  import opened FilterStates

  const SECOND: int := 1_000_000_000

  /** `min` and `max` are nanoseconds since the epoch. */
  datatype Picker = Picker(id: Str, mode: nat, timeLabel: Str, dateLabel: Str, min: Option<Int64>, max: Option<Int64>)

  /** duration_cast to seconds. */
  function ToSeconds(t: Int64): Int64 {
    var x: int := t;
    if x >= 0 then x / SECOND else -((-x) / SECOND)
  }

  function ToTime(seconds: int): int {
    seconds * SECOND
  }

  /** A date may miss either bound by less than a second. */
  predicate IsValidDate(f: Picker, date: int) {
    && (f.min.Some? ==> date >= f.min.value - SECOND)
    && (f.max.Some? ==> date < f.max.value + SECOND)
  }

  const DATE: Str := "date"

  function UpdateDate(f: Picker, state: VariantMap, date: Int64): Result<VariantMap> {
    if !IsValidDate(f, date) then Throws(Logic)
    else if f.id == [] then Throws(InvalidArgument)
    else Ok(state[f.id := Dict(map[DATE := Long(ToSeconds(date))])])
  }

  function SelectedDate(f: Picker, state: VariantMap): Result<int> {
    if f.id == [] then Throws(InvalidArgument)
    else if f.id in state && state[f.id].Dict? && DATE in state[f.id].d && state[f.id].d[DATE].Long? then
      var date := ToTime(state[f.id].d[DATE].n);
      if IsValidDate(f, date) then Ok(date) else Throws(Logic)
    else Throws(NotFound)
  }

  /** Truncation moves a date toward the epoch by less than a second. */
  function Truncated(t: Int64): (r: Int64)
    ensures if t >= 0 then 0 <= r && t - SECOND < r <= t else t <= r < t + SECOND && r <= 0
  {
    ToTime(ToSeconds(t))
  }

  lemma TruncationMonotone(t: Int64, u: Int64)
    requires t <= u
    ensures Truncated(t) <= Truncated(u)
  {
  }

  /** The filter after its bounds have been serialised and read again. */
  function Reloaded(f: Picker): Picker {
    f.(min := if f.min.Some? then Some(Truncated(f.min.value)) else None,
       max := if f.max.Some? then Some(Truncated(f.max.value)) else None)
  }

  predicate WithinBounds(f: Picker, date: Int64) {
    (f.min.Some? ==> f.min.value <= date) && (f.max.Some? ==> date <= f.max.value)
  }

  lemma StoredDate(f: Picker, state: VariantMap, date: Int64)
    requires f.id != [] && IsValidDate(f, date)
    ensures var r := UpdateDate(f, state, date);
            && r.Ok?
            && SelectedDate(f, r.value) == if IsValidDate(f, Truncated(date)) then Ok(Truncated(date)) else Throws(Logic)
  {
  }

  /** Every date within the bounds is accepted and read back less than a second away, on the side of the
      epoch; and it still is if the filter's own bounds went through serialisation in between. */
  lemma DatesWithinBoundsSurvive(f: Picker, state: VariantMap, date: Int64)
    requires f.id != [] && WithinBounds(f, date)
    ensures var r := UpdateDate(f, state, date);
            && r.Ok?
            && SelectedDate(f, r.value) == Ok(Truncated(date))
            && UpdateDate(Reloaded(f), state, date) == r
            && SelectedDate(Reloaded(f), r.value) == Ok(Truncated(date))
            && (forall k :: k != f.id ==> (k in r.value <==> k in state) && (k in state ==> r.value[k] == state[k]))
    ensures -SECOND < Truncated(date) - date < SECOND
  {
    if f.min.Some? {
      TruncationMonotone(f.min.value, date);
    }
    if f.max.Some? {
      TruncationMonotone(date, f.max.value);
    }
    StoredDate(f, state, date);
    StoredDate(Reloaded(f), state, date);
  }

  /** A date is accepted exactly if it is at most a second before the minimum and less than a second after the
      maximum; what is stored is the number of whole seconds between the epoch and it. */
  lemma DateAcceptedIff(f: Picker, state: VariantMap, date: Int64)
    requires f.id != []
    ensures var r := UpdateDate(f, state, date);
            && (r.Ok? <==> (f.min.Some? ==> f.min.value - date <= 1_000_000_000) && (f.max.Some? ==> date - f.max.value < 1_000_000_000))
            && (r.Throws? ==> r.error == Logic)
            && (r.Ok? ==> exists n: Int64 :: r.value == state[f.id := Dict(map["date" := Long(n)])] &&
                            if date >= 0 then 0 <= date - n * 1_000_000_000 < 1_000_000_000
                            else 0 <= n * 1_000_000_000 - date < 1_000_000_000)
  {
    assert ToTime(ToSeconds(date)) == Truncated(date) == ToSeconds(date) * 1_000_000_000;
  }

  /** Reading finds a date exactly if one is stored as 64-bit seconds and passes the same test. */
  lemma DateReadIff(f: Picker, state: VariantMap)
    requires f.id != []
    ensures var r := SelectedDate(f, state);
            && (forall n: Int64 :: f.id in state && state[f.id].Dict? && "date" in state[f.id].d && state[f.id].d["date"] == Long(n) ==>
                  r == if (f.min.Some? ==> f.min.value - n * 1_000_000_000 <= 1_000_000_000) &&
                          (f.max.Some? ==> n * 1_000_000_000 - f.max.value < 1_000_000_000)
                       then Ok(n * 1_000_000_000) else Throws(Logic))
            && (f.id !in state || !state[f.id].Dict? || "date" !in state[f.id].d || !state[f.id].d["date"].Long? ==> r == Throws(NotFound))
  {
  }

  /** A date that is accepted only through the one-second tolerance is readable exactly if truncation
      does not carry it past the tolerance of the bound on the side of the epoch. */
  lemma AcceptedDateReadableIff(f: Picker, state: VariantMap, date: Int64)
    requires f.id != [] && UpdateDate(f, state, date).Ok?
    ensures SelectedDate(f, UpdateDate(f, state, date).value).Ok? <==>
            if date >= 0 then f.min.Some? ==> Truncated(date) >= f.min.value - SECOND
            else f.max.Some? ==> Truncated(date) < f.max.value + SECOND
  {
    StoredDate(f, state, date);
  }

  /** 0.9 s is accepted by a filter that starts at 1.5 s, but is stored as 0 s, which is not. */
  lemma AcceptedButNotReadable()
    ensures var f := Picker("d", 0, [], [], Some(1_500_000_000), None);
            var r := UpdateDate(f, map[], 900_000_000);
            r.Ok? && SelectedDate(f, r.value) == Throws(Logic)
  {
    var f := Picker("d", 0, [], [], Some(1_500_000_000), None);
    assert ToSeconds(900_000_000) == 0;
    StoredDate(f, map[], 900_000_000);
  }

  class DateTimePickerFilter {
    const id: Str
    var mode: nat
    var timeLabel: Str
    var dateLabel: Str
    var min: Option<Int64>
    var max: Option<Int64>

    constructor (id: Str, mode: nat)
      ensures View() == Picker(id, mode, [], [], None, None)
    {
      this.id, this.mode, timeLabel, dateLabel, min, max := id, mode, [], [], None, None;
    }

    ghost function View(): Picker
      reads this
    {
      Picker(id, mode, timeLabel, dateLabel, min, max)
    }

    method SetMinimum(date: Int64)
      modifies this
      ensures View() == old(View()).(min := Some(date))
    {
      min := Some(date);
    }

    method SetMaximum(date: Int64)
      modifies this
      ensures View() == old(View()).(max := Some(date))
    {
      max := Some(date);
    }

    method IsValid(date: int) returns (valid: bool)
      ensures valid == IsValidDate(View(), date)
    {
      valid := (min.None? || date >= min.value - SECOND) && (max.None? || date < max.value + SECOND);
    }

    method UpdateState(fs: FilterState, date: Int64) returns (r: Result<()>)
      modifies fs
      ensures var u := UpdateDate(View(), old(fs.state), date);
              && (u.Ok? ==> r.Ok? && fs.state == u.value)
              && (u.Throws? ==> r == Throws(u.error) && fs.state == old(fs.state))
    {
      var valid := IsValid(date);
      if !valid {
        return Throws(Logic);
      }
      if id == [] {
        return Throws(InvalidArgument);
      }
      fs.state := fs.state[id := Dict(map[DATE := Long(ToSeconds(date))])];
      return Ok(());
    }

    method Selected(fs: FilterState) returns (r: Result<int>)
      ensures r == SelectedDate(View(), fs.state)
    {
      var has := fs.HasFilter(id);
      if has.Throws? {
        return Throws(has.error);
      }
      if has.value {
        var v := fs.state[id];
        if v.Dict? && DATE in v.d && v.d[DATE].Long? {
          var date := ToTime(v.d[DATE].n);
          var valid := IsValid(date);
          if valid {
            return Ok(date);
          }
          return Throws(Logic);
        }
      }
      return Throws(NotFound);
    }
  }
}
