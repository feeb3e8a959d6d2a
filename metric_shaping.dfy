/**
 * The metric-shaping step of the charts dashboard: the rows the API returned
 * are split by their normalised `metric_type` into single values, time series
 * and categories, and the last two are projected into `{name, value}` chart
 * points.
 */
module MetricShaping {
  import opened Optional
  import opened JsText
  import opened JsNumber
  import opened JsValue

  /**
   * One element of the API's `data` array. The four fields the dashboard reads
   * are `metric_type`, `metric_name`, `metric_value` and `date_event`; the
   * others (client_code, metric_category, chart, sequence, ...) are opaque and
   * travel unchanged in `rest`.
   */
  datatype Row = Row(metricType: Value, metricName: Value, metricValue: Value, dateEvent: Value,
                     rest: map<string, Value>)

  /** The three metric types the dashboard recognises. */
  datatype Kind = SingleValue | TimeSeries | Category

  /** The literal each filter compares the normalised type with; it is already in normal form. */
  function KindName(k: Kind): string {
    match k
    case SingleValue => "single_value"
    case TimeSeries => "time_series"
    case Category => "category"
  }

  /** What `m.metric_type?.trim().toLowerCase()` produces: undefined, a string, or a thrown TypeError. */
  datatype TypeTag = Absent | Normalized(s: string) | TrimNotAFunction(offending: Value)

  /**
   * `?.` short-circuits on null and undefined; a string is trimmed and
   * lower-cased; a boolean or number has no `trim` method, so calling it throws.
   */
  function NormalizeType(v: Value): (t: TypeTag)
    ensures t.Absent? <==> v.Undefined? || v.Null?
    ensures t.TrimNotAFunction? <==> v.Bool? || v.Num?
    ensures t.TrimNotAFunction? ==> t.offending == v
    ensures v.Str? ==> t == Normalized(ToLowerAscii(Trim(v.s)))
  {
    match v
    case Undefined => Absent
    case Null => Absent
    case Str(s) => Normalized(ToLowerAscii(Trim(s)))
    case _ => TrimNotAFunction(v)
  }

  /** The filter callback for kind k answers true: `... === "<kind name>"`. */
  predicate IsOfKind(r: Row, k: Kind) {
    NormalizeType(r.metricType) == Normalized(KindName(k))
  }

  /** The row belongs to one of the three groups. */
  predicate Recognised(r: Row) {
    IsOfKind(r, SingleValue) || IsOfKind(r, TimeSeries) || IsOfKind(r, Category)
  }

  /** The filter callback throws on this row. */
  predicate Throws(r: Row) {
    NormalizeType(r.metricType).TrimNotAFunction?
  }

  /** No row makes the filter callback throw. */
  predicate NoneThrows(rows: seq<Row>) {
    forall i :: 0 <= i < |rows| ==> !Throws(rows[i])
  }

  /** The exception that escapes a filter: `m.metric_type?.trim is not a function`. */
  datatype ShapeError = TypeError(metricType: Value)

  /**
   * `rows.filter(m => m.metric_type?.trim().toLowerCase() === name)`: the
   * callback runs on the rows left to right, and the first exception escapes.
   */
  function FilterByKind(rows: seq<Row>, k: Kind): (r: Result<seq<Row>, ShapeError>)
    ensures r.Ok? <==> NoneThrows(rows)
    ensures r.Ok? ==> |r.value| <= |rows|
    ensures r.Ok? ==> forall i :: 0 <= i < |r.value| ==> IsOfKind(r.value[i], k)
    decreases |rows|
  {
    if rows == [] then Ok([])
    else if Throws(rows[0]) then Err(TypeError(rows[0].metricType))
    else
      match FilterByKind(rows[1..], k)
      case Err(e) => Err(e)
      case Ok(kept) =>
        assert forall i :: 1 <= i < |rows| ==> rows[i] == rows[1..][i - 1];
        Ok(if IsOfKind(rows[0], k) then [rows[0]] + kept else kept)
  }

  /** `a` is `b` with some elements deleted, the rest kept in their order. */
  predicate IsSubsequence(a: seq<Row>, b: seq<Row>)
    decreases |b|
  {
    if a == [] then true
    else if b == [] then false
    else if a[0] == b[0] then IsSubsequence(a[1..], b[1..])
    else IsSubsequence(a, b[1..])
  }

  /** A chart point: `{ name, value }`. */
  datatype Point = Point(name: Value, value: Number)

  /** `m.<field> || "N/A"`: the field when it is truthy, the placeholder otherwise. */
  function NameOrPlaceholder(v: Value): (name: Value)
    ensures Truthy(name)
    ensures Truthy(v) ==> name == v
    ensures !Truthy(v) ==> name == Str("N/A")
  {
    Or(v, Str("N/A"))
  }

  /**
   * `Number(m.metric_value) || 0`: the numeric coercion when it is a number
   * other than 0 and NaN, otherwise 0; so never NaN.
   */
  function ValueOrZero(v: Value): (n: Number)
    ensures !n.NaN?
    ensures n == ToNumber(v) || n == Finite(0.0)
    ensures ToNumber(v).NaN? ==> n == Finite(0.0)
    ensures !ToNumber(v).NaN? ==> n == ToNumber(v)
  {
    Or(Num(ToNumber(v)), Num(Finite(0.0))).n
  }

  /** The point a time-series row becomes: x is `date_event`, y its numeric value. */
  function TimePoint(r: Row): (p: Point)
    ensures Truthy(p.name) && !p.value.NaN?
    ensures Truthy(r.dateEvent) ==> p.name == r.dateEvent
    ensures !Truthy(r.dateEvent) ==> p.name == Str("N/A")
    ensures p.value == ValueOrZero(r.metricValue)
  {
    Point(NameOrPlaceholder(r.dateEvent), ValueOrZero(r.metricValue))
  }

  /** The point a category row becomes: x is `metric_name`, y its numeric value. */
  function CategoryPoint(r: Row): (p: Point)
    ensures Truthy(p.name) && !p.value.NaN?
    ensures Truthy(r.metricName) ==> p.name == r.metricName
    ensures !Truthy(r.metricName) ==> p.name == Str("N/A")
    ensures p.value == ValueOrZero(r.metricValue)
  {
    Point(NameOrPlaceholder(r.metricName), ValueOrZero(r.metricValue))
  }

  /** `timeSeries.map(...)`: one point per row, at the same position. */
  function TimeSeriesData(rows: seq<Row>): (pts: seq<Point>)
    ensures |pts| == |rows|
    ensures forall i :: 0 <= i < |rows| ==> pts[i] == TimePoint(rows[i])
  {
    if rows == [] then [] else [TimePoint(rows[0])] + TimeSeriesData(rows[1..])
  }

  /** `categories.map(...)`: one point per row, at the same position. */
  function CategoryData(rows: seq<Row>): (pts: seq<Point>)
    ensures |pts| == |rows|
    ensures forall i :: 0 <= i < |rows| ==> pts[i] == CategoryPoint(rows[i])
  {
    if rows == [] then [] else [CategoryPoint(rows[0])] + CategoryData(rows[1..])
  }

  /** The five values the component derives from `metrics` before it decides what to render. */
  datatype Shaped = Shaped(singleValues: seq<Row>, timeSeries: seq<Row>, categories: seq<Row>,
                           timeSeriesData: seq<Point>, categoryData: seq<Point>)

  /** The three filters, in source order, then the two projections. */
  function Shape(metrics: seq<Row>): Result<Shaped, ShapeError> {
    match FilterByKind(metrics, SingleValue)
    case Err(e) => Err(e)
    case Ok(singleValues) =>
      match FilterByKind(metrics, TimeSeries)
      case Err(e) => Err(e)
      case Ok(timeSeries) =>
        match FilterByKind(metrics, Category)
        case Err(e) => Err(e)
        case Ok(categories) =>
          Ok(Shaped(singleValues, timeSeries, categories,
                    TimeSeriesData(timeSeries), CategoryData(categories)))
  }

  // ---------------------------------------------------------------------------
  // Properties of the filters

  /** When a filter throws, the exception comes from the first row whose type has no `trim`. */
  lemma {:induction false} FilterErrorIsFirstThrow(rows: seq<Row>, k: Kind)
    requires FilterByKind(rows, k).Err?
    ensures exists i :: 0 <= i < |rows| && Throws(rows[i])
                        && FilterByKind(rows, k).error == TypeError(rows[i].metricType)
                        && NoneThrows(rows[..i])
    decreases |rows|
  {
    if Throws(rows[0]) {
      assert NoneThrows(rows[..0]);
    } else {
      FilterErrorIsFirstThrow(rows[1..], k);
      var i :| 0 <= i < |rows[1..]| && Throws(rows[1..][i])
               && FilterByKind(rows[1..], k).error == TypeError(rows[1..][i].metricType)
               && NoneThrows(rows[1..][..i]);
      assert rows[..i + 1] == [rows[0]] + rows[1..][..i];
      assert rows[i + 1] == rows[1..][i];
    }
  }

  /**
   * A filter keeps exactly the rows of its kind, each as many times as it
   * occurs in the input, and nothing else.
   */
  lemma {:induction false} FilterKeepsExactlyItsKind(rows: seq<Row>, k: Kind)
    requires NoneThrows(rows)
    ensures forall r :: multiset(FilterByKind(rows, k).value)[r]
                        == if IsOfKind(r, k) then multiset(rows)[r] else 0
    decreases |rows|
  {
    if rows != [] {
      assert NoneThrows(rows[1..]) by {
        assert forall i :: 0 <= i < |rows[1..]| ==> rows[1..][i] == rows[i + 1];
      }
      FilterKeepsExactlyItsKind(rows[1..], k);
      assert rows == [rows[0]] + rows[1..];
      assert multiset(rows) == multiset{rows[0]} + multiset(rows[1..]);
    }
  }

  /** A filter keeps its rows in input order: its result is a subsequence of the input. */
  lemma {:induction false} FilterPreservesOrder(rows: seq<Row>, k: Kind)
    requires NoneThrows(rows)
    ensures IsSubsequence(FilterByKind(rows, k).value, rows)
    decreases |rows|
  {
    if rows != [] {
      assert NoneThrows(rows[1..]) by {
        assert forall i :: 0 <= i < |rows[1..]| ==> rows[1..][i] == rows[i + 1];
      }
      FilterPreservesOrder(rows[1..], k);
      var kept := FilterByKind(rows[1..], k).value;
      if !IsOfKind(rows[0], k) && kept != [] {
        assert IsOfKind(kept[0], k);
        assert kept[0] != rows[0];
      }
    }
  }

  /** A row's membership in a group is decided by its normalised type alone. */
  lemma FilterMembership(rows: seq<Row>, k: Kind, r: Row)
    requires NoneThrows(rows)
    ensures r in FilterByKind(rows, k).value <==> r in rows && IsOfKind(r, k)
  {
    FilterKeepsExactlyItsKind(rows, k);
    assert r in FilterByKind(rows, k).value <==> multiset(FilterByKind(rows, k).value)[r] > 0;
    assert r in rows <==> multiset(rows)[r] > 0;
  }

  // ---------------------------------------------------------------------------
  // Properties of the whole shaping step

  /** Shaping fails exactly when some row's `metric_type` is a boolean or a number. */
  lemma ShapeFailsIff(metrics: seq<Row>)
    ensures Shape(metrics).Err? <==> !NoneThrows(metrics)
    ensures Shape(metrics).Err? ==> Shape(metrics).error == FilterByKind(metrics, SingleValue).error
  {
  }

  /**
   * Each group holds exactly the rows whose normalised type is its kind,
   * with their multiplicities, in input order.
   */
  lemma GroupsAreExact(metrics: seq<Row>)
    requires Shape(metrics).Ok?
    ensures var sh := Shape(metrics).value;
            && (forall r :: multiset(sh.singleValues)[r] == if IsOfKind(r, SingleValue) then multiset(metrics)[r] else 0)
            && (forall r :: multiset(sh.timeSeries)[r] == if IsOfKind(r, TimeSeries) then multiset(metrics)[r] else 0)
            && (forall r :: multiset(sh.categories)[r] == if IsOfKind(r, Category) then multiset(metrics)[r] else 0)
            && IsSubsequence(sh.singleValues, metrics)
            && IsSubsequence(sh.timeSeries, metrics)
            && IsSubsequence(sh.categories, metrics)
  {
    ShapeFailsIff(metrics);
    FilterKeepsExactlyItsKind(metrics, SingleValue);
    FilterKeepsExactlyItsKind(metrics, TimeSeries);
    FilterKeepsExactlyItsKind(metrics, Category);
    FilterPreservesOrder(metrics, SingleValue);
    FilterPreservesOrder(metrics, TimeSeries);
    FilterPreservesOrder(metrics, Category);
  }

  /**
   * No row lands in two groups, and a row whose type is missing or not one of
   * the three names lands in none.
   */
  lemma GroupsDisjoint(metrics: seq<Row>, r: Row)
    requires Shape(metrics).Ok?
    ensures var sh := Shape(metrics).value;
            && !(r in sh.singleValues && r in sh.timeSeries)
            && !(r in sh.singleValues && r in sh.categories)
            && !(r in sh.timeSeries && r in sh.categories)
            && (!Recognised(r) ==> r !in sh.singleValues && r !in sh.timeSeries && r !in sh.categories)
  {
    ShapeFailsIff(metrics);
    FilterMembership(metrics, SingleValue, r);
    FilterMembership(metrics, TimeSeries, r);
    FilterMembership(metrics, Category, r);
  }

  /** Group sizes, one filter step at a time. */
  lemma {:induction false} GroupSizes(rows: seq<Row>)
    requires NoneThrows(rows)
    ensures var n := |FilterByKind(rows, SingleValue).value| + |FilterByKind(rows, TimeSeries).value|
                     + |FilterByKind(rows, Category).value|;
            && n <= |rows|
            && (n == |rows| <==> forall i :: 0 <= i < |rows| ==> Recognised(rows[i]))
    decreases |rows|
  {
    if rows != [] {
      assert forall i :: 0 <= i < |rows[1..]| ==> rows[1..][i] == rows[i + 1];
      GroupSizes(rows[1..]);
      assert SingleValue != TimeSeries && KindName(SingleValue) != KindName(TimeSeries);
      assert KindName(SingleValue) != KindName(Category) && KindName(TimeSeries) != KindName(Category);
      if forall i :: 0 <= i < |rows| ==> Recognised(rows[i]) {
        assert Recognised(rows[0]);
      }
    }
  }

  /**
   * The three groups together never hold more rows than the input, and hold
   * all of them exactly when every row has a recognised type.
   */
  lemma PartitionSize(metrics: seq<Row>)
    requires Shape(metrics).Ok?
    ensures var sh := Shape(metrics).value;
            var n := |sh.singleValues| + |sh.timeSeries| + |sh.categories|;
            && n <= |metrics|
            && (n == |metrics| <==> forall i :: 0 <= i < |metrics| ==> Recognised(metrics[i]))
  {
    ShapeFailsIff(metrics);
    GroupSizes(metrics);
  }

  /**
   * Each chart series has one point per row of its group, at the same index,
   * with the field-or-"N/A" name and the never-NaN value.
   */
  lemma SeriesFollowGroups(metrics: seq<Row>, i: nat)
    requires Shape(metrics).Ok?
    ensures var sh := Shape(metrics).value;
            && |sh.timeSeriesData| == |sh.timeSeries|
            && |sh.categoryData| == |sh.categories|
            && (i < |sh.timeSeries| ==>
                  var r, p := sh.timeSeries[i], sh.timeSeriesData[i];
                  && p.name == (if Truthy(r.dateEvent) then r.dateEvent else Str("N/A"))
                  && p.value == (if Truthy(Num(ToNumber(r.metricValue))) then ToNumber(r.metricValue) else Finite(0.0))
                  && !p.value.NaN?)
            && (i < |sh.categories| ==>
                  var r, p := sh.categories[i], sh.categoryData[i];
                  && p.name == (if Truthy(r.metricName) then r.metricName else Str("N/A"))
                  && p.value == (if Truthy(Num(ToNumber(r.metricValue))) then ToNumber(r.metricValue) else Finite(0.0))
                  && !p.value.NaN?)
  {
  }

  /** An empty metrics list gives three empty groups and two empty series, not an error. */
  lemma ShapeOfNothing()
    ensures Shape([]) == Ok(Shaped([], [], [], [], []))
  {
  }

  /** The type names begin and end with letters, which `trim` keeps. */
  lemma KindNameBorders(k: Kind)
    ensures var n := KindName(k); n != [] && !IsTrimmable(n[0]) && !IsTrimmable(n[|n| - 1])
  {
  }

  /** Lower-casing leaves a trimmable character as it is. */
  lemma LowerKeepsTrimmable(c: char)
    requires IsTrimmable(c)
    ensures LowerChar(c) == c
  {
  }

  /**
   * The type comparison ignores the case of ASCII letters and any white space
   * around the type.
   */
  lemma TypeMatchIgnoresCaseAndPadding(w1: string, s: string, w2: string, k: Kind)
    requires AllTrimmable(w1) && AllTrimmable(w2)
    requires ToLowerAscii(s) == KindName(k)
    ensures NormalizeType(Str(w1 + s + w2)) == Normalized(KindName(k))
  {
    TrimIgnoresPadding(w1, s, w2);
    var n := KindName(k);
    KindNameBorders(k);
    LowerSpec(s);
    assert LowerChar(s[0]) == n[0] && LowerChar(s[|s| - 1]) == n[|n| - 1];
    if IsTrimmable(s[0]) {
      LowerKeepsTrimmable(s[0]);
    }
    if IsTrimmable(s[|s| - 1]) {
      LowerKeepsTrimmable(s[|s| - 1]);
    }
    SolidBordersNotTrimmed(s);
  }

  /** A decimal numeral as `metric_value` is charted as the number it denotes. */
  lemma NumeralValue(n: nat)
    ensures ValueOrZero(Str(NatToDecimal(n))) == Finite(n as real)
    ensures ValueOrZero(Str("-" + NatToDecimal(n))) == Finite(-(n as real))
  {
    NumeralRoundTrip(n);
  }

  /** A filter returns its input unchanged when every row is of its kind. */
  lemma {:induction false} FilterKeepsAll(rows: seq<Row>, k: Kind)
    requires forall i :: 0 <= i < |rows| ==> IsOfKind(rows[i], k)
    ensures FilterByKind(rows, k) == Ok(rows)
    decreases |rows|
  {
    if rows != [] {
      assert forall i :: 0 <= i < |rows[1..]| ==> rows[1..][i] == rows[i + 1];
      FilterKeepsAll(rows[1..], k);
      assert IsOfKind(rows[0], k);
      assert !Throws(rows[0]);
      assert rows == [rows[0]] + rows[1..];
    }
  }

  /** A filter returns nothing when no row is of its kind and none throws. */
  lemma {:induction false} FilterKeepsNone(rows: seq<Row>, k: Kind)
    requires forall i :: 0 <= i < |rows| ==> !IsOfKind(rows[i], k) && !Throws(rows[i])
    ensures FilterByKind(rows, k) == Ok([])
    decreases |rows|
  {
    if rows != [] {
      assert forall i :: 0 <= i < |rows[1..]| ==> rows[1..][i] == rows[i + 1];
      FilterKeepsNone(rows[1..], k);
      assert !IsOfKind(rows[0], k) && !Throws(rows[0]);
    }
  }

  /**
   * Time-series points are not sorted by date: when every row is a time-series
   * row, the series is exactly the rows' points in input order.
   */
  lemma TimeSeriesKeepInputOrder(rows: seq<Row>)
    requires forall i :: 0 <= i < |rows| ==> IsOfKind(rows[i], TimeSeries)
    ensures Shape(rows).Ok?
    ensures Shape(rows).value.timeSeries == rows
    ensures forall i :: 0 <= i < |rows| ==> Shape(rows).value.timeSeriesData[i] == TimePoint(rows[i])
  {
    FilterKeepsAll(rows, TimeSeries);
  }

  /** The mantissa "12.5" denotes 12.5. */
  lemma DecimalMantissaExample()
    ensures ParseMantissa("12.5") == Some(12.5)
  {
    var s := "12.5";
    assert FirstOf(s, '.', '.') == 2;
    var whole, frac := s[..2], s[3..];
    assert whole == "12" && frac == "5";
    assert whole + frac == "125";
    assert DigitsValue("125", 10) == 125 by {
      assert "125"[..2] == "12" && "12"[..1] == "1" && "1"[..0] == [];
    }
  }

  /** The string "12.5" is charted as 12.5. */
  lemma DecimalValueExample()
    ensures ValueOrZero(Str("12.5")) == Finite(12.5)
  {
    SolidBordersNotTrimmed("12.5");
    assert FirstOf("12.5", 'e', 'E') == 4;
    DecimalMantissaExample();
  }

  /** A `null` value converts to 0 and is charted as 0. */
  lemma NullValueExample()
    ensures ValueOrZero(Null) == Finite(0.0)
  {
  }

  /** The string "abc" is NaN, which `|| 0` turns into 0. */
  lemma NonNumericValueExample()
    ensures ValueOrZero(Str("abc")) == Finite(0.0)
  {
    var s := "abc";
    SolidBordersNotTrimmed(s);
    assert FirstOf(s, 'e', 'E') == 3;
    assert !AllDigits(s, 10) by { assert DigitValue(s[0]) >= 10; }
    assert ParseMantissa(s) == None;
  }

  /** A string without upper-case ASCII letters is its own lower-case form. */
  lemma LowerOfLowerCase(s: string)
    requires forall i :: 0 <= i < |s| ==> !('A' <= s[i] <= 'Z')
    ensures ToLowerAscii(s) == s
  {
    LowerSpec(s);
  }

  /** A row is of at most one kind, and a row of some kind does not throw. */
  lemma KindIsUnique(r: Row, k: Kind, k': Kind)
    requires IsOfKind(r, k) && IsOfKind(r, k')
    ensures k == k' && !Throws(r)
  {
  }

  /** When every row is a single value, they all become cards and both series are empty. */
  lemma OnlySingleValues(rows: seq<Row>)
    requires forall i :: 0 <= i < |rows| ==> IsOfKind(rows[i], SingleValue)
    ensures Shape(rows) == Ok(Shaped(rows, [], [], [], []))
  {
    forall i | 0 <= i < |rows|
      ensures !IsOfKind(rows[i], TimeSeries) && !IsOfKind(rows[i], Category) && !Throws(rows[i])
    {
      if IsOfKind(rows[i], TimeSeries) {
        KindIsUnique(rows[i], SingleValue, TimeSeries);
      }
      if IsOfKind(rows[i], Category) {
        KindIsUnique(rows[i], SingleValue, Category);
      }
    }
    FilterKeepsAll(rows, SingleValue);
    FilterKeepsNone(rows, TimeSeries);
    FilterKeepsNone(rows, Category);
  }

  /**
   * End to end: a single row typed "single_value" becomes one card, with both
   * chart series empty.
   */
  lemma SingleValueExample(r: Row)
    requires r.metricType == Str("single_value")
    ensures Shape([r]) == Ok(Shaped([r], [], [], [], []))
  {
    SingleValueTag();
    assert IsOfKind([r][0], SingleValue);
    OnlySingleValues([r]);
  }

  /** The type "single_value" is already in normal form. */
  lemma SingleValueTag()
    ensures NormalizeType(Str("single_value")) == Normalized("single_value")
  {
    var s := "single_value";
    SolidBordersNotTrimmed(s);
    LowerOfLowerCase(s);
  }
}
