# Campaign-metrics dashboard: shaping and view state

This project models the one component of the campaign analytics dashboard that
holds logic: `ChartsWidgetsDashboards` in
`frontend/src/components/ChartsWidgetsDashboard.jsx`. It fetches the metric rows of
one client and keeps three pieces of React state: `metrics`, `loading` and `error`.
On every render it splits the rows by their `metric_type` into single values,
time series and categories. It projects the last two into `{name, value}` chart
points, and then picks one of four screens: loading, error, "no metrics" or the
charts.

The model is written in the source's own form:

- `optional.dfy` defines `Option` and `Result`.
- `js_text.dfy` models `String.prototype.trim` (the full ECMAScript WhiteSpace and
  LineTerminator set) and `toLowerCase`.
- `js_number.dfy` models JavaScript numbers and the conversion `Number(s)` applies to
  strings (StringToNumber, section 7.1.4.1.1 of ECMA-262). This covers surrounding
  white space, the blank string, signs, `Infinity`, decimal mantissas, exponents,
  and the `0x`/`0o`/`0b` literals.
- `js_value.dfy` models JSON scalar field values, truthiness, `||` and
  `Number(v)`.
- `metric_shaping.dfy` models lines 56-72 as pure functions. The three `filter`
  calls are `FilterByKind` and the two `map` calls are `TimeSeriesData` and
  `CategoryData`. The lemmas state the partition, order and default-value
  properties.
- `dashboard_state.dfy` models the state update of `fetchMetrics` (lines 30-46)
  twice: as the function `Apply`, and as the class `Dashboard`, whose fields are the
  three state variables and whose method `OnOutcome` updates them in place. The
  render decision of lines 74-76 is the function `Render`. The network is an
  input: a `FetchOutcome` is either the exception thrown inside the `try` or the
  parsed response body.

Behaviour of the code that the model keeps, and that the proofs make explicit:

- A `metric_type` that is a boolean or a number has no `trim` method. The filter
  on line 56 then throws a TypeError while the component renders, so shaping
  returns `Err` and the screen is `Crashed`. Shaping runs before the
  early returns of lines 74-76, so this happens even while loading.
- A name falls back to `"N/A"` for every falsy field, not only for a missing one:
  the empty string, `0` and `false` fall back too. A value falls back to `0` for
  NaN and for 0. It keeps `Infinity`.
- `error` is never cleared and `loading` is never set back to true. Once an error
  has been stored, no later successful fetch (for example after `client_code`
  changes) brings the charts back (`ErrorIsSticky`).

Two facts about the code that a reader might not expect:

- No file implements a fast/slow aggregate fallback for metrics queries:
  `backend/server.js` has only CRUD pass-through handlers, and the dashboard
  fetches a single URL.
- Rows with an unrecognised type string, or no type at all, are dropped
  silently. A `metric_type` that is a non-string, non-null value crashes the
  render instead of being dropped.

## Model

| member | source | states |
|---|---|---|
| `JsText.TrimStartSpec` | frontend/src/components/ChartsWidgetsDashboard.jsx:56-58 | dropping leading white space yields the suffix after it; everything dropped is white space and the result does not start with any |
| `JsText.TrimEndSpec` | frontend/src/components/ChartsWidgetsDashboard.jsx:56-58 | dropping trailing white space yields the prefix before it; everything dropped is white space and the result does not end with any |
| `JsText.TrimSpec` | frontend/src/components/ChartsWidgetsDashboard.jsx:56-58 | what `trim` keeps is one contiguous piece of the input that neither starts nor ends with white space, and everything cut from either side is white space |
| `JsText.TrimIgnoresPadding` | frontend/src/components/ChartsWidgetsDashboard.jsx:56-58 | white space added around a string does not change what `trim` returns |
| `JsText.Trim` | frontend/src/components/ChartsWidgetsDashboard.jsx:56-58 | `String.prototype.trim`; its contract is stated by `TrimSpec` and `TrimIgnoresPadding` |
| `JsText.LowerChar` | frontend/src/components/ChartsWidgetsDashboard.jsx:56-58 | an upper-case ASCII letter maps to its lower-case letter, every other character to itself, and no upper-case letter remains |
| `JsText.LowerSpec` | frontend/src/components/ChartsWidgetsDashboard.jsx:56-58 | `toLowerCase` keeps the length and lowers each character in place |
| `JsText.LowerIdempotent` | frontend/src/components/ChartsWidgetsDashboard.jsx:56-58 | lower-casing an already lower-cased string changes nothing |
| `JsText.ToLowerAscii` | frontend/src/components/ChartsWidgetsDashboard.jsx:56-58 | `toLowerCase` on ASCII letters; its contract is stated by `LowerSpec` and `LowerIdempotent` |
| `JsNumber.NumeralRoundTrip` | frontend/src/components/ChartsWidgetsDashboard.jsx:66 | `Number` reads the decimal numeral of every integer back as that integer, with or without a minus sign, in the exact-real model (JavaScript agrees for integers of absolute value at most 2^53) |
| `JsNumber.BlankIsZero` | frontend/src/components/ChartsWidgetsDashboard.jsx:66 | the empty string and any all-white-space string convert to 0 |
| `JsNumber.PaddingIgnored` | frontend/src/components/ChartsWidgetsDashboard.jsx:66 | white space around a string never changes what `Number` returns |
| `JsNumber.StringToNumber` | frontend/src/components/ChartsWidgetsDashboard.jsx:66 | `Number` applied to a string; its contract is stated by `NumeralRoundTrip`, `BlankIsZero` and `PaddingIgnored` |
| `JsNumber.Negate` | frontend/src/components/ChartsWidgetsDashboard.jsx:66 | a leading minus sign negates a finite value, swaps Infinity and -Infinity, and gives NaN exactly for NaN |
| `JsValue.Or` | frontend/src/components/ChartsWidgetsDashboard.jsx:65-66 | JavaScript's or-operator yields the left operand when it is truthy and the right operand otherwise, and its result is truthy exactly when either operand is |
| `JsValue.Truthy` | frontend/src/components/ChartsWidgetsDashboard.jsx:65-66 | ToBoolean, which decides both `||` fallbacks; the `Or` contract and `NameOrPlaceholder`/`ValueOrZero` state what it decides |
| `JsValue.ToNumber` | frontend/src/components/ChartsWidgetsDashboard.jsx:66 | `Number` keeps a number as it is, turns undefined into NaN, null and false into 0, true into 1, and a string into its StringToNumber value |
| `MetricShaping.NormalizeType` | frontend/src/components/ChartsWidgetsDashboard.jsx:56-58 | `?.` yields undefined exactly for null or undefined; the `trim` call throws exactly for a boolean or number; a string is trimmed and then lower-cased |
| `MetricShaping.FilterByKind` | frontend/src/components/ChartsWidgetsDashboard.jsx:56-58 | a filter succeeds exactly when no row's type makes the callback throw; its result is no longer than the input and holds only rows of its kind |
| `MetricShaping.FilterErrorIsFirstThrow` | frontend/src/components/ChartsWidgetsDashboard.jsx:56-58 | when a filter throws, the TypeError is that of the first row whose type has no `trim` |
| `MetricShaping.FilterKeepsExactlyItsKind` | frontend/src/components/ChartsWidgetsDashboard.jsx:56-58 | a filter keeps every row of its kind as often as it occurs in the input, and no other row |
| `MetricShaping.FilterPreservesOrder` | frontend/src/components/ChartsWidgetsDashboard.jsx:56-58 | a filter's result is a subsequence of the input: order is preserved |
| `MetricShaping.FilterMembership` | frontend/src/components/ChartsWidgetsDashboard.jsx:56-58 | a row is in a group exactly when it is in the input and its trimmed, lower-cased type equals the group's name |
| `MetricShaping.ShapeFailsIff` | frontend/src/components/ChartsWidgetsDashboard.jsx:56-72 | shaping fails exactly when some row's type is a boolean or number, with the exception the first filter throws |
| `MetricShaping.Shape` | frontend/src/components/ChartsWidgetsDashboard.jsx:56-72 | the whole shaping step; its contract is stated by `ShapeFailsIff`, `GroupsAreExact`, `GroupsDisjoint` and `SeriesFollowGroups` |
| `MetricShaping.GroupsAreExact` | frontend/src/components/ChartsWidgetsDashboard.jsx:56-58 | `singleValues`, `timeSeries` and `categories` each hold exactly the rows of their type, with multiplicities and in input order |
| `MetricShaping.GroupsDisjoint` | frontend/src/components/ChartsWidgetsDashboard.jsx:56-58 | no row is in two groups, and a row whose type is missing or unrecognised is in none |
| `MetricShaping.PartitionSize` | frontend/src/components/ChartsWidgetsDashboard.jsx:56-58 | the three groups together hold at most as many rows as the input, and exactly as many when every type is recognised |
| `MetricShaping.NameOrPlaceholder` | frontend/src/components/ChartsWidgetsDashboard.jsx:65 | a point's name is the field when the field is truthy, otherwise `"N/A"`; it is always truthy |
| `MetricShaping.ValueOrZero` | frontend/src/components/ChartsWidgetsDashboard.jsx:66 | a point's value is the numeric coercion unless that is NaN or 0, otherwise 0; it is never NaN |
| `MetricShaping.TimePoint` | frontend/src/components/ChartsWidgetsDashboard.jsx:65-66 | a time-series point's name is `date_event` when that is truthy and `"N/A"` otherwise, so it is always truthy; its value is `ValueOrZero` of `metric_value`: the coerced number, or 0 when that is NaN or 0 |
| `MetricShaping.CategoryPoint` | frontend/src/components/ChartsWidgetsDashboard.jsx:70-71 | a category point's name is `metric_name` when that is truthy and `"N/A"` otherwise, so it is always truthy; its value is `ValueOrZero` of `metric_value`: the coerced number, or 0 when that is NaN or 0 |
| `MetricShaping.TimeSeriesData` | frontend/src/components/ChartsWidgetsDashboard.jsx:64-67 | `timeSeriesData` has one point per time-series row, and point i is the projection of row i |
| `MetricShaping.CategoryData` | frontend/src/components/ChartsWidgetsDashboard.jsx:69-72 | `categoryData` has one point per category row, and point i is the projection of row i |
| `MetricShaping.SeriesFollowGroups` | frontend/src/components/ChartsWidgetsDashboard.jsx:64-72 | each series has the length of its group; point i's name is `date_event` (or `metric_name`) or `"N/A"`, and its value is the coerced `metric_value` or 0, never NaN |
| `MetricShaping.ShapeOfNothing` | frontend/src/components/ChartsWidgetsDashboard.jsx:56-72 | an empty metrics list gives three empty groups and two empty series, not an error |
| `MetricShaping.TypeMatchIgnoresCaseAndPadding` | frontend/src/components/ChartsWidgetsDashboard.jsx:56-58 | a type that equals a group's name up to ASCII case, surrounded by any white space, is classified into that group |
| `MetricShaping.NumeralValue` | frontend/src/components/ChartsWidgetsDashboard.jsx:66 | a `metric_value` holding an integer numeral is charted as that integer, in the exact-real model (JavaScript agrees for integers of absolute value at most 2^53) |
| `MetricShaping.TimeSeriesKeepInputOrder` | frontend/src/components/ChartsWidgetsDashboard.jsx:57-67 | time-series points are not sorted by date: when all rows are time series, the series is their points in input order |
| `MetricShaping.KindIsUnique` | frontend/src/components/ChartsWidgetsDashboard.jsx:56-58 | the three type tests are mutually exclusive, and a row that passes one of them does not crash the filters |
| `MetricShaping.FilterKeepsAll` | frontend/src/components/ChartsWidgetsDashboard.jsx:56-58 | a filter whose rows are all of its kind returns them all, in order |
| `MetricShaping.FilterKeepsNone` | frontend/src/components/ChartsWidgetsDashboard.jsx:56-58 | a filter none of whose rows is of its kind, and none of which crashes, returns an empty list |
| `MetricShaping.OnlySingleValues` | frontend/src/components/ChartsWidgetsDashboard.jsx:56-72 | when every row is a single value, all become cards and both chart series are empty |
| `MetricShaping.SingleValueExample` | frontend/src/components/ChartsWidgetsDashboard.jsx:56-72 | a single row typed `"single_value"` becomes one card and nothing else |
| `MetricShaping.DecimalValueExample` | frontend/src/components/ChartsWidgetsDashboard.jsx:66 | the `metric_value` string `"12.5"` is charted as 12.5 |
| `MetricShaping.NonNumericValueExample` | frontend/src/components/ChartsWidgetsDashboard.jsx:66 | the `metric_value` string `"abc"` coerces to NaN and is charted as 0 |
| `MetricShaping.NullValueExample` | frontend/src/components/ChartsWidgetsDashboard.jsx:66 | a `null` `metric_value` converts to 0 and is charted as 0 |
| `DashboardState.Initial` | frontend/src/components/ChartsWidgetsDashboard.jsx:7-9 | the component starts with no metrics, loading, and no error |
| `DashboardState.Apply` | frontend/src/components/ChartsWidgetsDashboard.jsx:30-46 | after a fetch, loading is false; metrics are replaced only when `success` is truthy and `data` is an array; error is set only when an exception was thrown |
| `DashboardState.ApplyAll` | frontend/src/components/ChartsWidgetsDashboard.jsx:30-46 | the state after a run of fetches; its contract is stated by `NeverLoadingAgain`, `RejectedKeepMetrics`, `LastAcceptedWins` and `ErrorIsSticky` |
| `DashboardState.RenderPriority` | frontend/src/components/ChartsWidgetsDashboard.jsx:56-76 | a crash in shaping comes first and carries the TypeError of the first row whose type has no `trim`; then loading; then the error screen, which shows the state's `error`; then "no metrics" for an empty list; then the charts built from the shaped metrics |
| `DashboardState.Render` | frontend/src/components/ChartsWidgetsDashboard.jsx:56-76 | which screen the component returns; its contract is stated by `RenderPriority` |
| `DashboardState.InitialShowsLoading` | frontend/src/components/ChartsWidgetsDashboard.jsx:7-9 | before any fetch finishes, the loading screen is shown |
| `DashboardState.NeverLoadingAgain` | frontend/src/components/ChartsWidgetsDashboard.jsx:45-46 | after at least one finished fetch, the loading screen never returns |
| `DashboardState.RejectedKeepMetrics` | frontend/src/components/ChartsWidgetsDashboard.jsx:30-38 | responses that are not accepted, and thrown errors, leave the metrics unchanged |
| `DashboardState.LastAcceptedWins` | frontend/src/components/ChartsWidgetsDashboard.jsx:30-34 | the metrics shown are the data of the last accepted response |
| `DashboardState.ErrorIsSticky` | frontend/src/components/ChartsWidgetsDashboard.jsx:40-46 | once error is truthy, no later fetch whose exception carries a non-empty message clears it (every throw site of the component yields such a message), and the screen is the error (or a shaping crash) from then on |
| `DashboardState.Dashboard.constructor` | frontend/src/components/ChartsWidgetsDashboard.jsx:7-9 | the three fields start in the initial state |
| `DashboardState.Dashboard.OnOutcome` | frontend/src/components/ChartsWidgetsDashboard.jsx:30-46 | the fields change in place exactly as `Apply` says: `setMetrics` on an accepted response, `setError` in `catch`, `setLoading(false)` in `finally` |

## Left out

- `backend/server.js` is not part of this model. It holds Express routing, environment loading and Supabase CRUD calls whose behaviour lives in a library, and it has no metrics endpoint, so it has no fallback policy to model.
- The `fetch` call, the URL built from `client_code`, the `response.ok` check and `response.json()` (lines 20-27) are network I/O. They become the `FetchOutcome` input: any exception inside the `try` is `Threw(message)`, including a `null` body whose `.success` access throws.
- The message text of those exceptions (for example the HTTP status message of line 24) is an input value, not computed.
- The `isMounted` flag and the effect cleanup (lines 17 and 51) decide whether the outcome of a stale or unmounted fetch is dropped. That is about React scheduling; `ApplyAll` applies only the outcomes that do reach the state.
- `console.log`/`console.warn`/`console.error` (lines 11-14, 20, 28, 31, 35, 37, 42, 54, 60-62) and the JSX and recharts markup with its `try`/`catch` (lines 78-114) are left out. The `Content` screen carries the shaped data the markup draws.
- Field values that are arrays or objects, and elements of `data` that are not objects (a `null` element makes line 54 throw), are left out. `Value` is a JSON scalar and `Row` a record.
- `JsText.ToLowerAscii` lowers only ASCII letters. Full Unicode case mapping is not modelled. For the comparison against the three ASCII type names the result is the same, for two reasons. The only non-ASCII characters whose lower-case form contains an ASCII letter are U+0130 (`İ`) and the Kelvin sign U+212A. U+0130 lower-cases to `i` followed by U+0307, and that combining dot remains, so the result cannot equal a type name. The Kelvin sign becomes `k`, which no type name contains.
- `JsNumber.StringToNumber` keeps finite values as exact reals. It does not round to IEEE 754 doubles, overflow to Infinity (`"1e400"`) or underflow to 0 (`"1e-400"`), and it does not distinguish `-0` from `+0`. None of these changes which rows go into which group. They do change the charted value of every numeral that is not exactly a double: `"9007199254740993"` is charted as 9007199254740992 in JavaScript, while the model keeps 9007199254740993. Integer numerals of absolute value at most 2^53 agree with JavaScript.
- `JsValue.ToNumber` covers the values a JSON row field can hold. BigInt and Symbol are not among them.
