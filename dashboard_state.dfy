/**
 * The state of the charts dashboard component (`metrics`, `loading`,
 * `error`), how one finished fetch updates it, and which of the four screens
 * the component then renders.
 */
module DashboardState {
  import opened Optional
  import opened JsValue
  import opened MetricShaping

  /**
   * How one run of `fetchMetrics` ended. `Threw` is any exception inside its
   * `try` (the fetch rejected, the status was not ok, the body was not JSON,
   * the body was `null`), carrying the exception's `message` property.
   * `Responded` is a parsed body: its `success` property and, when its `data`
   * property is an array, that array.
   */
  datatype FetchOutcome = Threw(message: Value) | Responded(success: Value, data: Option<seq<Row>>)

  /** `result.success && Array.isArray(result.data)`: the response replaces the metrics. */
  predicate Accepted(o: FetchOutcome) {
    o.Responded? && Truthy(o.success) && o.data.Some?
  }

  /** The component's three state variables. */
  datatype ViewState = ViewState(metrics: seq<Row>, loading: bool, error: Value)

  /** `useState([])`, `useState(true)`, `useState(null)`. */
  function Initial(): (s: ViewState)
    ensures s.metrics == [] && s.loading && !Truthy(s.error)
  {
    ViewState([], true, Null)
  }

  /**
   * The state after one fetch outcome: the metrics change only to an accepted
   * payload, the error only to a thrown exception's message, and loading is
   * always cleared by the `finally`.
   */
  function Apply(s: ViewState, o: FetchOutcome): (t: ViewState)
    ensures !t.loading
    ensures Accepted(o) ==> t.metrics == o.data.value
    ensures !Accepted(o) ==> t.metrics == s.metrics
    ensures o.Threw? ==> t.error == o.message
    ensures !o.Threw? ==> t.error == s.error
  {
    match o
    case Threw(message) => s.(error := message, loading := false)
    case Responded(success, data) =>
      if Truthy(success) && data.Some? then s.(metrics := data.value, loading := false)
      else s.(loading := false)
  }

  /** The outcomes of successive fetches (one per `client_code` value), applied in order. */
  function ApplyAll(s: ViewState, os: seq<FetchOutcome>): ViewState
    decreases |os|
  {
    if os == [] then s else ApplyAll(Apply(s, os[0]), os[1..])
  }

  /** What the component returns. `Crashed` is the TypeError the filters throw while rendering. */
  datatype Screen = Crashed(error: ShapeError) | Loading | Failed(message: Value) | NoMetrics | Content(shaped: Shaped)

  /**
   * The render: the shaping runs first (it precedes the early returns), then
   * loading wins over error, error over an empty list, and an empty list over
   * the charts.
   */
  function Render(s: ViewState): Screen {
    match Shape(s.metrics)
    case Err(e) => Crashed(e)
    case Ok(shaped) =>
      if s.loading then Loading
      else if Truthy(s.error) then Failed(s.error)
      else if |s.metrics| == 0 then NoMetrics
      else Content(shaped)
  }

  // ---------------------------------------------------------------------------
  // Properties

  /** The render decision, one screen at a time, in priority order. */
  lemma RenderPriority(s: ViewState)
    ensures Render(s).Crashed? <==> !NoneThrows(s.metrics)
    ensures Render(s).Loading? <==> NoneThrows(s.metrics) && s.loading
    ensures Render(s).Failed? <==> NoneThrows(s.metrics) && !s.loading && Truthy(s.error)
    ensures Render(s).NoMetrics? <==> !s.loading && !Truthy(s.error) && s.metrics == []
    ensures Render(s).Content? <==> NoneThrows(s.metrics) && !s.loading && !Truthy(s.error) && s.metrics != []
    ensures Render(s).Content? ==> Render(s).shaped == Shape(s.metrics).value
    ensures Render(s).Failed? ==> Render(s).message == s.error
    ensures Render(s).Crashed? ==> Shape(s.metrics).Err? && Render(s).error == Shape(s.metrics).error
  {
    ShapeFailsIff(s.metrics);
    ShapeOfNothing();
  }

  /** Before any fetch has finished, the component shows the loading screen. */
  lemma InitialShowsLoading()
    ensures Render(Initial()) == Loading
  {
    ShapeOfNothing();
  }

  /** Appending one more outcome applies it to the state reached so far. */
  lemma {:induction false} ApplyAllSnoc(s: ViewState, os: seq<FetchOutcome>, o: FetchOutcome)
    ensures ApplyAll(s, os + [o]) == Apply(ApplyAll(s, os), o)
    decreases |os|
  {
    if os == [] {
      assert [] + [o] == [o];
    } else {
      assert (os + [o])[1..] == os[1..] + [o];
      ApplyAllSnoc(Apply(s, os[0]), os[1..], o);
    }
  }

  /** After at least one finished fetch the component never shows the loading screen again. */
  lemma {:induction false} NeverLoadingAgain(s: ViewState, os: seq<FetchOutcome>)
    requires os != []
    ensures !ApplyAll(s, os).loading
    ensures Render(ApplyAll(s, os)) != Loading
  {
    var last := os[|os| - 1];
    assert os == os[..|os| - 1] + [last];
    ApplyAllSnoc(s, os[..|os| - 1], last);
  }

  /** Outcomes that are not accepted leave the metrics as they were. */
  lemma {:induction false} RejectedKeepMetrics(s: ViewState, os: seq<FetchOutcome>)
    requires forall i :: 0 <= i < |os| ==> !Accepted(os[i])
    ensures ApplyAll(s, os).metrics == s.metrics
    decreases |os|
  {
    if os != [] {
      RejectedKeepMetrics(Apply(s, os[0]), os[1..]);
    }
  }

  /**
   * The metrics shown are those of the last accepted response; later outcomes
   * that are not accepted (thrown errors included) do not touch them.
   */
  lemma {:induction false} LastAcceptedWins(s: ViewState, os: seq<FetchOutcome>, j: nat)
    requires j < |os| && Accepted(os[j])
    requires forall i :: j < i < |os| ==> !Accepted(os[i])
    ensures ApplyAll(s, os).metrics == os[j].data.value
  {
    ApplyAllSplit(s, os[..j + 1], os[j + 1..]);
    assert os[..j + 1] + os[j + 1..] == os;
    assert os[..j + 1] == os[..j] + [os[j]];
    ApplyAllSnoc(s, os[..j], os[j]);
    RejectedKeepMetrics(ApplyAll(s, os[..j + 1]), os[j + 1..]);
  }

  /** Applying two runs of outcomes one after the other is applying their concatenation. */
  lemma {:induction false} ApplyAllSplit(s: ViewState, xs: seq<FetchOutcome>, ys: seq<FetchOutcome>)
    ensures ApplyAll(s, xs + ys) == ApplyAll(ApplyAll(s, xs), ys)
    decreases |xs|
  {
    if xs == [] {
      assert xs + ys == ys;
    } else {
      assert (xs + ys)[1..] == xs[1..] + ys;
      ApplyAllSplit(Apply(s, xs[0]), xs[1..], ys);
    }
  }

  /**
   * Nothing ever clears `error`: once it is truthy, later fetches that succeed
   * (or fail with a truthy message) leave an error on screen, never the charts.
   */
  lemma {:induction false} ErrorIsSticky(s: ViewState, os: seq<FetchOutcome>)
    requires Truthy(s.error)
    requires forall i :: 0 <= i < |os| ==> os[i].Threw? ==> Truthy(os[i].message)
    ensures Truthy(ApplyAll(s, os).error)
    ensures os != [] ==> Render(ApplyAll(s, os)).Failed? || Render(ApplyAll(s, os)).Crashed?
    decreases |os|
  {
    if os != [] {
      ErrorIsSticky(Apply(s, os[0]), os[1..]);
      NeverLoadingAgain(s, os);
    }
  }

  /**
   * The component itself: the three state variables as fields, updated in
   * place when a fetch finishes.
   */
  class Dashboard {
    var metrics: seq<Row>
    var loading: bool
    var error: Value

    function State(): ViewState
      reads this
    {
      ViewState(metrics, loading, error)
    }

    constructor ()
      ensures State() == Initial()
    {
      metrics := [];
      loading := true;
      error := Null;
    }

    /**
     * The body of `fetchMetrics` after its `await`s: `setMetrics` on an
     * accepted response, `setError` in the `catch`, `setLoading(false)` in
     * the `finally`.
     */
    method OnOutcome(o: FetchOutcome)
      modifies this
      ensures State() == Apply(old(State()), o)
      ensures !loading
      ensures metrics == (if Accepted(o) then o.data.value else old(metrics))
      ensures error == (if o.Threw? then o.message else old(error))
    {
      match o {
        case Threw(message) =>
          error := message;
        case Responded(success, data) =>
          if Truthy(success) && data.Some? {
            metrics := data.value;
          }
      }
      loading := false;
    }
  }
}
