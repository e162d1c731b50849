/**
 * `runUmapAsync` of src/utils/umap.js: it creates a UMAP object, calls
 * `initializeFit(data)` once, then runs `stepUMAP`, which while
 * `currentStep < epochs` performs one `step()`, increments `currentStep`,
 * reports `(currentStep, epochs)` to the progress callback when there is
 * one and schedules itself again; once the counter reaches `epochs` the
 * promise resolves with `getEmbedding()`.
 *
 * The numerics of the UMAP library are not modelled: the embedding that
 * `initializeFit` produces is `fit(data)` and the one `step()` produces from
 * the current embedding is `advance(current)`, for functions `fit` and
 * `advance` the caller supplies. The frame-by-frame scheduling becomes a
 * loop. The UMAP object logs the calls made on it; `runUmapAsync` returns
 * a trace of those calls interleaved with the progress reports.
 */
module UmapStepper {

  /** One observable call: on the UMAP object, or to the progress callback. */
  datatype Event =
    | InitializeFit
    | Step
    | Progress(currentStep: int, totalSteps: int)
    | GetEmbedding

  /**
   * The UMAP object: its current embedding is the only state the model
   * keeps; `calls` logs the calls made on it, in order.
   */
  class Umap {
    var embedding: seq<seq<real>>
    ghost var calls: seq<Event>

    constructor ()
      ensures embedding == [] && calls == []
    {
      embedding := [];
      calls := [];
    }

    method InitializeFit(data: seq<seq<real>>, fit: seq<seq<real>> -> seq<seq<real>>)
      modifies this
      ensures embedding == fit(data)
      ensures calls == old(calls) + [Event.InitializeFit]
    {
      embedding := fit(data);
      calls := calls + [Event.InitializeFit];
    }

    method Step(advance: seq<seq<real>> -> seq<seq<real>>)
      modifies this
      ensures embedding == advance(old(embedding))
      ensures calls == old(calls) + [Event.Step]
    {
      embedding := advance(embedding);
      calls := calls + [Event.Step];
    }

    /** Reads out the current embedding without changing it. */
    method GetEmbedding() returns (r: seq<seq<real>>)
      modifies this
      ensures r == embedding && embedding == old(embedding)
      ensures calls == old(calls) + [Event.GetEmbedding]
    {
      r := embedding;
      calls := calls + [Event.GetEmbedding];
    }
  }

  /** The events of a trace that are calls on the UMAP object: all but the progress reports. */
  function UmapCalls(t: seq<Event>): seq<Event>
    decreases |t|
  {
    if |t| == 0 then []
    else UmapCalls(t[..|t| - 1]) + (if t[|t| - 1].Progress? then [] else [t[|t| - 1]])
  }

  function Max0(n: int): (r: nat)
    ensures n <= 0 ==> r == 0
    ensures 0 <= n ==> r == n
  {
    if n <= 0 then 0 else n
  }

  /** The embedding after `n` steps from `start`. */
  function Iterate(advance: seq<seq<real>> -> seq<seq<real>>, start: seq<seq<real>>, n: nat): seq<seq<real>>
    decreases n
  {
    if n == 0 then start else advance(Iterate(advance, start, n - 1))
  }

  /** Round `n` of `stepUMAP`: a step, then the report `(n, epochs)` if there is a callback. */
  function Round(n: nat, epochs: int, hasCallback: bool): seq<Event> {
    if hasCallback then [Step, Progress(n, epochs)] else [Step]
  }

  /** The first `n` rounds of `stepUMAP`. */
  function Rounds(n: nat, epochs: int, hasCallback: bool): seq<Event>
    decreases n
  {
    if n == 0 then [] else Rounds(n - 1, epochs, hasCallback) + Round(n, epochs, hasCallback)
  }

  /** Every call `runUmapAsync` makes, in order. */
  function Protocol(epochs: int, hasCallback: bool): seq<Event> {
    [InitializeFit] + Rounds(Max0(epochs), epochs, hasCallback) + [GetEmbedding]
  }

  /**
   * `runUmapAsync(data, dimensions, nNeighbors, minDist, epochs, onProgress)`;
   * `hasCallback` says whether `onProgress` was given. The result is the
   * embedding after `max(epochs, 0)` steps.
   */
  method RunUmapAsync(data: seq<seq<real>>, epochs: int, hasCallback: bool,
                      fit: seq<seq<real>> -> seq<seq<real>>, advance: seq<seq<real>> -> seq<seq<real>>)
    returns (result: seq<seq<real>>, trace: seq<Event>)
    ensures result == Iterate(advance, fit(data), Max0(epochs))
    ensures trace == Protocol(epochs, hasCallback)
  {
    var umap := new Umap();
    umap.InitializeFit(data, fit);
    UmapCallsSnoc([], InitializeFit);
    trace := [InitializeFit];
    var currentStep := 0;
    while currentStep < epochs
      invariant 0 <= currentStep <= Max0(epochs)
      invariant umap.embedding == Iterate(advance, fit(data), currentStep)
      invariant trace == [InitializeFit] + Rounds(currentStep, epochs, hasCallback)
      invariant umap.calls == UmapCalls(trace)
      decreases epochs - currentStep
    {
      trace := StepRound(umap, advance, trace, currentStep, epochs, hasCallback);
      currentStep := currentStep + 1;
    }
    assert currentStep == Max0(epochs);
    result := umap.GetEmbedding();
    UmapCallsSnoc(trace, GetEmbedding);
    trace := trace + [GetEmbedding];
  }

  /**
   * One round of `stepUMAP` while `currentStep < epochs`: a `step()`, then
   * the report `(currentStep + 1, epochs)` when there is a callback.
   */
  method StepRound(umap: Umap, advance: seq<seq<real>> -> seq<seq<real>>, trace: seq<Event>,
                   currentStep: nat, epochs: int, hasCallback: bool) returns (next: seq<Event>)
    requires umap.calls == UmapCalls(trace)
    modifies umap
    ensures umap.embedding == advance(old(umap.embedding))
    ensures next == trace + Round(currentStep + 1, epochs, hasCallback)
    ensures trace == [InitializeFit] + Rounds(currentStep, epochs, hasCallback) ==>
      next == [InitializeFit] + Rounds(currentStep + 1, epochs, hasCallback)
    ensures umap.calls == UmapCalls(next)
  {
    umap.Step(advance);
    UmapCallsSnoc(trace, Step);
    next := trace + [Step];
    if hasCallback {
      UmapCallsSnoc(next, Progress(currentStep + 1, epochs));
      next := next + [Progress(currentStep + 1, epochs)];
    }
  }

  lemma UmapCallsSnoc(t: seq<Event>, x: Event)
    ensures UmapCalls(t + [x]) == UmapCalls(t) + (if x.Progress? then [] else [x])
  {
    assert (t + [x])[..|t|] == t;
  }

  // ---------------------------------------------------------------------
  // Properties of the protocol

  /** The progress reports of a trace, in order. */
  function ProgressReports(t: seq<Event>): (r: seq<Event>)
    ensures |r| <= |t|
    ensures forall i :: 0 <= i < |r| ==> r[i].Progress?
    decreases |t|
  {
    if |t| == 0 then []
    else ProgressReports(t[..|t| - 1]) + (if t[|t| - 1].Progress? then [t[|t| - 1]] else [])
  }

  lemma {:induction false} ProgressReportsAppend(a: seq<Event>, b: seq<Event>)
    ensures ProgressReports(a + b) == ProgressReports(a) + ProgressReports(b)
    decreases |b|
  {
    if |b| == 0 {
      assert a + b == a;
    } else {
      var n := |b| - 1;
      assert (a + b)[..|a + b| - 1] == a + b[..n];
      ProgressReportsAppend(a, b[..n]);
    }
  }

  lemma {:induction false} RoundsCounts(n: nat, epochs: int, hasCallback: bool)
    ensures multiset(Rounds(n, epochs, hasCallback))[Step] == n
    ensures multiset(Rounds(n, epochs, hasCallback))[InitializeFit] == 0
    ensures multiset(Rounds(n, epochs, hasCallback))[GetEmbedding] == 0
    decreases n
  {
    if n != 0 {
      RoundsCounts(n - 1, epochs, hasCallback);
      var round := Round(n, epochs, hasCallback);
      assert multiset(Rounds(n, epochs, hasCallback))
          == multiset(Rounds(n - 1, epochs, hasCallback)) + multiset(round);
      assert multiset(round)[Step] == 1 && multiset(round)[InitializeFit] == 0 && multiset(round)[GetEmbedding] == 0;
    }
  }

  /** A one-event trace reports itself exactly when it is a progress report. */
  lemma SingleReport(x: Event)
    ensures ProgressReports([x]) == if x.Progress? then [x] else []
  {
    assert [x][..0] == [];
  }

  /** The progress reports `(1, epochs), …, (n, epochs)`. */
  function Reports(n: nat, epochs: int): (r: seq<Event>)
    ensures |r| == n
    ensures forall i :: 0 <= i < n ==> r[i] == Progress(i + 1, epochs)
    decreases n
  {
    if n == 0 then [] else Reports(n - 1, epochs) + [Progress(n, epochs)]
  }

  /** Round `n` reports `(n, epochs)` when there is a callback, and nothing otherwise. */
  lemma RoundProgress(n: nat, epochs: int, hasCallback: bool)
    ensures ProgressReports(Round(n, epochs, hasCallback)) == if hasCallback then [Progress(n, epochs)] else []
  {
    SingleReport(Step);
    if hasCallback {
      assert Round(n, epochs, hasCallback)[..1] == [Step];
    }
  }

  lemma {:induction false} RoundsProgress(n: nat, epochs: int, hasCallback: bool)
    ensures ProgressReports(Rounds(n, epochs, hasCallback)) == if hasCallback then Reports(n, epochs) else []
    decreases n
  {
    if n != 0 {
      var prev := Rounds(n - 1, epochs, hasCallback);
      var round := Round(n, epochs, hasCallback);
      assert Rounds(n, epochs, hasCallback) == prev + round;
      RoundsProgress(n - 1, epochs, hasCallback);
      RoundProgress(n, epochs, hasCallback);
      ProgressReportsAppend(prev, round);
    }
  }

  /**
   * `initializeFit` is the first call and happens once; `step()` happens
   * exactly `max(epochs, 0)` times; `getEmbedding()` is the last call and
   * happens once.
   */
  lemma ProtocolCallCounts(epochs: int, hasCallback: bool)
    ensures Protocol(epochs, hasCallback)[0] == InitializeFit
    ensures Protocol(epochs, hasCallback)[|Protocol(epochs, hasCallback)| - 1] == GetEmbedding
    ensures multiset(Protocol(epochs, hasCallback))[InitializeFit] == 1
    ensures multiset(Protocol(epochs, hasCallback))[GetEmbedding] == 1
    ensures multiset(Protocol(epochs, hasCallback))[Step] == Max0(epochs)
  {
    RoundsCounts(Max0(epochs), epochs, hasCallback);
  }

  /**
   * The progress callback receives `(1, epochs), (2, epochs), …,
   * (epochs, epochs)` in that order, and is never called without a callback.
   */
  lemma ProtocolProgress(epochs: int, hasCallback: bool)
    ensures ProgressReports(Protocol(epochs, hasCallback))
         == if hasCallback then Reports(Max0(epochs), epochs) else []
  {
    var n := Max0(epochs);
    RoundsProgress(n, epochs, hasCallback);
    ProgressReportsAppend([InitializeFit], Rounds(n, epochs, hasCallback));
    ProgressReportsAppend([InitializeFit] + Rounds(n, epochs, hasCallback), [GetEmbedding]);
    SingleReport(InitializeFit);
    SingleReport(GetEmbedding);
  }

  /** Every progress report carries a step count between 1 and `epochs`. */
  lemma ProgressWithinBounds(epochs: int, hasCallback: bool)
    ensures forall e :: e in Protocol(epochs, hasCallback) && e.Progress? ==>
      1 <= e.currentStep <= e.totalSteps == epochs
  {
    ProtocolProgress(epochs, hasCallback);
    forall e | e in Protocol(epochs, hasCallback) && e.Progress?
      ensures 1 <= e.currentStep <= e.totalSteps == epochs
    {
      ProgressReportsContain(Protocol(epochs, hasCallback), e);
    }
  }

  lemma {:induction false} ProgressReportsContain(t: seq<Event>, e: Event)
    requires e in t && e.Progress?
    ensures e in ProgressReports(t)
    decreases |t|
  {
    var n := |t| - 1;
    if t[n] != e {
      assert t == t[..n] + [t[n]];
      ProgressReportsContain(t[..n], e);
    }
  }

  /** With `epochs <= 0` the promise resolves at once: no step, no progress report, the fitted embedding. */
  lemma NoEpochs(data: seq<seq<real>>, epochs: int, hasCallback: bool, fit: seq<seq<real>> -> seq<seq<real>>,
                 advance: seq<seq<real>> -> seq<seq<real>>)
    requires epochs <= 0
    ensures Protocol(epochs, hasCallback) == [InitializeFit, GetEmbedding]
    ensures Iterate(advance, fit(data), Max0(epochs)) == fit(data)
  {
  }
}
