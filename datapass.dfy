/** The live-stream callback `datastream` of the `DataPass` component: it
    hands every frame to the canvas, when there is one, and then checks the
    frame's counter (element 0) against the one expected after the previous
    frame, warning about lost samples. Its only state is `previousCounter`. */
module DataPass {
  import opened Wrappers

  /** The value of `previousCounter`: `null` before the first frame,
      `undefined` after a frame that has no element 0, otherwise the counter
      of the last frame. */
  datatype Previous = Null | Undefined | Seen(counter: int)

  /** What a call of `datastream` does that can be observed: the frame handed
      to `canvasRef.current.updateData`, and the loss warning, which carries
      the previous counter and the current one (`None` for `undefined`). */
  datatype Event = Rendered(frame: seq<int>) | LossDetected(previous: Option<int>, current: Option<int>)

  /** JavaScript's `%` on integers: the remainder takes the sign of the
      dividend. */
  function JsRem(a: int, m: int): (r: int)
    requires m > 0
    ensures a >= 0 ==> r == a % m
    ensures a < 0 ==> -m < r <= 0
  {
    if a >= 0 then a % m else -((-a) % m)
  }

  /** `(previousCounter + 1) % 256`: for a counter in 0..255 the next one
      modulo 256, so 255 is followed by 0. */
  function ExpectedCounter(previous: int): (e: int)
    ensures 0 <= previous < 256 ==> 0 <= e < 256 && e == (previous + 1) % 256
    ensures previous == 255 ==> e == 0
  {
    JsRem(previous + 1, 256)
  }

  /** `data[0]`, which is `undefined` for an empty frame. */
  function CounterOf(frame: seq<int>): Option<int>
  {
    if |frame| > 0 then Some(frame[0]) else None
  }

  /** `previousCounter = data[0]`. */
  function After(frame: seq<int>): (p: Previous)
    ensures p != Null
  {
    if |frame| > 0 then Seen(frame[0]) else Undefined
  }

  /** The loss check of one frame. There is none before the first frame; an
      `undefined` previous counter makes the expected value `NaN`, which no
      counter equals. */
  function Check(previous: Previous, frame: seq<int>): (warning: Option<Event>)
    ensures previous == Null ==> warning == None
    ensures previous == Undefined ==> warning == Some(LossDetected(None, CounterOf(frame)))
    ensures warning.Some? ==> warning.value.LossDetected? && warning.value.current == CounterOf(frame)
    ensures previous.Seen? && warning.Some? ==> warning.value.previous == Some(previous.counter)
    ensures previous.Seen? ==>
              (warning.None? <==> CounterOf(frame) == Some(ExpectedCounter(previous.counter)))
  {
    match previous
    case Null => None
    case Undefined => Some(LossDetected(None, CounterOf(frame)))
    case Seen(p) =>
      if CounterOf(frame) == Some(ExpectedCounter(p)) then None
      else Some(LossDetected(Some(p), CounterOf(frame)))
  }

  function Warnings1(w: Option<Event>): seq<Event>
  {
    if w.Some? then [w.value] else []
  }

  /** The warnings a stream of frames draws, one call after another. */
  function Warnings(previous: Previous, frames: seq<seq<int>>): seq<Event>
    decreases |frames|
  {
    if |frames| == 0 then []
    else Warnings1(Check(previous, frames[0])) + Warnings(After(frames[0]), frames[1..])
  }

  /** A stream whose frames all carry a counter in 0..255. */
  predicate WellFormed(frames: seq<seq<int>>)
  {
    forall i | 0 <= i < |frames| :: |frames[i]| > 0 && 0 <= frames[i][0] < 256
  }

  /** Frame `i` breaks the sequence: its counter is not one more, modulo
      256, than the counter of the frame before it. */
  predicate IsGap(frames: seq<seq<int>>, i: int)
    requires WellFormed(frames)
    requires 0 < i < |frames|
  {
    frames[i][0] != (frames[i - 1][0] + 1) % 256
  }

  /** The reference behaviour: one report per gap, in stream order, carrying
      the counters on both sides of it. */
  function GapReports(frames: seq<seq<int>>): seq<Event>
    requires WellFormed(frames)
    decreases |frames|
  {
    if |frames| <= 1 then []
    else
      var n := |frames|;
      GapReports(frames[..n - 1]) +
        (if IsGap(frames, n - 1) then [LossDetected(Some(frames[n - 2][0]), Some(frames[n - 1][0]))]
         else [])
  }

  /** Running the detector over `frames` and then one more frame. */
  lemma {:induction false} WarningsSnoc(previous: Previous, frames: seq<seq<int>>, frame: seq<int>)
    requires |frames| > 0
    ensures Warnings(previous, frames + [frame])
            == Warnings(previous, frames) + Warnings1(Check(After(frames[|frames| - 1]), frame))
    decreases |frames|
  {
    var all := frames + [frame];
    assert all[0] == frames[0];
    if |frames| == 1 {
      assert all[1..] == [frame] && [frame][1..] == [] && frames[1..] == [];
      assert Warnings(After(frames[0]), [frame]) == Warnings1(Check(After(frames[0]), frame));
    } else {
      assert all[1..] == frames[1..] + [frame];
      WarningsSnoc(After(frames[0]), frames[1..], frame);
    }
  }

  /** From a fresh state, the detector reports exactly the gaps of a stream,
      one warning per gap with the previous and the current counter, and
      nothing for the first frame. */
  lemma {:induction false} WarningsAreGaps(frames: seq<seq<int>>)
    requires WellFormed(frames)
    ensures Warnings(Null, frames) == GapReports(frames)
    decreases |frames|
  {
    var n := |frames|;
    if n == 1 {
      assert frames[1..] == [];
    } else if n > 1 {
      var init, last := frames[..n - 1], frames[n - 1];
      assert init + [last] == frames;
      assert WellFormed(init);
      WarningsAreGaps(init);
      WarningsSnoc(Null, init, last);
      var p := frames[n - 2][0];
      assert After(init[n - 2]) == Seen(p);
      var w := Check(Seen(p), last);
      assert w.None? <==> !IsGap(frames, n - 1);
      assert Warnings1(w) == if IsGap(frames, n - 1) then [LossDetected(Some(p), Some(last[0]))] else [];
    }
  }

  /** A stream whose counters go up by one modulo 256 draws no warning. */
  lemma {:induction false} ConsecutiveCountersNoWarning(frames: seq<seq<int>>)
    requires WellFormed(frames)
    requires forall i | 0 < i < |frames| :: frames[i][0] == (frames[i - 1][0] + 1) % 256
    ensures Warnings(Null, frames) == []
    decreases |frames|
  {
    WarningsAreGaps(frames);
    if |frames| > 1 {
      var init := frames[..|frames| - 1];
      assert forall i | 0 <= i < |init| :: init[i] == frames[i];
      ConsecutiveCountersNoWarning(init);
      WarningsAreGaps(init);
    }
  }

  /** Counters 254, 255, 0, 1 wrap around without a warning. */
  lemma WraparoundNoWarning()
    ensures Warnings(Null, [[254], [255], [0], [1]]) == []
  {
    ConsecutiveCountersNoWarning([[254], [255], [0], [1]]);
  }

  /** The component's loss detector: one field, updated on every frame. */
  class LossDetector {
    var previousCounter: Previous

    constructor ()
      ensures previousCounter == Null
    {
      previousCounter := Null;
    }

    /** `datastream(data)`, with `canvasPresent` telling whether
        `canvasRef.current` is set. The frame is rendered unchanged and
        before the check, only when there is a canvas; the check runs either
        way, and the counter is recorded whether or not a loss was seen. */
    method Datastream(data: seq<int>, canvasPresent: bool) returns (events: seq<Event>)
      modifies this
      ensures previousCounter == After(data)
      ensures events == (if canvasPresent then [Rendered(data)] else [])
                        + Warnings1(Check(old(previousCounter), data))
    {
      events := [];
      if canvasPresent {
        events := events + [Rendered(data)];
      }
      if previousCounter != Null {
        var current := if |data| > 0 then Some(data[0]) else None;
        if previousCounter.Seen? {
          var expectedCounter := JsRem(previousCounter.counter + 1, 256);
          if current != Some(expectedCounter) {
            events := events + [LossDetected(Some(previousCounter.counter), current)];
          }
        } else {
          events := events + [LossDetected(None, current)];
        }
      }
      previousCounter := if |data| > 0 then Seen(data[0]) else Undefined;
    }
  }
}
