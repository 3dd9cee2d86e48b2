/**
 * `FrameBuffer`: a bounded window of camera frames that keeps every
 * `frame_interval`-th frame it is given.
 */
module Framebuffer {
  import opened Wrappers
  import opened Bounded

  const NotReady := "FrameBuffer is not ready"

  /** The frames kept from `inputs` when the counter stood at `c0` before the first of them:
      those whose 1-based number `c0 + i + 1` is a multiple of `k`, in their order. */
  function Decimated<F>(inputs: seq<F>, c0: int, k: int): (r: seq<F>)
    requires k != 0
    ensures |r| <= |inputs|
  {
    if inputs == [] then []
    else
      var init := Decimated(inputs[..|inputs| - 1], c0, k);
      if (c0 + |inputs|) % k == 0 then init + [inputs[|inputs| - 1]] else init
  }

  /** One `add(frame)` on the frames and counter of a buffer with bounds `window` and `k`. */
  function AddStep<F>(frames: seq<F>, counter: int, frame: F, window: nat, k: int): (seq<F>, int)
    requires |frames| <= window && k != 0
  {
    var c := counter + 1;
    (if c % k == 0 then Push(frames, frame, window) else frames, c)
  }

  /** A series of `add` calls. */
  function AddAll<F>(frames: seq<F>, counter: int, inputs: seq<F>, window: nat, k: int): (r: (seq<F>, int))
    requires |frames| <= window && k != 0
    ensures |r.0| <= window
  {
    if inputs == [] then (frames, counter)
    else
      var prev := AddAll(frames, counter, inputs[..|inputs| - 1], window, k);
      PushKeepsNewest(prev.0, inputs[|inputs| - 1], window);
      AddStep(prev.0, prev.1, inputs[|inputs| - 1], window, k)
  }

  /** After any series of adds the counter has grown by their number, and the buffer holds the
      newest `window` of the frames whose number is a multiple of the interval. */
  lemma {:induction false} AddAllKeepsNewestDecimated<F>(frames: seq<F>, counter: int, inputs: seq<F>, window: nat, k: int)
    requires |frames| <= window && k != 0
    ensures AddAll(frames, counter, inputs, window, k).1 == counter + |inputs|
    ensures AddAll(frames, counter, inputs, window, k).0 == LastN(frames + Decimated(inputs, counter, k), window)
  {
    if inputs != [] {
      var init, x := inputs[..|inputs| - 1], inputs[|inputs| - 1];
      AddAllKeepsNewestDecimated(frames, counter, init, window, k);
      var prev := AddAll(frames, counter, init, window, k);
      var d := Decimated(init, counter, k);
      if (counter + |inputs|) % k == 0 {
        assert Decimated(inputs, counter, k) == d + [x];
        assert AddAll(frames, counter, inputs, window, k).0 == Push(prev.0, x, window);
        KeptStep(frames, d, prev.0, x, window);
      } else {
        assert Decimated(inputs, counter, k) == d;
      }
    } else {
      assert frames + [] == frames;
    }
  }

  lemma KeptStep<F>(frames: seq<F>, d: seq<F>, kept: seq<F>, x: F, window: nat)
    requires kept == LastN(frames + d, window)
    ensures Push(kept, x, window) == LastN(frames + (d + [x]), window)
  {
    PushKeepsNewest(kept, x, window);
    LastNAppend(frames + d, [x], window);
    assert frames + d + [x] == frames + (d + [x]);
  }

  /** Starting from a reset buffer with interval 1, the buffer holds the newest `window` frames. */
  lemma EveryFrameKept<F>(inputs: seq<F>, window: nat)
    ensures AddAll([], 0, inputs, window, 1).0 == LastN(inputs, window)
  {
    AddAllKeepsNewestDecimated([], 0, inputs, window, 1);
    DecimatedByOne(inputs, 0);
    assert [] + inputs == inputs;
  }

  lemma {:induction false} DecimatedByOne<F>(inputs: seq<F>, c0: int)
    ensures Decimated(inputs, c0, 1) == inputs
  {
    if inputs != [] {
      DecimatedByOne(inputs[..|inputs| - 1], c0);
      assert inputs[..|inputs| - 1] + [inputs[|inputs| - 1]] == inputs;
    }
  }

  class FrameBuffer<F> {
    const window: nat
    const frameInterval: int
    var frames: seq<F>
    var counter: int

    /** The deque never holds more than `window` frames. */
    predicate Valid()
      reads this
    {
      |frames| <= window
    }

    /** `FrameBuffer(window, frame_interval)`; a negative `maxlen` is refused by `deque`. */
    constructor (window: nat, frameInterval: int)
      ensures this.window == window && this.frameInterval == frameInterval
      ensures frames == [] && counter == 0
      ensures Valid()
    {
      this.window := window;
      this.frameInterval := frameInterval;
      frames := [];
      counter := 0;
    }

    /** `reset()`: no frames, counter back to 0. */
    method Reset()
      modifies this
      ensures frames == [] && counter == 0
      ensures Valid()
    {
      frames := [];
      counter := 0;
    }

    /** `add(frame)`: count it, and keep it when the new count is a multiple of the interval
        (an interval of 0 makes `%` raise). */
    method Add(frame: F)
      requires Valid() && frameInterval != 0
      modifies this
      ensures (frames, counter) == AddStep(old(frames), old(counter), frame, window, frameInterval)
      ensures counter == old(counter) + 1
      ensures counter % frameInterval != 0 ==> frames == old(frames)
      ensures counter % frameInterval == 0 ==> frames == LastN(old(frames) + [frame], window)
      ensures Valid()
    {
      PushKeepsNewest(frames, frame, window);
      counter := counter + 1;
      if counter % frameInterval != 0 {
        return;
      }
      frames := Push(frames, frame, window);
    }

    /** `is_ready`: the window is full. */
    predicate IsReady()
      reads this
    {
      |frames| == window
    }

    /** `get_window()`: the frames oldest first, or the error it raises while not ready. */
    function GetWindow(): (r: Result<seq<F>, string>)
      reads this
      ensures r.Ok? <==> |frames| == window
      ensures r.Ok? ==> r.value == frames
      ensures r.Err? ==> r.error == NotReady
    {
      if !IsReady() then Err(NotReady) else Ok(frames)
    }
  }
}
