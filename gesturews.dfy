/**
 * The `/ws/gesture` endpoint: a receiver that keeps only the newest camera frame in a
 * one-slot queue, and a main loop that decodes it into a sliding window, runs the
 * predictor when the window is full and enough time has passed, and sends a
 * recognised word unless it is a placeholder or a repeat within the cooldown.
 *
 * The two tasks interleave only at their `await`s, so each receiver iteration and each
 * main-loop iteration is one step. Each is described as a function over a `Loop` value,
 * about which the lemmas are stated, and as a method of `GestureSocket` that updates the
 * handler's variables one by one and is proved to take exactly that step.
 */
module GestureWs {
  import opened Wrappers
  import opened Json
  import opened Bounded
  import P = Predictor

  /** `int(CFG.get("window_size", 32))` without a configured value. */
  const DefaultWindowSize: nat := 32
  /** `infer_every_s`: the least time between two inferences, in seconds. */
  const InferEvery: real := 0.35
  /** `cooldown_s`: how long the same word is not sent again, in seconds. */
  const Cooldown: real := 0.8

  /** The labels that are never sent. */
  predicate Placeholder(word: string) {
    word == "" || word == "no" || word == "---"
  }

  /** The handler's state: the queue `q` (maxsize 1), the `frames` deque, the rate and repeat
      bookkeeping, and the counters. */
  datatype Loop<F> = Loop(
    slot: Option<string>,
    frames: seq<F>,
    lastInfer: real,
    lastSentWord: string,
    lastSentAt: real,
    framesIn: nat,
    framesDropped: nat,
    decodeOk: nat,
    decodeErr: nat,
    inferN: nat)

  /** The state right after `ws.accept()`. */
  function Start<F>(): (s: Loop<F>)
    ensures s.slot.None? && s.frames == [] && s.framesIn == 0 && s.inferN == 0
  {
    Loop(None, [], 0.0, "", 0.0, 0, 0, 0, 0, 0)
  }

  /** Every frame the receiver counted has been dropped, taken by the main loop, or still waits
      in the slot; the loop infers at most once per decoded frame; the window keeps its bound. */
  predicate Counted<F>(s: Loop<F>, window: nat) {
    s.framesIn == s.framesDropped + s.decodeOk + s.decodeErr + (if s.slot.Some? then 1 else 0) &&
    s.inferN <= s.decodeOk &&
    |s.frames| <= window
  }

  // ---------------------------------------------------------------- the receiver

  /** A frame put into the queue: when it is full the old frame is taken out and counted as
      dropped, so the slot always ends up holding the newest frame. */
  function Offer<F>(s: Loop<F>, data: string): (r: Loop<F>)
    ensures r.slot == Some(data) && r.framesIn == s.framesIn + 1
    ensures r.framesDropped == s.framesDropped + (if s.slot.Some? then 1 else 0)
    ensures r.frames == s.frames && r.decodeOk == s.decodeOk && r.decodeErr == s.decodeErr
    ensures r.inferN == s.inferN && r.lastInfer == s.lastInfer
    ensures r.lastSentWord == s.lastSentWord && r.lastSentAt == s.lastSentAt
  {
    var dropped := if s.slot.Some? then s.framesDropped + 1 else s.framesDropped;
    s.(framesIn := s.framesIn + 1, framesDropped := dropped, slot := Some(data))
  }

  /** One receiver iteration on the decoded message (`None` for text that is not JSON). An
      error is the exception that ends the receiver task. */
  function ReceiveStep<F>(s: Loop<F>, msg: Option<Json>): Result<Loop<F>, string> {
    match msg
    case None => Err("JSONDecodeError")
    case Some(m) =>
      if !m.JObject? then Err("AttributeError")
      else if Field(m, "type") != Some(JString("frame")) then Ok(s)
      else match Field(m, "data")
        case Some(JString(data)) => Ok(Offer(s, data))
        case _ => Ok(s)
  }

  /** The receiver keeps going on every JSON object, skips one whose `type` is not "frame" or
      whose `data` is not a string, and offers the data of every other one. */
  lemma ReceiveSpec<F>(s: Loop<F>, msg: Option<Json>)
    ensures ReceiveStep(s, msg).Err? <==> msg.None? || !msg.value.JObject?
    ensures msg.Some? && msg.value.JObject? && Field(msg.value, "type") != Some(JString("frame")) ==>
              ReceiveStep(s, msg) == Ok(s)
    ensures msg.Some? && msg.value.JObject? && !(Field(msg.value, "data").Some? && Field(msg.value, "data").value.JString?) ==>
              ReceiveStep(s, msg) == Ok(s)
    ensures msg.Some? && Field(msg.value, "type") == Some(JString("frame")) && Field(msg.value, "data").Some? &&
            Field(msg.value, "data").value.JString? ==>
              ReceiveStep(s, msg) == Ok(Offer(s, Field(msg.value, "data").value.s))
  {
  }

  /** The receiver keeps the count of frames. */
  lemma ReceivePreservesCounted<F>(s: Loop<F>, msg: Option<Json>, window: nat)
    requires Counted(s, window)
    ensures ReceiveStep(s, msg).Ok? ==> Counted(ReceiveStep(s, msg).value, window)
  {
  }

  /** Frames offered one after another, without the main loop taking any. */
  function OfferAll<F>(s: Loop<F>, data: seq<string>): (r: Loop<F>)
    decreases |data|
  {
    if data == [] then s else OfferAll(Offer(s, data[0]), data[1..])
  }

  /** A burst of frames leaves only the newest in the queue; all but one of the frames that were
      waiting, the burst's and the one already there, are dropped. */
  lemma {:induction false} OfferAllKeepsNewest<F>(s: Loop<F>, data: seq<string>)
    requires data != []
    ensures OfferAll(s, data).slot == Some(data[|data| - 1])
    ensures OfferAll(s, data).framesIn == s.framesIn + |data|
    ensures OfferAll(s, data).framesDropped == s.framesDropped + |data| - (if s.slot.Some? then 0 else 1)
    ensures OfferAll(s, data).frames == s.frames
    decreases |data|
  {
    if |data| > 1 {
      OfferAllKeepsNewest(Offer(s, data[0]), data[1..]);
    }
  }

  // ---------------------------------------------------------------- the main loop

  /** How one main-loop iteration ends: the `continue` it takes, the word it sends, or the
      exception that ends the handler. */
  datatype Outcome =
    | Waiting
    | BadFrame
    | Filling
    | TooSoon
    | NoResult
    | Unsendable
    | Repeated
    | Sent(word: string, confidence: real)
    | Failed(error: string)

  /** An inference ran in the iteration. */
  predicate Inferred(o: Outcome) {
    o.NoResult? || o.Unsendable? || o.Repeated? || o.Sent? || o.Failed?
  }

  /** `pred["labels"].get(0, "")`. */
  function WordOf(p: P.Prediction): string {
    if 0 in p.labels then p.labels[0] else ""
  }

  /** `float(pred["confidence"].get(0, 0.0))`. */
  function ConfidenceOf(p: P.Prediction): real {
    if 0 in p.confidence then p.confidence[0] else 0.0
  }

  /** The part of an iteration after `last_infer = now`: the prediction and what is sent. */
  function Respond<F>(s: Loop<F>, now: real, prediction: Result<Option<P.Prediction>, string>): (Loop<F>, Outcome) {
    match prediction
    case Err(e) => (s, Failed(e))
    case Ok(None) => (s.(inferN := s.inferN + 1), NoResult)
    case Ok(Some(p)) =>
      var s1 := s.(inferN := s.inferN + 1);
      var word := WordOf(p);
      if Placeholder(word) then (s1, Unsendable)
      else if now - s1.lastSentAt < Cooldown && word == s1.lastSentWord then (s1, Repeated)
      else (s1.(lastSentWord := word, lastSentAt := now, frames := []), Sent(word, ConfidenceOf(p)))
  }

  /** One main-loop iteration at time `now`: `decode` is `decode_frame_bgr224` (`None` when it
      raises) and `predict` is `predictor.predict` (`Predictor.Predict` for the loaded predictor
      and the model's probabilities). */
  function LoopStep<F>(s: Loop<F>, window: nat, decode: string -> Option<F>, now: real,
                       predict: seq<F> -> Result<Option<P.Prediction>, string>): (Loop<F>, Outcome)
    requires |s.frames| <= window
  {
    match s.slot
    case None => (s, Waiting)
    case Some(dataUrl) =>
      var s1 := s.(slot := None);
      match decode(dataUrl)
      case None => (s1.(decodeErr := s1.decodeErr + 1), BadFrame)
      case Some(frame) => Admit(s1.(decodeOk := s1.decodeOk + 1), window, frame, now, predict)
  }

  /** The part of an iteration after a frame decoded: `frames.append(frame)` and the two gates. */
  function Admit<F>(s: Loop<F>, window: nat, frame: F, now: real,
                    predict: seq<F> -> Result<Option<P.Prediction>, string>): (Loop<F>, Outcome)
    requires |s.frames| <= window
  {
    var s1 := s.(frames := Push(s.frames, frame, window));
    if |s1.frames| < window then (s1, Filling)
    else if now - s1.lastInfer < InferEvery then (s1, TooSoon)
    else
      var s2 := s1.(lastInfer := now);
      Respond(s2, now, predict(s2.frames))
  }

  /** The main loop keeps the count of frames. */
  lemma StepPreservesCounted<F>(s: Loop<F>, window: nat, decode: string -> Option<F>, now: real,
                                predict: seq<F> -> Result<Option<P.Prediction>, string>)
    requires Counted(s, window)
    ensures Counted(LoopStep(s, window, decode, now, predict).0, window)
  {
    if s.slot.Some? && decode(s.slot.value).Some? {
      AdmitPreservesCounted(s.(slot := None, decodeOk := s.decodeOk + 1), window, decode(s.slot.value).value, now, predict);
    }
  }

  lemma AdmitPreservesCounted<F>(s: Loop<F>, window: nat, frame: F, now: real,
                                 predict: seq<F> -> Result<Option<P.Prediction>, string>)
    requires Counted(s, window) && s.inferN < s.decodeOk
    ensures Counted(Admit(s, window, frame, now, predict).0, window)
  {
    PushKeepsNewest(s.frames, frame, window);
  }

  /** Without a frame the loop waits and nothing changes; a frame that does not decode is
      counted and leaves the window as it was. */
  lemma WaitAndBadFrame<F>(s: Loop<F>, window: nat, decode: string -> Option<F>, now: real,
                           predict: seq<F> -> Result<Option<P.Prediction>, string>)
    requires |s.frames| <= window
    ensures s.slot.None? ==> LoopStep(s, window, decode, now, predict) == (s, Waiting)
    ensures s.slot.Some? && decode(s.slot.value).None? ==>
              var (t, o) := LoopStep(s, window, decode, now, predict);
              o == BadFrame && t.frames == s.frames && t.decodeErr == s.decodeErr + 1 &&
              t.slot.None? && t.decodeOk == s.decodeOk && t.inferN == s.inferN
  {
  }

  /** A decoded frame joins the window as its newest element, and the predictor runs exactly
      when the window is then full and at least `InferEvery` has passed since the last run,
      which then becomes `now`; otherwise the inference bookkeeping stays as it was. */
  lemma InferenceGate<F>(s: Loop<F>, window: nat, decode: string -> Option<F>, now: real,
                         predict: seq<F> -> Result<Option<P.Prediction>, string>)
    requires |s.frames| <= window && s.slot.Some? && decode(s.slot.value).Some?
    ensures var (t, o) := LoopStep(s, window, decode, now, predict);
            var full := LastN(s.frames + [decode(s.slot.value).value], window);
            t.decodeOk == s.decodeOk + 1 && t.slot.None? &&
            (Inferred(o) <==> |full| == window && now - s.lastInfer >= InferEvery) &&
            (Inferred(o) ==> t.lastInfer == now) &&
            (!Inferred(o) ==> t.frames == full && t.lastInfer == s.lastInfer && t.inferN == s.inferN &&
                              (o == Filling <==> |full| < window))
  {
    PushKeepsNewest(s.frames, decode(s.slot.value).value, window);
  }

  /** What the predictor saw: the full window, newest frame last. */
  lemma InferenceSeesWindow<F>(s: Loop<F>, window: nat, decode: string -> Option<F>, now: real,
                               predict: seq<F> -> Result<Option<P.Prediction>, string>)
    requires |s.frames| <= window && s.slot.Some? && decode(s.slot.value).Some?
    requires Inferred(LoopStep(s, window, decode, now, predict).1)
    ensures var full := LastN(s.frames + [decode(s.slot.value).value], window);
            |full| == window &&
            LoopStep(s, window, decode, now, predict) ==
              Respond(s.(slot := None, decodeOk := s.decodeOk + 1, frames := full, lastInfer := now),
                      now, predict(full))
  {
    PushKeepsNewest(s.frames, decode(s.slot.value).value, window);
  }

  /** A word is sent exactly when the prediction names a word that is not a placeholder and is
      not the last word sent less than `Cooldown` ago; sending it records it and its time and
      empties the window. A prediction that raises ends the handler. */
  lemma RespondSpec<F>(s: Loop<F>, now: real, prediction: Result<Option<P.Prediction>, string>)
    ensures var (t, o) := Respond(s, now, prediction);
            (prediction.Err? <==> o.Failed?) &&
            (o.Sent? <==> prediction.Ok? && prediction.value.Some? &&
                          !Placeholder(WordOf(prediction.value.value)) &&
                          !(now - s.lastSentAt < Cooldown && WordOf(prediction.value.value) == s.lastSentWord)) &&
            (o.Sent? ==> o.word == WordOf(prediction.value.value) && o.confidence == ConfidenceOf(prediction.value.value) &&
                         t.lastSentWord == o.word && t.lastSentAt == now && t.frames == []) &&
            (!o.Sent? ==> t.lastSentWord == s.lastSentWord && t.lastSentAt == s.lastSentAt && t.frames == s.frames)
  {
  }

  /** No iteration ever sends a placeholder, nor the previous word within the cooldown. */
  lemma NeverSendsPlaceholderOrRepeat<F>(s: Loop<F>, window: nat, decode: string -> Option<F>, now: real,
                                          predict: seq<F> -> Result<Option<P.Prediction>, string>)
    requires |s.frames| <= window
    ensures var (t, o) := LoopStep(s, window, decode, now, predict);
            o.Sent? ==> !Placeholder(o.word) && !(now - s.lastSentAt < Cooldown && o.word == s.lastSentWord) &&
                        t.frames == [] && t.lastSentWord == o.word && t.lastSentAt == now
  {
    if s.slot.Some? && decode(s.slot.value).Some? {
      var s2 := s.(slot := None, decodeOk := s.decodeOk + 1, frames := Push(s.frames, decode(s.slot.value).value, window));
      if |s2.frames| >= window && now - s2.lastInfer >= InferEvery {
        var s3 := s2.(lastInfer := now);
        RespondSpec(s3, now, predict(s3.frames));
      }
    }
  }

  /** The handler of one connection: the variables `gesture_ws` keeps between iterations. */
  class GestureSocket<F> {
    const window: nat
    var slot: Option<string>
    var frames: seq<F>
    var lastInfer: real
    var lastSentWord: string
    var lastSentAt: real
    var framesIn: nat
    var framesDropped: nat
    var decodeOk: nat
    var decodeErr: nat
    var inferN: nat

    function Snap(): Loop<F>
      reads this
    {
      Loop(slot, frames, lastInfer, lastSentWord, lastSentAt, framesIn, framesDropped, decodeOk, decodeErr, inferN)
    }

    predicate Valid()
      reads this
    {
      Counted(Snap(), window)
    }

    /** The handler's variables right after `ws.accept()`, with `WINDOW_SIZE` as `window`. */
    constructor (window: nat)
      ensures this.window == window && Snap() == Start() && Valid()
    {
      this.window := window;
      slot := None;
      frames := [];
      lastInfer := 0.0;
      lastSentWord := "";
      lastSentAt := 0.0;
      framesIn := 0;
      framesDropped := 0;
      decodeOk := 0;
      decodeErr := 0;
      inferN := 0;
    }

    /** One iteration of `receiver()`; `stop` is the exception that ends it, if any. */
    method Receive(msg: Option<Json>) returns (stop: Option<string>)
      requires Valid()
      modifies this
      ensures Valid()
      ensures stop.None? <==> ReceiveStep(old(Snap()), msg).Ok?
      ensures stop.None? ==> Snap() == ReceiveStep(old(Snap()), msg).value
      ensures stop.Some? ==> Snap() == old(Snap()) && stop == Some(ReceiveStep(old(Snap()), msg).error)
    {
      ReceivePreservesCounted(Snap(), msg, window);
      if msg.None? {
        return Some("JSONDecodeError");
      }
      var m := msg.value;
      if !m.JObject? {
        return Some("AttributeError");
      }
      if Field(m, "type") != Some(JString("frame")) {
        return None;
      }
      var data := Field(m, "data");
      if !(data.Some? && data.value.JString?) {
        return None;
      }
      framesIn := framesIn + 1;
      if slot.Some? {
        framesDropped := framesDropped + 1;
        slot := None;
      }
      slot := Some(data.value.s);
      stop := None;
    }

    /** One iteration of the main loop's `while True` at monotonic time `now`. */
    method Next(decode: string -> Option<F>, now: real, predict: seq<F> -> Result<Option<P.Prediction>, string>)
      returns (out: Outcome)
      requires Valid()
      modifies this
      ensures Valid()
      ensures (Snap(), out) == LoopStep(old(Snap()), window, decode, now, predict)
    {
      if slot.None? {
        return Waiting;
      }
      var dataUrl := slot.value;
      slot := None;
      var decoded := decode(dataUrl);
      if decoded.None? {
        decodeErr := decodeErr + 1;
        return BadFrame;
      }
      decodeOk := decodeOk + 1;
      out := AdmitFrame(decoded.value, now, predict);
    }

    /** The rest of an iteration once a frame has decoded. */
    method AdmitFrame(frame: F, now: real, predict: seq<F> -> Result<Option<P.Prediction>, string>)
      returns (out: Outcome)
      requires Valid() && inferN < decodeOk
      modifies this
      ensures Valid()
      ensures (Snap(), out) == Admit(old(Snap()), window, frame, now, predict)
    {
      PushKeepsNewest(frames, frame, window);
      frames := Push(frames, frame, window);
      if |frames| < window {
        return Filling;
      }
      if now - lastInfer < InferEvery {
        return TooSoon;
      }
      lastInfer := now;
      out := Answer(now, predict(frames));
    }

    /** The rest of an iteration once the predictor has been called on the window. */
    method Answer(now: real, pred: Result<Option<P.Prediction>, string>) returns (out: Outcome)
      requires Valid() && inferN < decodeOk
      modifies this
      ensures Valid()
      ensures (Snap(), out) == Respond(old(Snap()), now, pred)
    {
      if pred.Err? {
        return Failed(pred.error);
      }
      inferN := inferN + 1;
      if pred.value.None? {
        return NoResult;
      }
      var word := WordOf(pred.value.value);
      var conf := ConfidenceOf(pred.value.value);
      if Placeholder(word) {
        return Unsendable;
      }
      if now - lastSentAt < Cooldown && word == lastSentWord {
        return Repeated;
      }
      lastSentWord := word;
      lastSentAt := now;
      out := Sent(word, conf);
      frames := [];
    }
  }
}
