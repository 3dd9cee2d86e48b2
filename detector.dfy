/**
 * The hand-sign detector session: timestamps forced to increase, the cascade of sign
 * recognisers over one camera frame with the trajectories and the cat gesture's miss
 * counter and cooldown it keeps between frames, the five-finger digit patterns, and a
 * majority vote over the last seven raw labels.
 *
 * The hand geometry (angles, distances, trajectory shapes over MediaPipe landmarks) is a
 * `Geometry` value of uninterpreted predicates; what is modelled is the state the session
 * keeps and the order in which the predicates are consulted.
 */
module Detector {
  import opened Wrappers
  import opened Bounded

  // ---------------------------------------------------------------- digits 1 to 5

  /** The five-finger state `[thumb, index, middle, ring, pinky]` that shows digit `d`. */
  function Pattern(d: nat): (p: seq<bool>)
    requires 1 <= d <= 5
    ensures |p| == 5
  {
    if d == 5 then [true, true, true, true, true]
    else [false, true, d >= 2, d >= 3, d >= 4]
  }

  /** The digit's label. */
  function DigitName(d: nat): string
    requires 1 <= d <= 5
  {
    ["1", "2", "3", "4", "5"][d - 1]
  }

  /** `detect_digit_1_5(fingers)`: `None` for a missing or empty state, then the patterns of 5,
      4, 3, 2 and 1 in that order. */
  function DetectDigit(fingers: Option<seq<bool>>): Option<string> {
    if fingers.None? || fingers.value == [] then None
    else
      var f := fingers.value;
      if f == Pattern(5) then Some("5")
      else if f == Pattern(4) then Some("4")
      else if f == Pattern(3) then Some("3")
      else if f == Pattern(2) then Some("2")
      else if f == Pattern(1) then Some("1")
      else None
  }

  /** The number of raised fingers. */
  function Raised(f: seq<bool>): (n: nat)
    ensures n <= |f|
  {
    if f == [] then 0 else (if f[0] then 1 else 0) + Raised(f[1..])
  }

  /** A digit is reported exactly when the fingers show its pattern, and then it is the number
      of raised fingers. */
  lemma DetectDigitSpec(fingers: Option<seq<bool>>)
    ensures forall d :: 1 <= d <= 5 ==> (DetectDigit(fingers) == Some(DigitName(d)) <==> fingers == Some(Pattern(d)))
    ensures DetectDigit(fingers).None? <==> forall d :: 1 <= d <= 5 ==> fingers != Some(Pattern(d))
    ensures forall d :: 1 <= d <= 5 && fingers == Some(Pattern(d)) ==> Raised(fingers.value) == d
  {
    PatternsRaised();
  }

  lemma PatternsRaised()
    ensures forall d :: 1 <= d <= 5 ==> Raised(Pattern(d)) == d
  {
    assert Raised(Pattern(1)) == 1 && Raised(Pattern(2)) == 2 && Raised(Pattern(3)) == 3;
    assert Raised(Pattern(4)) == 4 && Raised(Pattern(5)) == 5;
  }

  // ---------------------------------------------------------------- the label smoother

  /** `HIST_LEN` and `HIST_MIN_VOTES`. */
  const HistLen: nat := 7
  const HistMinVotes: nat := 4

  /** The labels of a history, without the frames that had none, oldest first. */
  function Labels(hist: seq<Option<string>>): (vals: seq<string>)
    ensures |vals| <= |hist|
    ensures forall x :: x in vals <==> Some(x) in hist
  {
    if hist == [] then []
    else
      var rest := Labels(hist[1..]);
      assert forall o :: o in hist <==> o == hist[0] || o in hist[1..];
      match hist[0]
      case None => rest
      case Some(x) => [x] + rest
  }

  /** The scan of `Counter(vals).most_common(1)`: the first label met with the largest count; a
      later one wins only with a strictly larger count. */
  function Leader(vals: seq<string>, j: nat, best: string): string
    requires j <= |vals|
    decreases |vals| - j
  {
    if j == |vals| then best
    else Leader(vals, j + 1, if multiset(vals)[vals[j]] > multiset(vals)[best] then vals[j] else best)
  }

  /** `most_common(1)[0]`: a label of largest count, and that count. */
  function MostCommon(vals: seq<string>): (string, nat)
    requires vals != []
  {
    var winner := Leader(vals, 1, vals[0]);
    (winner, multiset(vals)[winner])
  }

  /** The leader of a scan is a label that occurs, that no label outnumbers, and that occurs
      before every other label with as many votes. */
  lemma {:induction false} LeaderSpec(vals: seq<string>, j: nat, best: string)
    requires 0 < j <= |vals| && best in vals[..j]
    requires forall k :: 0 <= k < j ==> multiset(vals)[vals[k]] <= multiset(vals)[best]
    requires forall k :: 0 <= k < j && vals[k] != best && multiset(vals)[vals[k]] == multiset(vals)[best] ==> best in vals[..k]
    ensures var r := Leader(vals, j, best);
            r in vals &&
            (forall k :: 0 <= k < |vals| ==> multiset(vals)[vals[k]] <= multiset(vals)[r]) &&
            (forall k :: 0 <= k < |vals| && vals[k] != r && multiset(vals)[vals[k]] == multiset(vals)[r] ==> r in vals[..k])
    decreases |vals| - j
  {
    if j == |vals| {
      assert vals[..j] == vals;
    } else {
      var m := multiset(vals);
      var next := if m[vals[j]] > m[best] then vals[j] else best;
      assert vals[..j + 1] == vals[..j] + [vals[j]];
      if m[vals[j]] > m[best] {
        forall k | 0 <= k < j
          ensures vals[k] != next
        {
          assert m[vals[k]] <= m[best];
        }
      }
      forall k | 0 <= k < j + 1 && vals[k] != next && m[vals[k]] == m[next]
        ensures next in vals[..k]
      {
        if k < j {
          assert vals[..k] <= vals[..j];
        } else {
          assert next == best;
        }
      }
      LeaderSpec(vals, j + 1, next);
    }
  }

  /** The most common label occurs, no label outnumbers it, ties go to the label first seen,
      and its count is at most the number of labels. */
  lemma MostCommonSpec(vals: seq<string>)
    requires vals != []
    ensures var (winner, votes) := MostCommon(vals);
            winner in vals && votes == multiset(vals)[winner] && 1 <= votes <= |vals| &&
            (forall x :: x in vals ==> multiset(vals)[x] <= votes) &&
            (forall k :: 0 <= k < |vals| && vals[k] != winner && multiset(vals)[vals[k]] == votes ==> winner in vals[..k])
  {
    assert vals[..1] == [vals[0]];
    LeaderSpec(vals, 1, vals[0]);
    var winner := MostCommon(vals).0;
    assert |multiset(vals)| == |vals|;
    assert multiset(vals)[winner] <= |multiset(vals)| by {
      MultiplicityBound(multiset(vals), winner);
    }
    forall x | x in vals
      ensures multiset(vals)[x] <= multiset(vals)[winner]
    {
      var k :| 0 <= k < |vals| && vals[k] == x;
    }
  }

  lemma MultiplicityBound(m: multiset<string>, x: string)
    ensures m[x] <= |m|
  {
    var rest := m[x := 0];
    assert m == rest + multiset{}[x := m[x]];
  }

  /** `(stable_label, confidence, votes, total)`. */
  datatype Vote = Vote(stable: Option<string>, confidence: real, votes: nat, total: nat)

  /** `stable_with_confidence()` over a history. */
  function Stable(hist: seq<Option<string>>): Vote {
    var vals := Labels(hist);
    if vals == [] then Vote(None, 0.0, 0, 0)
    else
      var (winner, votes) := MostCommon(vals);
      var total := |vals|;
      var conf := votes as real / total as real;
      if votes < HistMinVotes then Vote(None, conf, votes, total)
      else Vote(Some(winner), conf, votes, total)
  }

  /** Without any label the vote is empty; otherwise it counts the labels, the confidence is the
      winner's share, and a label is reported only with at least four votes, then the most
      common one. */
  lemma StableSpec(hist: seq<Option<string>>)
    ensures var v, vals := Stable(hist), Labels(hist);
            (vals == [] <==> forall i :: 0 <= i < |hist| ==> hist[i].None?) &&
            (vals == [] ==> v == Vote(None, 0.0, 0, 0)) &&
            (vals != [] ==>
               v.total == |vals| && 1 <= v.votes <= v.total && v.confidence == v.votes as real / v.total as real &&
               0.0 < v.confidence <= 1.0 &&
               (v.stable.None? <==> v.votes < HistMinVotes) &&
               v.votes == MostCommon(vals).1 &&
               (v.stable.Some? ==> v.stable.value == MostCommon(vals).0 && multiset(vals)[v.stable.value] == v.votes) &&
               forall x :: x in vals ==> multiset(vals)[x] <= v.votes)
  {
    LabelsEmpty(hist);
    var vals := Labels(hist);
    if vals != [] {
      MostCommonSpec(vals);
      var votes := MostCommon(vals).1;
      Share(votes, |vals|);
      var v := Stable(hist);
      assert v.votes == votes && v.total == |vals| && v.confidence == votes as real / |vals| as real;
    }
  }

  /** A history has no label exactly when every frame had none. */
  lemma LabelsEmpty(hist: seq<Option<string>>)
    ensures Labels(hist) == [] <==> forall i :: 0 <= i < |hist| ==> hist[i].None?
  {
    if Labels(hist) != [] {
      assert Some(Labels(hist)[0]) in hist;
    }
  }

  /** A share of `votes` among `total`. */
  lemma Share(votes: nat, total: nat)
    requires 1 <= votes <= total
    ensures var c := votes as real / total as real;
            c * total as real == votes as real && 0.0 < c <= 1.0
  {
  }

  /** No label can win the vote with fewer than four of the seven frames. */
  lemma StableNeedsFourFrames(hist: seq<Option<string>>)
    requires Stable(hist).stable.Some?
    ensures |hist| >= HistMinVotes
    ensures multiset(Labels(hist))[Stable(hist).stable.value] >= HistMinVotes
  {
    StableSpec(hist);
  }

  class LabelSmoother {
    const maxlen: nat
    var hist: seq<Option<string>>

    predicate Valid()
      reads this
    {
      |hist| <= maxlen
    }

    /** `LabelSmoother(maxlen)`. */
    constructor (maxlen: nat)
      ensures this.maxlen == maxlen && hist == [] && Valid()
    {
      this.maxlen := maxlen;
      hist := [];
    }

    /** `push(label_or_none)`: the history keeps the newest `maxlen` entries. */
    method Push(entry: Option<string>)
      requires Valid()
      modifies this
      ensures Valid()
      ensures hist == LastN(old(hist) + [entry], maxlen)
      ensures 0 < |old(hist)| == maxlen ==> hist == old(hist)[1..] + [entry]
      ensures hist == Bounded.Push(old(hist), entry, maxlen)
    {
      PushKeepsNewest(hist, entry, maxlen);
      hist := Bounded.Push(hist, entry, maxlen);
    }

    function StableWithConfidence(): Vote
      reads this
    {
      Stable(hist)
    }
  }

  // ---------------------------------------------------------------- timestamps

  /** `_ensure_ts(ts_ms)` with `_last_ts_ms` at `last`. */
  function EnsureTs(last: int, ts: int): (r: int)
    ensures r > last && r >= ts
    ensures ts > last ==> r == ts
    ensures ts <= last ==> r == last + 1
  {
    if ts <= last then last + 1 else ts
  }

  /** The timestamps handed to the landmarker for a series of frames. */
  function Stamps(last: int, tss: seq<int>): (r: seq<int>)
    ensures |r| == |tss|
    decreases |tss|
  {
    if tss == [] then [] else var t := EnsureTs(last, tss[0]); [t] + Stamps(t, tss[1..])
  }

  /** Whatever timestamps the caller passes, the landmarker sees a strictly increasing series
      that starts after the last one. */
  lemma {:induction false} StampsIncrease(last: int, tss: seq<int>)
    ensures forall i :: 0 <= i < |tss| ==> Stamps(last, tss)[i] > last
    ensures forall i, j :: 0 <= i < j < |tss| ==> Stamps(last, tss)[i] < Stamps(last, tss)[j]
    decreases |tss|
  {
    if tss != [] {
      var t := EnsureTs(last, tss[0]);
      StampsIncrease(t, tss[1..]);
      var r := Stamps(last, tss);
      assert forall i :: 1 <= i < |tss| ==> r[i] == Stamps(t, tss[1..])[i - 1];
    }
  }

  // ---------------------------------------------------------------- the frame cascade

  /** The recognisers over landmarks `H` and trajectory points `Pt`: the two-hand digits, the
      cat pose, its tracked point and gesture, "0", the poses, tracked points and trajectory
      shapes of Д, Ё and З, the static letters, the finger state and the sideways palm. */
  datatype Geometry<-H, !Pt> = Geometry(
    nine: (H, H) -> bool, eight: (H, H) -> bool, seven: (H, H) -> bool, six: (H, H) -> bool,
    catPose: H -> bool, catPoint: H -> Pt, catGesture: seq<Pt> -> bool,
    zero: H -> bool,
    dPose: H -> bool, dPoint: H -> Pt, letterD: seq<Pt> -> bool,
    yoPose: H -> bool, yoPoint: H -> Pt, letterYo: seq<Pt> -> bool,
    zPose: H -> bool, zPoint: H -> Pt, letterZ: seq<Pt> -> bool,
    letterG: H -> bool, letterV: H -> bool, letterB: H -> bool, letterA: H -> bool, letterE: H -> bool,
    letterZh: H -> bool,
    fingers: H -> Option<seq<bool>>, sideways: H -> bool)

  /** A frame: not an H×W×3 image, or an image with the hands the landmarker found. */
  datatype Frame<H> = NotImage | Image(hands: seq<H>)

  /** The bounds of the trajectories, the cat cooldown, the misses that end a cat attempt, and
      the cat points that keep "0" from being read. */
  const CatTrajLen: nat := 35
  const DTrajLen: nat := 120
  const YoTrajLen: nat := 120
  const ZTrajLen: nat := 220
  const CatCooldownMs: int := 600
  const CatMaxMisses: nat := 4
  const CatBlockZeroMinPts: nat := 3

  /** What the session keeps between frames. */
  datatype Session<Pt> = Session(
    lastTs: int,
    hist: seq<Option<string>>,
    catTraj: seq<Pt>,
    dTraj: seq<Pt>,
    yoTraj: seq<Pt>,
    zTraj: seq<Pt>,
    catMiss: nat,
    catCooldownUntil: int)

  predicate SessionValid<Pt>(s: Session<Pt>) {
    |s.hist| <= HistLen && |s.catTraj| <= CatTrajLen && |s.dTraj| <= DTrajLen &&
    |s.yoTraj| <= YoTrajLen && |s.zTraj| <= ZTrajLen && s.catMiss < CatMaxMisses
  }

  /** The result of `process_frame_bgr`. */
  datatype Reading = Reading(raw: Option<string>, stable: Option<string>, confidence: real, votes: nat, total: nat)

  /** The two-hand digits, tried as 9, 8, 7, 6. */
  function TwoHands<H, Pt>(g: Geometry<H, Pt>, a: H, b: H): Option<string> {
    if g.nine(a, b) then Some("9")
    else if g.eight(a, b) then Some("8")
    else if g.seven(a, b) then Some("7")
    else if g.six(a, b) then Some("6")
    else None
  }

  /** The cat stage with `n` hands at time `now`: with other than one hand the attempt is
      dropped; outside the cooldown a cat pose adds a point and a recognised gesture ends the
      attempt and starts the cooldown, while any other pose counts a miss, and the fourth miss
      drops the attempt. */
  function CatStep<H, Pt>(s: Session<Pt>, g: Geometry<H, Pt>, h: H, n: nat, now: int): (Session<Pt>, Option<string>)
    requires |s.catTraj| <= CatTrajLen
  {
    var s1 := if n != 1 then s.(catTraj := [], catMiss := 0) else s;
    if now >= s1.catCooldownUntil && n == 1 then
      if g.catPose(h) then
        var traj := Push(s1.catTraj, g.catPoint(h), CatTrajLen);
        if g.catGesture(traj) then (s1.(catTraj := [], catMiss := 0, catCooldownUntil := now + CatCooldownMs), Some("КОШКА"))
        else (s1.(catMiss := 0, catTraj := traj), None)
      else if s1.catMiss + 1 >= CatMaxMisses then (s1.(catTraj := [], catMiss := 0), None)
      else (s1.(catMiss := s1.catMiss + 1), None)
    else (s1, None)
  }

  /** One dynamic letter: in its pose the point joins the trajectory and the letter is read when
      the trajectory has its shape; out of the pose the trajectory is dropped. */
  function Track<Pt>(traj: seq<Pt>, pose: bool, point: Pt, maxlen: nat, shape: seq<Pt> -> bool, letter: string): (r: (seq<Pt>, Option<string>))
    requires |traj| <= maxlen
    ensures |r.0| <= maxlen
    ensures pose ==> r.0 == LastN(traj + [point], maxlen) && (r.1.Some? <==> shape(r.0)) && (r.1.Some? ==> r.1.value == letter)
    ensures !pose ==> r == ([], None)
  {
    PushKeepsNewest(traj, point, maxlen);
    if pose then
      var t := Push(traj, point, maxlen);
      (t, if shape(t) then Some(letter) else None)
    else ([], None)
  }

  /** The static letters: Г, В, Б, А, Е in that order, with Ж taking precedence over all. */
  function StaticLetter<H, Pt>(g: Geometry<H, Pt>, h: H): Option<string> {
    var first :=
      if g.letterG(h) then Some("Г")
      else if g.letterV(h) then Some("В")
      else if g.letterB(h) then Some("Б")
      else if g.letterA(h) then Some("А")
      else if g.letterE(h) then Some("Е")
      else None;
    if g.letterZh(h) then Some("Ж") else first
  }

  /** The one-hand cascade after the cat stage: "0" unless a cat attempt is under way, then Д, Ё,
      З, and the static letters, each consulted only while nothing has been read. */
  function OneHand<H, Pt>(s: Session<Pt>, g: Geometry<H, Pt>, h: H, raw: Option<string>): (Session<Pt>, Option<string>)
    requires SessionValid(s)
  {
    var raw0 := if raw.None? && |s.catTraj| < CatBlockZeroMinPts && g.zero(h) then Some("0") else raw;
    var (d, raw1) := if raw0.None? then Track(s.dTraj, g.dPose(h), g.dPoint(h), DTrajLen, g.letterD, "Д") else (s.dTraj, raw0);
    var (yo, raw2) := if raw1.None? then Track(s.yoTraj, g.yoPose(h), g.yoPoint(h), YoTrajLen, g.letterYo, "Ё") else (s.yoTraj, raw1);
    var (z, raw3) := if raw2.None? then Track(s.zTraj, g.zPose(h), g.zPoint(h), ZTrajLen, g.letterZ, "З") else (s.zTraj, raw2);
    (s.(dTraj := d, yoTraj := yo, zTraj := z), if raw3.None? then StaticLetter(g, h) else raw3)
  }

  /** The frame's hands, when there is at least one: the two-hand digits, else the cat stage and
      the one-hand cascade on the first hand. */
  function Recognize<H, Pt>(s: Session<Pt>, g: Geometry<H, Pt>, hands: seq<H>, now: int): (Session<Pt>, Option<string>)
    requires SessionValid(s) && hands != []
  {
    var two := if |hands| >= 2 then TwoHands(g, hands[0], hands[1]) else None;
    if two.Some? then (s, two)
    else
      var (s1, raw) := CatStep(s, g, hands[0], |hands|, now);
      OneHand(s1, g, hands[0], raw)
  }

  /** No hand: every trajectory and the miss count are dropped. */
  function Forget<Pt>(s: Session<Pt>): Session<Pt> {
    s.(dTraj := [], yoTraj := [], zTraj := [], catTraj := [], catMiss := 0)
  }

  /** The digit fallback on the first hand: a 4 shown with a sideways palm that also reads as В
      is В. */
  function DigitFallback<H, Pt>(g: Geometry<H, Pt>, h: H): Option<string> {
    var digit := DetectDigit(g.fingers(h));
    if digit == Some("4") && g.sideways(h) && g.letterV(h) then Some("В") else digit
  }

  /** `process_frame_bgr(frame, ts_ms)` with the timestamp given. */
  function ProcessStep<H, Pt>(s: Session<Pt>, g: Geometry<H, Pt>, frame: Frame<H>, ts: int): (Session<Pt>, Reading)
    requires SessionValid(s)
  {
    var s1 := s.(lastTs := EnsureTs(s.lastTs, ts));
    match frame
    case NotImage => (s1, Reading(None, None, 0.0, 0, 0))
    case Image(hands) => ImageStep(s1, g, hands, s1.lastTs)
  }

  /** The rest of `process_frame_bgr` for an image whose landmarker timestamp is `now`: the
      cascade, the digit fallback, and the vote. */
  function ImageStep<H, Pt>(s: Session<Pt>, g: Geometry<H, Pt>, hands: seq<H>, now: int): (Session<Pt>, Reading)
    requires SessionValid(s)
  {
    var (s1, raw) := Classify(s, g, hands, now);
    var hist := Push(s1.hist, raw, HistLen);
    var v := Stable(hist);
    (s1.(hist := hist), Reading(raw, v.stable, v.confidence, v.votes, v.total))
  }

  /** The raw label of an image: the cascade on its hands, then the digit fallback; no hand
      forgets the trajectories. */
  function Classify<H, Pt>(s: Session<Pt>, g: Geometry<H, Pt>, hands: seq<H>, now: int): (Session<Pt>, Option<string>)
    requires SessionValid(s)
  {
    var (s1, raw) := if hands == [] then (Forget(s), None) else Recognize(s, g, hands, now);
    (s1, if raw.None? && hands != [] then DigitFallback(g, hands[0]) else raw)
  }

  // ---------------------------------------------------------------- properties of a frame

  /** The cat stage keeps the bounds, and a recognised cat empties the attempt and starts the
      cooldown; inside the cooldown a single hand leaves the cat state as it was. */
  lemma CatStepSpec<H, Pt>(s: Session<Pt>, g: Geometry<H, Pt>, h: H, n: nat, now: int)
    requires SessionValid(s)
    ensures var (t, raw) := CatStep(s, g, h, n, now);
            SessionValid(t) && t.dTraj == s.dTraj && t.yoTraj == s.yoTraj && t.zTraj == s.zTraj && t.hist == s.hist &&
            t.lastTs == s.lastTs &&
            (raw.Some? ==> raw.value == "КОШКА" && t.catTraj == [] && t.catMiss == 0 && t.catCooldownUntil == now + CatCooldownMs) &&
            (raw.Some? <==> n == 1 && now >= s.catCooldownUntil && g.catPose(h) &&
                            g.catGesture(LastN(s.catTraj + [g.catPoint(h)], CatTrajLen))) &&
            (n != 1 ==> t.catTraj == [] && t.catMiss == 0 && t.catCooldownUntil == s.catCooldownUntil) &&
            (n == 1 && now < s.catCooldownUntil ==> t == s)
  {
    PushKeepsNewest(s.catTraj, g.catPoint(h), CatTrajLen);
  }

  /** A single hand outside the cooldown that is not in the cat pose is a miss: the count goes
      up, and the fourth miss in a row drops the attempt. */
  lemma CatMiss<H, Pt>(s: Session<Pt>, g: Geometry<H, Pt>, h: H, now: int)
    requires SessionValid(s) && now >= s.catCooldownUntil && !g.catPose(h)
    ensures var t := CatStep(s, g, h, 1, now).0;
            t.catMiss == (s.catMiss + 1) % CatMaxMisses && t.catCooldownUntil == s.catCooldownUntil &&
            t.catTraj == (if s.catMiss + 1 == CatMaxMisses then [] else s.catTraj)
  {
  }

  /** Cat stages over single hands, one per frame, at the given times. */
  function CatSeries<H, Pt>(s: Session<Pt>, g: Geometry<H, Pt>, hands: seq<H>, times: seq<int>): (r: Session<Pt>)
    requires SessionValid(s) && |hands| == |times|
    ensures SessionValid(r)
    decreases |hands|
  {
    if hands == [] then s
    else
      CatStepSpec(s, g, hands[0], 1, times[0]);
      CatSeries(CatStep(s, g, hands[0], 1, times[0]).0, g, hands[1..], times[1..])
  }

  /** Misses only count and never add a point; after `k` of them the count has advanced by `k`
      and the attempt has been dropped as soon as the count reached four. */
  lemma {:induction false} CatMissesSpec<H, Pt>(s: Session<Pt>, g: Geometry<H, Pt>, hands: seq<H>, times: seq<int>)
    requires SessionValid(s) && |hands| == |times|
    requires forall i :: 0 <= i < |hands| ==> !g.catPose(hands[i]) && times[i] >= s.catCooldownUntil
    ensures var t := CatSeries(s, g, hands, times);
            t.catCooldownUntil == s.catCooldownUntil &&
            t.catMiss == (s.catMiss + |hands|) % CatMaxMisses &&
            (s.catMiss + |hands| >= CatMaxMisses ==> t.catTraj == []) &&
            (s.catMiss + |hands| < CatMaxMisses ==> t.catTraj == s.catTraj)
    decreases |hands|
  {
    if hands != [] {
      CatMiss(s, g, hands[0], times[0]);
      var s1 := CatStep(s, g, hands[0], 1, times[0]).0;
      CatMissesSpec(s1, g, hands[1..], times[1..]);
    }
  }

  /** Four misses in a row always drop a cat attempt, whatever the count was. */
  lemma FourMissesClear<H, Pt>(s: Session<Pt>, g: Geometry<H, Pt>, hands: seq<H>, times: seq<int>)
    requires SessionValid(s) && |hands| == |times| == CatMaxMisses
    requires forall i :: 0 <= i < |hands| ==> !g.catPose(hands[i]) && times[i] >= s.catCooldownUntil
    ensures CatSeries(s, g, hands, times).catTraj == []
  {
    CatMissesSpec(s, g, hands, times);
  }

  /** The one-hand cascade keeps the bounds and the cat state. */
  lemma OneHandValid<H, Pt>(s: Session<Pt>, g: Geometry<H, Pt>, h: H, raw: Option<string>)
    requires SessionValid(s)
    ensures var t := OneHand(s, g, h, raw).0;
            SessionValid(t) && t.catTraj == s.catTraj && t.catMiss == s.catMiss &&
            t.catCooldownUntil == s.catCooldownUntil && t.hist == s.hist && t.lastTs == s.lastTs
  {
  }

  /** A frame keeps the session's bounds; the timestamp goes up; a frame that is not an image
      changes nothing else and is not voted on. */
  lemma ProcessPreservesValid<H, Pt>(s: Session<Pt>, g: Geometry<H, Pt>, frame: Frame<H>, ts: int)
    requires SessionValid(s)
    ensures var (t, r) := ProcessStep(s, g, frame, ts);
            SessionValid(t) && t.lastTs == EnsureTs(s.lastTs, ts) &&
            (frame.NotImage? ==> t == s.(lastTs := t.lastTs) && r == Reading(None, None, 0.0, 0, 0)) &&
            (frame.Image? ==> t.hist == LastN(s.hist + [r.raw], HistLen))
  {
    var s1 := s.(lastTs := EnsureTs(s.lastTs, ts));
    if frame.Image? && frame.hands != [] {
      RecognizeValid(s1, g, frame.hands, s1.lastTs);
    }
    if frame.Image? {
      var raw := ProcessStep(s, g, frame, ts).1.raw;
      var s2 := if frame.hands == [] then Forget(s1) else Recognize(s1, g, frame.hands, s1.lastTs).0;
      PushKeepsNewest(s2.hist, raw, HistLen);
    }
  }

  lemma RecognizeValid<H, Pt>(s: Session<Pt>, g: Geometry<H, Pt>, hands: seq<H>, now: int)
    requires SessionValid(s) && hands != []
    ensures SessionValid(Recognize(s, g, hands, now).0)
    ensures Recognize(s, g, hands, now).0.hist == s.hist && Recognize(s, g, hands, now).0.lastTs == s.lastTs
  {
    CatStepSpec(s, g, hands[0], |hands|, now);
    var s1 := CatStep(s, g, hands[0], |hands|, now).0;
    OneHandValid(s1, g, hands[0], CatStep(s, g, hands[0], |hands|, now).1);
  }

  /** A frame without hands drops every trajectory and the miss count, reads nothing and votes
      on that. */
  lemma NoHandsForgets<H, Pt>(s: Session<Pt>, g: Geometry<H, Pt>, ts: int)
    requires SessionValid(s)
    ensures var (t, r) := ProcessStep(s, g, Image([]), ts);
            t.catTraj == [] && t.dTraj == [] && t.yoTraj == [] && t.zTraj == [] && t.catMiss == 0 &&
            t.catCooldownUntil == s.catCooldownUntil && r.raw.None? &&
            t.hist == LastN(s.hist + [None], HistLen) && r.stable == Stable(t.hist).stable
  {
    PushKeepsNewest(s.hist, None, HistLen);
  }

  /** With a single hand the cat state after the frame is the cat stage's, at the frame's
      timestamp. */
  lemma OneHandCat<H, Pt>(s: Session<Pt>, g: Geometry<H, Pt>, h: H, ts: int)
    requires SessionValid(s)
    ensures var s1 := s.(lastTs := EnsureTs(s.lastTs, ts));
            var t := ProcessStep(s, g, Image([h]), ts).0;
            var c := CatStep(s1, g, h, 1, s1.lastTs).0;
            t.catTraj == c.catTraj && t.catMiss == c.catMiss && t.catCooldownUntil == c.catCooldownUntil
  {
    var s1 := s.(lastTs := EnsureTs(s.lastTs, ts));
    CatStepSpec(s1, g, h, 1, s1.lastTs);
    var c := CatStep(s1, g, h, 1, s1.lastTs);
    OneHandValid(c.0, g, h, c.1);
  }

  /** Two hands that show 6 to 9 read that digit and leave every trajectory as it was. */
  lemma TwoHandDigit<H, Pt>(s: Session<Pt>, g: Geometry<H, Pt>, hands: seq<H>, ts: int)
    requires SessionValid(s) && |hands| >= 2 && TwoHands(g, hands[0], hands[1]).Some?
    ensures var (t, r) := ProcessStep(s, g, Image(hands), ts);
            r.raw == TwoHands(g, hands[0], hands[1]) && t.catTraj == s.catTraj && t.catMiss == s.catMiss &&
            t.dTraj == s.dTraj && t.yoTraj == s.yoTraj && t.zTraj == s.zTraj
  {
  }

  // ---------------------------------------------------------------- the session object

  /** `GestureDetectorSession`: its trajectories, cat bookkeeping, smoother and last timestamp. */
  class GestureDetectorSession<Pt> {
    var catTraj: seq<Pt>
    var catCooldownUntil: int
    var catMiss: nat
    var dTraj: seq<Pt>
    var yoTraj: seq<Pt>
    var zTraj: seq<Pt>
    const smoother: LabelSmoother
    var lastTs: int

    function Snap(): Session<Pt>
      reads this, smoother
    {
      Session(lastTs, smoother.hist, catTraj, dTraj, yoTraj, zTraj, catMiss, catCooldownUntil)
    }

    predicate Valid()
      reads this, smoother
    {
      smoother.maxlen == HistLen && SessionValid(Snap())
    }

    /** A new session: empty trajectories and history, no cooldown, timestamps from 0. */
    constructor ()
      ensures Valid() && fresh(smoother)
      ensures Snap() == Session(0, [], [], [], [], [], 0, 0)
    {
      catTraj := [];
      catCooldownUntil := 0;
      catMiss := 0;
      dTraj := [];
      yoTraj := [];
      zTraj := [];
      smoother := new LabelSmoother(HistLen);
      lastTs := 0;
    }

    /** `_ensure_ts(ts_ms)`. */
    method EnsureTimestamp(ts: int) returns (r: int)
      modifies this
      ensures r == EnsureTs(old(lastTs), ts) && lastTs == r
      ensures r > old(lastTs) && r >= ts
      ensures catTraj == old(catTraj) && dTraj == old(dTraj) && yoTraj == old(yoTraj) && zTraj == old(zTraj)
      ensures catMiss == old(catMiss) && catCooldownUntil == old(catCooldownUntil)
    {
      r := ts;
      if r <= lastTs {
        r := lastTs + 1;
      }
      lastTs := r;
    }

    /** `process_frame_bgr(frame, ts_ms)`. */
    method ProcessFrame<H>(g: Geometry<H, Pt>, frame: Frame<H>, ts: int) returns (r: Reading)
      requires Valid()
      modifies this, smoother
      ensures Valid()
      ensures (Snap(), r) == ProcessStep(old(Snap()), g, frame, ts)
    {
      var now := EnsureTimestamp(ts);
      if frame.NotImage? {
        return Reading(None, None, 0.0, 0, 0);
      }
      r := ProcessImage(g, frame.hands, now);
    }

    /** The part of `process_frame_bgr` after the frame has been checked to be an image. */
    method ProcessImage<H>(g: Geometry<H, Pt>, hands: seq<H>, now: int) returns (r: Reading)
      requires Valid()
      modifies this, smoother
      ensures Valid()
      ensures (Snap(), r) == ImageStep(old(Snap()), g, hands, now)
    {
      var raw := ClassifyHands(g, hands, now);
      smoother.Push(raw);
      var v := smoother.StableWithConfidence();
      r := Reading(raw, v.stable, v.confidence, v.votes, v.total);
    }

    /** The cascade with its digit fallback, or forgetting the trajectories when no hand is seen. */
    method ClassifyHands<H>(g: Geometry<H, Pt>, hands: seq<H>, now: int) returns (raw: Option<string>)
      requires Valid()
      modifies this
      ensures Valid()
      ensures (Snap(), raw) == Classify(old(Snap()), g, hands, now)
    {
      raw := None;
      if hands != [] {
        raw := RecognizeHands(g, hands, now);
        if raw.None? {
          raw := DigitFallback(g, hands[0]);
        }
      } else {
        dTraj := [];
        yoTraj := [];
        zTraj := [];
        catTraj := [];
        catMiss := 0;
      }
    }

    /** The branch of `process_frame_bgr` for a frame with hands. */
    method RecognizeHands<H>(g: Geometry<H, Pt>, hands: seq<H>, now: int) returns (raw: Option<string>)
      requires Valid() && hands != []
      modifies this
      ensures Valid()
      ensures (Snap(), raw) == Recognize(old(Snap()), g, hands, now)
    {
      RecognizeValid(Snap(), g, hands, now);
      if |hands| >= 2 {
        raw := TwoHands(g, hands[0], hands[1]);
        if raw.Some? {
          return;
        }
      }
      var h := hands[0];
      raw := CatStage(g, h, |hands|, now);
      raw := OneHandStage(g, h, raw);
    }

    /** The cat part of the one-hand branch. */
    method CatStage<H>(g: Geometry<H, Pt>, h: H, n: nat, now: int) returns (raw: Option<string>)
      requires Valid()
      modifies this
      ensures Valid()
      ensures (Snap(), raw) == CatStep(old(Snap()), g, h, n, now)
    {
      raw := None;
      if n != 1 {
        catTraj := [];
        catMiss := 0;
      }
      if now >= catCooldownUntil && n == 1 {
        if g.catPose(h) {
          catMiss := 0;
          catTraj := Push(catTraj, g.catPoint(h), CatTrajLen);
          if g.catGesture(catTraj) {
            raw := Some("КОШКА");
            catTraj := [];
            catMiss := 0;
            catCooldownUntil := now + CatCooldownMs;
          }
        } else {
          catMiss := catMiss + 1;
          if catMiss >= CatMaxMisses {
            catTraj := [];
            catMiss := 0;
          }
        }
      }
    }

    /** "0", the dynamic letters and the static letters. */
    method OneHandStage<H>(g: Geometry<H, Pt>, h: H, raw0: Option<string>) returns (raw: Option<string>)
      requires Valid()
      modifies this
      ensures Valid()
      ensures (Snap(), raw) == OneHand(old(Snap()), g, h, raw0)
    {
      raw := raw0;
      if raw.None? && |catTraj| < CatBlockZeroMinPts && g.zero(h) {
        raw := Some("0");
      }
      if raw.None? {
        var t := Track(dTraj, g.dPose(h), g.dPoint(h), DTrajLen, g.letterD, "Д");
        dTraj, raw := t.0, t.1;
      }
      if raw.None? {
        var t := Track(yoTraj, g.yoPose(h), g.yoPoint(h), YoTrajLen, g.letterYo, "Ё");
        yoTraj, raw := t.0, t.1;
      }
      if raw.None? {
        var t := Track(zTraj, g.zPose(h), g.zPoint(h), ZTrajLen, g.letterZ, "З");
        zTraj, raw := t.0, t.1;
      }
      if raw.None? {
        raw := StaticLetter(g, h);
      }
    }
  }
}
