/**
 * The live-practice page: word matching, the lesson key it completes, and the
 * reconnecting WebSocket transport that streams camera frames to the server
 * and receives recognised words back.
 *
 * Every handler of the transport is described twice: as a step function over
 * a `Transport` value (what the refs and the browser's sockets become), about
 * which the lemmas below are stated, and as a method of `Connection` that
 * updates the corresponding fields one by one and is proved to perform exactly
 * that step.
 */
module Practice {
  import opened Wrappers
  import opened Text
  import opened Json
  import opened Progress
  import Lessons

  // ---------------------------------------------------------------- matching

  /** `normalize(s)`: trim, lowercase, and turn every white-space run into one space. */
  function Normalize(s: string): string {
    CollapseSpaces(Lower(Trim(s)))
  }

  /** A normalized word has no white space at its ends, no upper-case letter the model
      folds, only single spaces inside, and normalizing it again changes nothing. */
  lemma {:induction false} NormalizeIdempotent(s: string)
    ensures NoEdgeSpace(Normalize(s), IsJsSpace) && Collapsed(Normalize(s))
    ensures Lower(Normalize(s)) == Normalize(s)
    ensures Normalize(Normalize(s)) == Normalize(s)
  {
    var t := Trim(s);
    var l := Lower(t);
    var n := CollapseSpaces(l);
    TrimSpec(s);
    if l != [] {
      LowerCharSpace(t[0]);
      LowerCharSpace(t[|t| - 1]);
    }
    assert NoEdgeSpace(l, IsJsSpace);
    CollapseSpacesShape(l);
    CollapseSpacesEdges(l);
    assert NoEdgeSpace(n, IsJsSpace);
    TrimOfNoEdgeSpace(n);
    var fixedByLower := (c: char) => LowerChar(c) == c;
    forall i | 0 <= i < |l| ensures fixedByLower(l[i]) {
      LowerCharIdempotent(t[i]);
    }
    CollapseSpacesChars(l, fixedByLower);
    assert Lower(n) == n;
    CollapseSpacesOfCollapsed(n);
  }

  /** Normalizing ignores case: a lower-cased word normalizes as the word does. */
  lemma {:induction false} NormalizeIgnoresCase(s: string)
    ensures Normalize(Lower(s)) == Normalize(s)
  {
    TrimLower(s);
    LowerIdempotent(Trim(s));
  }

  /** Normalizing ignores white space around the word: a trimmed word, or one with a space
      added on each side, normalizes as the word does. */
  lemma {:induction false} NormalizeIgnoresEdges(s: string)
    ensures Normalize(Trim(s)) == Normalize(s)
    ensures Normalize(" " + s + " ") == Normalize(s)
  {
    TrimIdempotent(s);
    TrimPadded(s);
  }

  /** A present word matches itself padded with spaces and lower-cased. */
  lemma {:induction false} MatchIgnoresCaseAndEdges(s: string)
    requires s != []
    ensures IsMatch(" " + s + " ", Lower(s))
  {
    NormalizeIgnoresCase(s);
    NormalizeIgnoresEdges(s);
    assert |Lower(s)| == |s|;
  }

  /** A recognised Cyrillic capital with a space on each side, " А " say, completes the topic
      that is its small letter, "а". */
  lemma MatchPaddedCapital(c: char)
    requires '\U{0410}' <= c <= '\U{042F}'
    ensures IsMatch(" " + [c] + " ", [(c as int + 32) as char])
  {
    assert LowerChar(c) == (c as int + 32) as char;
    LowerSingle(c);
    MatchPadded([c], [LowerChar(c)]);
  }

  /** A present word padded with a space on each side matches its lower-casing. */
  lemma MatchPadded(s: string, t: string)
    requires s != [] && Lower(s) == t
    ensures IsMatch(" " + s + " ", t)
  {
    MatchIgnoresCaseAndEdges(s);
  }

  /** `isMatch`: both words present and equal after normalizing. */
  predicate IsMatch(topicWord: string, detectedWord: string) {
    topicWord != [] && detectedWord != [] && Normalize(topicWord) == Normalize(detectedWord)
  }

  /** An absent word never matches. */
  lemma MatchNeedsBoth(w: string)
    ensures !IsMatch("", w) && !IsMatch(w, "")
  {
  }

  /** Matching is an equivalence on present words: symmetric, and reflexive on any
      word with a non-blank topic. */
  lemma MatchSymmetric(a: string, b: string)
    ensures IsMatch(a, b) == IsMatch(b, a)
    ensures a != [] ==> IsMatch(a, a)
  {
  }

  /** The practice page's `lessonKey`: the trimmed `lesson_id` query parameter when present,
      else `${category}:${order}` from the route. */
  function PracticeKey(lessonId: string, category: string, order: string): (k: string)
    ensures lessonId != [] ==> k == lessonId
    ensures lessonId == [] ==> k == category + ":" + order
  {
    if lessonId != [] then lessonId else category + ":" + order
  }

  /** The practice page's key is the lesson page's key: for a lesson with an id, its id given as
      `lesson_id`; for a lesson without one, no `lesson_id` and the lesson's category and order. */
  lemma PracticeKeyAgrees(slug: string, l: Lessons.Lesson, category: string, order: string)
    ensures l.lessonId.Some? ==>
              PracticeKey(Trim(IntToString(l.lessonId.value)), category, order) == Lessons.LessonKey(slug, l)
    ensures l.lessonId.None? && l.lessonOrder.Some? ==>
              PracticeKey(Trim(""), slug, IntToString(l.lessonOrder.value)) == Lessons.LessonKey(slug, l)
  {
    if l.lessonId.Some? {
      IdKeyAgrees(l.lessonId.value, category, order);
    } else if l.lessonOrder.Some? {
      PositionKeyAgrees(slug, l.lessonOrder.value);
    }
  }

  /** A rendered id passed as `lesson_id` is the key. */
  lemma IdKeyAgrees(id: int, category: string, order: string)
    ensures PracticeKey(Trim(IntToString(id)), category, order) == IntToString(id)
  {
    TrimIntToString(id);
  }

  /** No `lesson_id`, with the category and a rendered order, gives the position key. */
  lemma PositionKeyAgrees(slug: string, order: int)
    ensures PracticeKey(Trim(""), slug, IntToString(order)) == Lessons.PositionKey(slug, order)
  {
    TrimOfNoEdgeSpace("");
  }

  /** The query and route parameters the practice page is opened with. */
  datatype PracticeParams = PracticeParams(lessonId: string, category: string, order: string)

  /** The key the page computes from its parameters, as its constructor does. */
  function ParamsKey(p: PracticeParams): string {
    PracticeKey(Trim(p.lessonId), p.category, p.order)
  }

  /** `${lesson.lesson_id ?? ""}`. */
  function IdParam(l: Lessons.Lesson): string {
    if l.lessonId.Some? then IntToString(l.lessonId.value) else ""
  }

  /** The lesson page's practice button as written: `/practice?lesson_id=${lesson_id ?? ""}` names
      neither the category nor the order, so the page sees both as empty. */
  function ExercisePracticeLink(l: Lessons.Lesson): PracticeParams {
    PracticeParams(IdParam(l), "", "")
  }

  /** The button with the lesson's category and order passed along, which the page's key
      computation expects when there is no id. */
  function PracticeLink(slug: string, l: Lessons.Lesson): PracticeParams {
    PracticeParams(IdParam(l), slug, if l.lessonOrder.Some? then IntToString(l.lessonOrder.value) else "")
  }

  /** As written, a lesson without an id (every lesson of the built-in catalogs) is practised
      under the key ":", which is none of the keys the roadmap reads for it: completing it on the
      practice page, by a match or by the button, never completes it on the roadmap. */
  lemma ExerciseLinkLosesOfflineKey(slug: string, l: Lessons.Lesson, keys: seq<string>)
    requires l.lessonId.None? && l.lessonOrder.Some?
    ensures ParamsKey(ExercisePracticeLink(l)) == ":"
    ensures ParamsKey(ExercisePracticeLink(l)) != Lessons.LessonKey(slug, l)
    ensures Lessons.HasCompleted(slug, l, AddKey(keys, ParamsKey(ExercisePracticeLink(l)))) ==
            Lessons.HasCompleted(slug, l, keys)
    ensures Lessons.HasCompleted(slug, l, ToggleKey(keys, ParamsKey(ExercisePracticeLink(l)))) ==
            Lessons.HasCompleted(slug, l, keys)
  {
    var k := ParamsKey(ExercisePracticeLink(l));
    var pk := Lessons.PositionKey(slug, l.lessonOrder.value);
    assert k == ":";
    assert |pk| >= 2;
    AddKeyMembers(keys, k);
    ToggleKeyMembers(keys, k);
    Lessons.HasCompletedSpec(slug, l, keys);
    Lessons.HasCompletedSpec(slug, l, AddKey(keys, k));
    Lessons.HasCompletedSpec(slug, l, ToggleKey(keys, k));
  }

  /** With the category and order passed along, every lesson is practised under its own key, and
      completing it on the practice page completes it on the roadmap. */
  lemma PracticeLinkKeepsKey(slug: string, l: Lessons.Lesson, keys: seq<string>)
    ensures ParamsKey(PracticeLink(slug, l)) == Lessons.LessonKey(slug, l)
    ensures l.lessonId.Some? || l.lessonOrder.Some? ==>
              Lessons.HasCompleted(slug, l, AddKey(keys, ParamsKey(PracticeLink(slug, l))))
  {
    PracticeKeyAgrees(slug, l, slug, "");
    if l.lessonId.Some? || l.lessonOrder.Some? {
      Lessons.LessonKeyIsRead(slug, l);
      AddKeyMembers(keys, Lessons.LessonKey(slug, l));
    }
  }

  /** Auto-completion: the set with the lesson key added, the same set when it is there. */
  function AutoComplete(keys: seq<string>, key: string): (r: seq<string>)
    ensures key in keys ==> r == keys
    ensures key !in keys ==> r == keys + [key]
  {
    AddKey(keys, key)
  }

  /** Auto-completing twice is auto-completing once, and it never removes a key. */
  lemma AutoCompleteIdempotent(keys: seq<string>, key: string)
    ensures AutoComplete(AutoComplete(keys, key), key) == AutoComplete(keys, key)
    ensures key in AutoComplete(keys, key) && forall x :: x in keys ==> x in AutoComplete(keys, key)
    ensures Distinct(keys) ==> Distinct(AutoComplete(keys, key))
  {
    AddKeyMembers(keys, key);
  }

  // ---------------------------------------------------------------- inbound messages

  /** The `onmessage` body for one message: `None` for text that does not parse, otherwise the
      decoded value. The result is the word that replaces `detectedWord`, if any. */
  function InboundWord(data: Option<Json>): (r: Option<string>)
    ensures r.Some? <==>
              data.Some? && Field(data.value, "type") != Some(JString("ping")) &&
              Field(data.value, "word").Some? && Field(data.value, "word").value.JString? &&
              Trim(Field(data.value, "word").value.s) != []
    ensures r.Some? ==> r.value == Trim(Field(data.value, "word").value.s)
  {
    match data
    case None => None
    case Some(j) =>
      if Field(j, "type") == Some(JString("ping")) then None
      else match Field(j, "word")
        case Some(JString(w)) => if Trim(w) == [] then None else Some(Trim(w))
        case _ => None
  }

  /** What is kept is never blank and carries no white space at its ends. */
  lemma InboundWordShape(data: Option<Json>)
    ensures InboundWord(data).Some? ==>
              InboundWord(data).value != [] && NoEdgeSpace(InboundWord(data).value, IsJsSpace)
  {
    if InboundWord(data).Some? {
      TrimSpec(Field(data.value, "word").value.s);
    }
  }

  // ---------------------------------------------------------------- outbound frames

  /** The square source rectangle of a frame: side, and real offsets (JavaScript division). */
  datatype Crop = Crop(sx: real, sy: real, side: int)

  /** The centred square crop of a `vw` by `vh` video frame. */
  function CenterCrop(vw: int, vh: int): Crop {
    var side := if vw <= vh then vw else vh;
    Crop((vw - side) as real / 2.0, (vh - side) as real / 2.0, side)
  }

  /** The crop is a square of side min(vw, vh), equally far from both edges it does not
      touch, and lies inside the frame. */
  lemma CenterCropInside(vw: nat, vh: nat)
    ensures var c := CenterCrop(vw, vh);
            c.side == (if vw <= vh then vw else vh) && 0 <= c.side &&
            0.0 <= c.sx && c.sx + c.side as real + c.sx == vw as real &&
            0.0 <= c.sy && c.sy + c.side as real + c.sy == vh as real &&
            (c.sx == 0.0 || c.sy == 0.0)
  {
  }

  /** `JSON.stringify({ type: "frame", data: dataUrl })`, as the value the server decodes. */
  function FrameMessage(dataUrl: string): (m: Json)
    ensures Field(m, "type") == Some(JString("frame")) && Field(m, "data") == Some(JString(dataUrl))
  {
    JObject(map["type" := JString("frame"), "data" := JString(dataUrl)])
  }

  datatype Outgoing = Outgoing(crop: Crop, message: Json)

  const SendIntervalMs: real := 66.0
  const MaxBufferedAmount: int := 1000000
  /** `HTMLMediaElement.HAVE_CURRENT_DATA`. */
  const HaveCurrentData: int := 2

  // ---------------------------------------------------------------- reconnect backoff

  function Pow2(n: nat): (r: nat)
    ensures r >= 1
  {
    if n == 0 then 1 else 2 * Pow2(n - 1)
  }

  /** `Math.min(500 * Math.pow(2, Math.min(attempt, 5)), 10000)`. */
  function BackoffDelay(attempt: nat): nat {
    var e := if attempt <= 5 then attempt else 5;
    var d := 500 * Pow2(e);
    if d <= 10000 then d else 10000
  }

  lemma {:induction false} Pow2Monotone(a: nat, b: nat)
    requires a <= b
    ensures Pow2(a) <= Pow2(b)
    decreases b
  {
    if a < b {
      Pow2Monotone(a, b - 1);
    }
  }

  /** The delay grows 500, 1000, 2000, 4000, 8000 and then stays at the 10-second cap. */
  lemma BackoffValues()
    ensures BackoffDelay(0) == 500 && BackoffDelay(1) == 1000 && BackoffDelay(2) == 2000
    ensures BackoffDelay(3) == 4000 && BackoffDelay(4) == 8000
    ensures forall a: nat :: a >= 5 ==> BackoffDelay(a) == 10000
  {
    assert Pow2(5) == 32;
  }

  /** The delay is always between half a second and ten seconds, and never shrinks as
      the attempt count grows. */
  lemma BackoffBounds(a: nat, b: nat)
    ensures 500 <= BackoffDelay(a) <= 10000
    ensures a <= b ==> BackoffDelay(a) <= BackoffDelay(b)
  {
    var ea := if a <= 5 then a else 5;
    var eb := if b <= 5 then b else 5;
    if a <= b {
      Pow2Monotone(ea, eb);
    }
  }

  // ---------------------------------------------------------------- sockets

  /** `WebSocket.readyState`. */
  datatype ReadyState = Connecting | Open | Closing | Closed

  /** A socket the browser holds; `attached` is false once its four handlers are set to null. */
  datatype Socket = Socket(readyState: ReadyState, attached: bool)

  predicate Winding(r: ReadyState) {
    r == Closing || r == Closed
  }

  /** The codes `WebSocket.close(code)` accepts; any other code throws an `InvalidAccessError`. */
  predicate CloseAccepted(code: int) {
    code == 1000 || 3000 <= code <= 4999
  }

  /** The browser's `socket.close(code)`: a rejected code throws and changes nothing; otherwise a
      socket that is connecting or open starts closing. */
  function BrowserClose(s: Socket, code: int): Socket {
    if CloseAccepted(code) && (s.readyState == Connecting || s.readyState == Open) then s.(readyState := Closing)
    else s
  }

  /** After an accepted close the socket is on its way down; a rejected code leaves it as it was. */
  lemma BrowserCloseResult(s: Socket, code: int)
    ensures CloseAccepted(code) ==> Winding(BrowserClose(s, code).readyState) || s.readyState == Closed
    ensures !CloseAccepted(code) ==> BrowserClose(s, code) == s
    ensures BrowserClose(s, code).attached == s.attached
  {
  }

  // ---------------------------------------------------------------- the transport as a value

  datatype WsStatus = WsConnecting | WsConnected | WsDisconnected

  const TextConnecting := "Соединяем\U{2026}"
  const TextConnected := "Подключено"
  const TextNoConnection := "Нет соединения"
  const TextPaused := "Пауза (вкладка скрыта)"

  /** The refs of the transport, the browser's sockets (keyed by the sequence number each was
      created with) and the two status fields. `timer` is the delay of the pending reconnect timer,
      `None` when no timer is pending: the source leaves a fired timer's id in `reconnectTimerRef`,
      where the only later use, `clearTimeout`, does nothing with it. */
  datatype Transport = Transport(
    ws: Option<nat>,
    connecting: bool,
    shouldReconnect: bool,
    timer: Option<nat>,
    attempt: nat,
    pending: bool,
    wsSeq: nat,
    activeSeq: nat,
    sockets: map<nat, Socket>,
    status: WsStatus,
    statusText: string)

  /** The refs right after the first render, before the mount effect runs. */
  const Initial := Transport(None, false, true, None, 0, false, 0, 0, map[], WsConnecting, TextConnecting)

  /** What the transport guarantees between events: the active socket is the newest one; every
      older socket is closing or closed; `wsRef` names the active socket while it is not closed,
      and a live active socket always has `wsRef`; a pending timer means the active socket has
      closed and a reconnect is wanted. */
  ghost predicate TransportValid(t: Transport) {
    t.activeSeq == t.wsSeq &&
    (forall k :: k in t.sockets <==> 1 <= k <= t.wsSeq) &&
    (forall k :: k in t.sockets && k != t.activeSeq ==> Winding(t.sockets[k].readyState)) &&
    (t.ws.Some? ==>
       t.ws.value == t.activeSeq && t.activeSeq in t.sockets &&
       t.sockets[t.activeSeq].attached && t.sockets[t.activeSeq].readyState != Closed) &&
    (t.ws.None? && t.activeSeq in t.sockets ==> Winding(t.sockets[t.activeSeq].readyState)) &&
    (t.timer.Some? ==>
       t.ws.None? && t.shouldReconnect && !t.connecting &&
       t.activeSeq in t.sockets && t.sockets[t.activeSeq].readyState == Closed)
  }

  /** A socket's handlers act only if they are still attached and it is the active socket. */
  predicate Handles(t: Transport, k: nat) {
    k in t.sockets && t.sockets[k].attached && k == t.activeSeq
  }

  /** `wsRef` names a socket that is open or connecting. */
  predicate Live(t: Transport) {
    t.ws.Some? && t.ws.value in t.sockets &&
    (t.sockets[t.ws.value].readyState == Open || t.sockets[t.ws.value].readyState == Connecting)
  }

  /** `closeWs(code)`: cancel the reconnect timer, close the socket `wsRef` names, forget it. */
  function CloseWsStep(t: Transport, code: int): Transport {
    if t.ws.Some? && t.ws.value in t.sockets then
      t.(timer := None, ws := None, sockets := t.sockets[t.ws.value := BrowserClose(t.sockets[t.ws.value], code)])
    else t.(timer := None, ws := None)
  }

  /** Detach and close the socket `wsRef` names unless it is closed. */
  function Replace(t: Transport): Transport {
    if t.ws.Some? && t.ws.value in t.sockets && t.sockets[t.ws.value].readyState != Closed then
      t.(ws := None, sockets := t.sockets[t.ws.value := BrowserClose(t.sockets[t.ws.value].(attached := false), 1000)])
    else t
  }

  /** The part of `connectWs` past its guards: unless an attempt is in progress, number the next
      socket, make it the active one and `wsRef`, and create it. */
  function Spawn(t: Transport): Transport {
    if t.connecting then t
    else
      var n := t.wsSeq + 1;
      t.(connecting := true, wsSeq := n, activeSeq := n, ws := Some(n), sockets := t.sockets[n := Socket(Connecting, true)])
  }

  /** `connectWs(force)` while the tab is `hidden` or not. */
  function ConnectStep(t: Transport, hidden: bool, force: bool): Transport {
    if hidden then t
    else if !force && Live(t) then t.(timer := None)
    else Spawn(Replace(t.(timer := None)))
  }

  /** The browser opens socket `k`, then its `onopen` runs. */
  function OpenStep(t: Transport, k: nat): Transport
    requires k in t.sockets
  {
    var r := t.(sockets := t.sockets[k := t.sockets[k].(readyState := Open)]);
    if Handles(t, k) then r.(connecting := false, attempt := 0, status := WsConnected, statusText := TextConnected)
    else r
  }

  /** The `onerror` handler of socket `k`. */
  function ErrorStep(t: Transport, k: nat): Transport {
    if Handles(t, k) then t.(connecting := false) else t
  }

  /** The browser closes socket `k`, then its `onclose` runs. */
  function CloseEventStep(t: Transport, k: nat, hidden: bool): Transport
    requires k in t.sockets
  {
    var r := t.(sockets := t.sockets[k := t.sockets[k].(readyState := Closed)]);
    if !Handles(t, k) then r
    else AfterClose(r.(connecting := false, ws := None, status := WsDisconnected, statusText := TextNoConnection), hidden)
  }

  /** The rest of the active socket's `onclose`, once the disconnection is reported: reconnect at
      once for a pending manual reconnect, otherwise schedule the reconnect timer. */
  function AfterClose(t: Transport, hidden: bool): Transport {
    if !t.shouldReconnect || hidden then t
    else if t.pending then ConnectStep(t.(pending := false, attempt := 0), hidden, false)
    else t.(status := WsConnecting, statusText := TextConnecting, timer := Some(BackoffDelay(t.attempt)))
  }

  /** The reconnect timer fires: one more attempt, then `connectWs(false)`. The timer is no
      longer pending, so `timer` becomes `None`. */
  function TimerStep(t: Transport, hidden: bool): Transport {
    ConnectStep(t.(timer := None, attempt := t.attempt + 1), hidden, false)
  }

  /** `reconnectNow()`: close a socket that is not closed and let its `onclose` reconnect at
      once, or connect directly. */
  function ReconnectStep(t: Transport, hidden: bool): Transport {
    var r := t.(pending := true, shouldReconnect := true, attempt := 0);
    if r.ws.Some? && r.ws.value in r.sockets && r.sockets[r.ws.value].readyState != Closed then
      r.(sockets := r.sockets[r.ws.value := BrowserClose(r.sockets[r.ws.value], 1000)])
    else ConnectStep(r, hidden, true)
  }

  /** The close code the model's tab-hidden branch closes with: 1000, which `WebSocket.close`
      accepts. The source passes 1001, which it rejects; `VisibilityStepAsWritten` is that. */
  const HideCloseCode := 1000

  /** The `visibilitychange` listener with the close code corrected to 1000: pause and close
      when hidden, reconnect at once when shown. */
  function VisibilityStep(t: Transport, nowHidden: bool): Transport {
    if nowHidden then CloseWsStep(t.(shouldReconnect := false, status := WsDisconnected, statusText := TextPaused), HideCloseCode)
    else ReconnectStep(t.(shouldReconnect := true), false)
  }

  /** The listener with the code the source passes, 1001, which `WebSocket.close` rejects. */
  function VisibilityStepAsWritten(t: Transport, nowHidden: bool): Transport {
    if nowHidden then CloseWsStep(t.(shouldReconnect := false, status := WsDisconnected, statusText := TextPaused), 1001)
    else ReconnectStep(t.(shouldReconnect := true), false)
  }

  /** The mount effect's cleanup. */
  function UnmountStep(t: Transport): Transport {
    CloseWsStep(t.(shouldReconnect := false), 1000)
  }

  /** The mount effect: `shouldReconnect = true; connectWs(false)`. */
  function MountStep(hidden: bool): Transport {
    ConnectStep(Initial.(shouldReconnect := true), hidden, false)
  }

  // ---------------------------------------------------------------- what the transport guarantees

  /** Mounting with the tab visible opens socket number 1 and nothing else. */
  lemma MountConnects(hidden: bool)
    ensures TransportValid(MountStep(hidden))
    ensures !hidden ==> MountStep(hidden).ws == Some(1) && MountStep(hidden).sockets == map[1 := Socket(Connecting, true)]
    ensures hidden ==> MountStep(hidden).sockets == map[] && MountStep(hidden).ws.None?
  {
  }

  /** `connectWs` does nothing while the tab is hidden. */
  lemma ConnectWhileHidden(t: Transport, force: bool)
    ensures ConnectStep(t, true, force) == t
  {
  }

  /** `connectWs(false)` does nothing while `wsRef` names an open or connecting socket. */
  lemma ConnectWhileLive(t: Transport, hidden: bool)
    requires TransportValid(t) && Live(t)
    ensures ConnectStep(t, hidden, false) == t
  {
  }

  lemma ReplaceKeeps(t: Transport)
    requires TransportValid(t)
    ensures Replace(t).wsSeq == t.wsSeq && Replace(t).activeSeq == t.activeSeq && Replace(t).connecting == t.connecting
    ensures Replace(t).sockets.Keys == t.sockets.Keys
    ensures Replace(t).ws.None?
    ensures forall k :: k in t.sockets && k != t.activeSeq ==> Replace(t).sockets[k] == t.sockets[k]
    ensures t.activeSeq in t.sockets ==> Winding(Replace(t).sockets[t.activeSeq].readyState)
  {
  }

  /** A new socket gets a number above every earlier one, becomes the active socket and `wsRef`,
      and starts connecting; the earlier sockets are untouched except the one `wsRef` named,
      which is detached and closed. */
  lemma ConnectCreates(t: Transport, force: bool)
    requires TransportValid(t) && !t.connecting
    requires force || !Live(t)
    ensures var r := ConnectStep(t, false, force);
            r.wsSeq == t.wsSeq + 1 && r.activeSeq == r.wsSeq && r.ws == Some(r.activeSeq) &&
            (forall k :: k in t.sockets ==> k < r.activeSeq) &&
            r.sockets[r.activeSeq] == Socket(Connecting, true) && r.connecting && r.timer.None? &&
            (forall k :: k in t.sockets && Some(k) != t.ws ==> r.sockets[k] == t.sockets[k]) &&
            (t.ws.Some? ==> !r.sockets[t.ws.value].attached && Winding(r.sockets[t.ws.value].readyState))
  {
    ReplaceKeeps(t.(timer := None));
  }

  /** Every step keeps the transport guarantees. */
  lemma {:induction false} ConnectPreservesValid(t: Transport, hidden: bool, force: bool)
    requires TransportValid(t)
    ensures TransportValid(ConnectStep(t, hidden, force))
  {
    if !hidden && !(!force && Live(t)) {
      var t1 := t.(timer := None);
      assert TransportValid(t1);
      ReplaceKeeps(t1);
      SpawnPreservesValid(Replace(t1));
    }
  }

  lemma SpawnPreservesValid(r: Transport)
    requires TransportValid(r) && r.ws.None? && r.timer.None?
    ensures TransportValid(Spawn(r))
  {
    if !r.connecting {
      var s := Spawn(r);
      assert forall k :: k in s.sockets && k != s.activeSeq ==> k in r.sockets && s.sockets[k] == r.sockets[k];
      assert forall k :: k in r.sockets ==> Winding(r.sockets[k].readyState);
    }
  }

  lemma OpenPreservesValid(t: Transport, k: nat)
    requires TransportValid(t) && k in t.sockets && t.sockets[k].readyState == Connecting
    ensures TransportValid(OpenStep(t, k))
  {
  }

  lemma ErrorPreservesValid(t: Transport, k: nat)
    requires TransportValid(t)
    ensures TransportValid(ErrorStep(t, k))
  {
  }

  lemma CloseEventPreservesValid(t: Transport, k: nat, hidden: bool)
    requires TransportValid(t) && k in t.sockets && t.sockets[k].readyState != Closed
    ensures TransportValid(CloseEventStep(t, k, hidden))
  {
    var r := t.(sockets := t.sockets[k := t.sockets[k].(readyState := Closed)]);
    if Handles(t, k) {
      var r2 := r.(connecting := false, ws := None, status := WsDisconnected, statusText := TextNoConnection);
      assert t.timer.None?;
      assert TransportValid(r2);
      if r2.shouldReconnect && !hidden && r2.pending {
        ConnectPreservesValid(r2.(pending := false, attempt := 0), hidden, false);
      }
    }
  }

  lemma TimerPreservesValid(t: Transport, hidden: bool)
    requires TransportValid(t)
    ensures TransportValid(TimerStep(t, hidden))
  {
    ConnectPreservesValid(t.(timer := None, attempt := t.attempt + 1), hidden, false);
  }

  lemma ReconnectPreservesValid(t: Transport, hidden: bool)
    requires TransportValid(t)
    ensures TransportValid(ReconnectStep(t, hidden))
  {
    ConnectPreservesValid(t.(pending := true, shouldReconnect := true, attempt := 0), hidden, true);
  }

  lemma VisibilityPreservesValid(t: Transport, nowHidden: bool)
    requires TransportValid(t)
    ensures TransportValid(VisibilityStep(t, nowHidden))
  {
    ReconnectPreservesValid(t.(shouldReconnect := true), false);
  }

  lemma UnmountPreservesValid(t: Transport)
    requires TransportValid(t)
    ensures TransportValid(UnmountStep(t))
  {
  }

  /** Open, error and close events of a socket that is not the active one, or whose handlers were
      detached, change nothing but that socket's `readyState`. */
  lemma StaleEventsInert(t: Transport, k: nat, hidden: bool)
    requires k in t.sockets && !Handles(t, k)
    ensures OpenStep(t, k) == t.(sockets := t.sockets[k := t.sockets[k].(readyState := Open)])
    ensures ErrorStep(t, k) == t
    ensures CloseEventStep(t, k, hidden) == t.(sockets := t.sockets[k := t.sockets[k].(readyState := Closed)])
  {
  }

  /** The active socket's open resets the attempt count and reports the connection. */
  lemma OpenResets(t: Transport, k: nat)
    requires Handles(t, k)
    ensures OpenStep(t, k).attempt == 0 && !OpenStep(t, k).connecting
    ensures OpenStep(t, k).status == WsConnected && OpenStep(t, k).statusText == TextConnected
  {
  }

  /** A manual reconnect resets the attempt count, asks for a reconnect, and either starts closing
      the current socket (whose close then reconnects at once) or creates a new one. */
  lemma ReconnectResets(t: Transport, hidden: bool)
    requires TransportValid(t) && !t.connecting
    ensures var r := ReconnectStep(t, hidden);
            r.attempt == 0 && r.pending && r.shouldReconnect
    ensures t.ws.Some? ==> ReconnectStep(t, hidden).ws == t.ws &&
                           Winding(ReconnectStep(t, hidden).sockets[t.activeSeq].readyState)
    ensures t.ws.None? && !hidden ==> ReconnectStep(t, hidden).ws == Some(t.wsSeq + 1)
  {
    if t.ws.None? && !hidden {
      ConnectCreates(t.(pending := true, shouldReconnect := true, attempt := 0), true);
    }
  }

  /** When the active socket closes and a reconnect is wanted: a pending manual reconnect opens
      the next socket at once with a fresh attempt count and no timer; otherwise a timer is set
      for `BackoffDelay(attempt)` and no socket is created yet. */
  lemma CloseReconnects(t: Transport, k: nat)
    requires TransportValid(t) && Handles(t, k) && t.sockets[k].readyState != Closed && t.shouldReconnect
    ensures var r := CloseEventStep(t, k, false);
            t.pending ==> r.ws == Some(t.wsSeq + 1) && r.timer.None? && !r.pending && r.attempt == 0
    ensures var r := CloseEventStep(t, k, false);
            !t.pending ==> r.timer == Some(BackoffDelay(t.attempt)) && r.ws.None? && r.wsSeq == t.wsSeq &&
                           r.status == WsConnecting && r.statusText == TextConnecting
  {
    var r := t.(sockets := t.sockets[k := t.sockets[k].(readyState := Closed)]);
    var r2 := r.(connecting := false, ws := None, status := WsDisconnected, statusText := TextNoConnection);
    if t.pending {
      assert TransportValid(r2);
      ConnectCreates(r2.(pending := false, attempt := 0), false);
    }
  }

  /** Without a wanted reconnect, or while hidden, the active socket's close only reports the
      disconnection. */
  lemma CloseStaysDown(t: Transport, k: nat, hidden: bool)
    requires Handles(t, k) && (!t.shouldReconnect || hidden)
    ensures var r := CloseEventStep(t, k, hidden);
            r.ws.None? && r.wsSeq == t.wsSeq && r.timer == t.timer && !r.connecting &&
            r.status == WsDisconnected && r.statusText == TextNoConnection
  {
  }

  /** The reconnect timer's fire counts one more attempt and, with the tab visible, opens the
      next socket. */
  lemma TimerReconnects(t: Transport)
    requires TransportValid(t) && t.timer.Some?
    ensures TimerStep(t, false).attempt == t.attempt + 1
    ensures TimerStep(t, false).ws == Some(t.wsSeq + 1) && TimerStep(t, false).timer.None?
  {
    ConnectCreates(t.(timer := None, attempt := t.attempt + 1), false);
  }

  /** Hiding the tab stops the transport: no `wsRef`, no timer, no wish to reconnect, every
      socket closing or closed, and nothing that follows while hidden creates a socket. */
  lemma HideQuiesces(t: Transport)
    requires TransportValid(t)
    ensures var r := VisibilityStep(t, true);
            r.ws.None? && r.timer.None? && !r.shouldReconnect &&
            (forall k :: k in r.sockets ==> Winding(r.sockets[k].readyState)) &&
            r.status == WsDisconnected && r.statusText == TextPaused
    ensures forall force :: ConnectStep(VisibilityStep(t, true), true, force) == VisibilityStep(t, true)
    ensures forall k :: k in VisibilityStep(t, true).sockets ==>
              CloseEventStep(VisibilityStep(t, true), k, true).wsSeq == t.wsSeq
  {
  }

  /** As written, hiding the tab while the socket is open leaves that socket open with its handlers
      attached, while `wsRef` forgets it; showing the tab again then opens a second socket beside it. */
  lemma HideAsWrittenLeaks(t: Transport)
    requires TransportValid(t) && t.ws.Some? && t.sockets[t.ws.value].readyState == Open && !t.connecting
    ensures var r := VisibilityStepAsWritten(t, true);
            r.ws.None? && r.sockets[t.activeSeq] == Socket(Open, true) && !TransportValid(r)
    ensures var s := VisibilityStepAsWritten(VisibilityStepAsWritten(t, true), false);
            s.sockets[t.activeSeq] == Socket(Open, true) && s.ws == Some(t.wsSeq + 1) &&
            s.sockets[t.wsSeq + 1] == Socket(Connecting, true)
  {
    assert !CloseAccepted(1001);
  }

  /** After unmounting, no timer is left, nothing will reconnect, and a later close event of any
      socket creates no new one. */
  lemma UnmountStops(t: Transport)
    requires TransportValid(t)
    ensures var r := UnmountStep(t);
            r.ws.None? && r.timer.None? && !r.shouldReconnect &&
            forall k :: k in r.sockets ==> (CloseEventStep(r, k, false).wsSeq == t.wsSeq &&
                                           CloseEventStep(r, k, false).timer.None?)
  {
  }

  /** No timer, no `wsRef` and no wish to reconnect: the transport once the page is gone. */
  predicate Quiet(t: Transport) {
    !t.shouldReconnect && t.ws.None? && t.timer.None?
  }

  /** Socket events arriving after the page has gone away never bring the transport back. */
  lemma QuietAfterOpen(t: Transport, k: nat)
    requires Quiet(t) && k in t.sockets
    ensures Quiet(OpenStep(t, k))
  {
  }

  lemma QuietAfterError(t: Transport, k: nat)
    requires Quiet(t)
    ensures Quiet(ErrorStep(t, k))
  {
  }

  lemma QuietAfterClose(t: Transport, k: nat, hidden: bool)
    requires Quiet(t) && k in t.sockets
    ensures Quiet(CloseEventStep(t, k, hidden)) && CloseEventStep(t, k, hidden).wsSeq == t.wsSeq
  {
  }

  // ---------------------------------------------------------------- the page

  /** The transport refs of the practice page, the browser's sockets, the tab's visibility, and
      whether the page is still mounted (its visibility listener registered). */
  class Connection {
    var ws: Option<nat>
    var connecting: bool
    var shouldReconnect: bool
    var reconnectTimer: Option<nat>
    var reconnectAttempt: nat
    var pendingReconnect: bool
    var wsSeq: nat
    var activeSeq: nat
    var sockets: map<nat, Socket>
    var status: WsStatus
    var statusText: string
    var hidden: bool
    var mounted: bool

    function Snap(): Transport
      reads this
    {
      Transport(ws, connecting, shouldReconnect, reconnectTimer, reconnectAttempt, pendingReconnect,
                wsSeq, activeSeq, sockets, status, statusText)
    }

    ghost predicate Valid()
      reads this
    {
      TransportValid(Snap()) && (!mounted ==> Quiet(Snap()))
    }

    /** The handlers of socket `k` still act: the page is mounted, and `k` is the attached active socket. */
    predicate Acts(k: nat)
      reads this
    {
      mounted && k in sockets && sockets[k].attached && k == activeSeq
    }

    /** The first render and the mount effect: the refs start empty, then `connectWs(false)`. */
    constructor (hidden: bool)
      ensures this.hidden == hidden && mounted
      ensures Snap() == MountStep(hidden)
      ensures Valid()
    {
      ws := None;
      connecting := false;
      shouldReconnect := true;
      reconnectTimer := None;
      reconnectAttempt := 0;
      pendingReconnect := false;
      wsSeq := 0;
      activeSeq := 0;
      sockets := map[];
      status := WsConnecting;
      statusText := TextConnecting;
      this.hidden := hidden;
      mounted := true;
      new;
      shouldReconnect := true;
      ConnectWs(false);
      MountConnects(hidden);
    }

    /** `closeWs(code)`: `cleanupReconnectTimer()`, then close and forget `wsRef`. */
    method CloseWs(code: int)
      modifies this
      ensures Snap() == CloseWsStep(old(Snap()), code)
      ensures hidden == old(hidden) && mounted == old(mounted)
    {
      reconnectTimer := None;
      if ws.Some? {
        if ws.value in sockets {
          sockets := sockets[ws.value := BrowserClose(sockets[ws.value], code)];
        }
        ws := None;
      }
    }

    /** `connectWs(force)`. */
    method ConnectWs(force: bool)
      modifies this
      ensures Snap() == ConnectStep(old(Snap()), hidden, force)
      ensures hidden == old(hidden) && mounted == old(mounted)
    {
      if hidden {
        return;
      }
      reconnectTimer := None;
      if !force && ws.Some? && ws.value in sockets &&
         (sockets[ws.value].readyState == Open || sockets[ws.value].readyState == Connecting) {
        return;
      }
      DropExisting();
      SpawnSocket();
    }

    /** The part of `connectWs` that detaches and closes a socket `wsRef` names, unless it is closed. */
    method DropExisting()
      modifies this
      ensures Snap() == Replace(old(Snap()))
      ensures hidden == old(hidden) && mounted == old(mounted)
    {
      if ws.Some? && ws.value in sockets && sockets[ws.value].readyState != Closed {
        sockets := sockets[ws.value := BrowserClose(sockets[ws.value].(attached := false), 1000)];
        ws := None;
      }
    }

    /** The part of `connectWs` that, unless a connection attempt is in progress, numbers the next
        socket, makes it the active one and creates it. */
    method SpawnSocket()
      modifies this
      ensures Snap() == Spawn(old(Snap()))
      ensures hidden == old(hidden) && mounted == old(mounted)
    {
      if connecting {
        return;
      }
      connecting := true;
      wsSeq := wsSeq + 1;
      activeSeq := wsSeq;
      sockets := sockets[wsSeq := Socket(Connecting, true)];
      ws := Some(wsSeq);
    }

    /** The browser opens socket `k`; its `onopen` acts only for the active sequence number. */
    method DeliverOpen(k: nat)
      requires Valid() && k in sockets && sockets[k].readyState == Connecting
      modifies this
      ensures Snap() == OpenStep(old(Snap()), k)
      ensures hidden == old(hidden) && mounted == old(mounted)
      ensures Valid()
    {
      OpenPreservesValid(Snap(), k);
      if !mounted {
        QuietAfterOpen(Snap(), k);
      }
      OnOpen(k);
    }

    /** The socket's `readyState` becomes open, then its `onopen` handler runs. */
    method OnOpen(k: nat)
      requires k in sockets
      modifies this
      ensures Snap() == OpenStep(old(Snap()), k)
      ensures hidden == old(hidden) && mounted == old(mounted)
    {
      var handles := sockets[k].attached && activeSeq == k;
      sockets := sockets[k := sockets[k].(readyState := Open)];
      if handles {
        connecting, reconnectAttempt, status, statusText := false, 0, WsConnected, TextConnected;
      }
    }

    /** The browser reports an error on socket `k`. */
    method DeliverError(k: nat)
      requires Valid() && k in sockets && sockets[k].readyState != Closed
      modifies this
      ensures Snap() == ErrorStep(old(Snap()), k)
      ensures hidden == old(hidden) && mounted == old(mounted)
      ensures Valid()
    {
      ErrorPreservesValid(Snap(), k);
      if !mounted {
        QuietAfterError(Snap(), k);
      }
      if sockets[k].attached && activeSeq == k {
        connecting := false;
      }
    }

    /** The browser closes socket `k`; its `onclose` acts only for the active sequence number. */
    method DeliverClose(k: nat)
      requires Valid() && k in sockets && sockets[k].readyState != Closed
      modifies this
      ensures Snap() == CloseEventStep(old(Snap()), k, hidden)
      ensures hidden == old(hidden) && mounted == old(mounted)
      ensures Valid()
    {
      CloseEventPreservesValid(Snap(), k, hidden);
      if !mounted {
        QuietAfterClose(Snap(), k, hidden);
      }
      OnClose(k);
    }

    /** The socket's `readyState` becomes closed, then its `onclose` handler runs. */
    method OnClose(k: nat)
      requires k in sockets
      modifies this
      ensures Snap() == CloseEventStep(old(Snap()), k, hidden)
      ensures hidden == old(hidden) && mounted == old(mounted)
    {
      ghost var t := Snap();
      var handles := sockets[k].attached && activeSeq == k;
      sockets := sockets[k := sockets[k].(readyState := Closed)];
      if handles {
        connecting, ws, status, statusText := false, None, WsDisconnected, TextNoConnection;
        assert Snap() == t.(sockets := t.sockets[k := t.sockets[k].(readyState := Closed)]).(
          connecting := false, ws := None, status := WsDisconnected, statusText := TextNoConnection);
        ReconnectAfterClose();
      }
    }

    /** The tail of the active socket's `onclose`. */
    method ReconnectAfterClose()
      modifies this
      ensures Snap() == AfterClose(old(Snap()), hidden)
      ensures hidden == old(hidden) && mounted == old(mounted)
    {
      if !shouldReconnect || hidden {
        return;
      }
      if pendingReconnect {
        ghost var t := Snap();
        pendingReconnect, reconnectAttempt := false, 0;
        assert Snap() == t.(pending := false, attempt := 0);
        ConnectWs(false);
        return;
      }
      status, statusText, reconnectTimer := WsConnecting, TextConnecting, Some(BackoffDelay(reconnectAttempt));
    }

    /** The reconnect timer fires: one more attempt, then `connectWs(false)`. */
    method TimerFire()
      requires Valid() && reconnectTimer.Some?
      modifies this
      ensures Snap() == TimerStep(old(Snap()), hidden)
      ensures hidden == old(hidden) && mounted == old(mounted)
      ensures Valid()
    {
      TimerPreservesValid(Snap(), hidden);
      OnTimer();
    }

    /** The timer callback: count the attempt and `connectWs(false)`; the fired timer is no
        longer pending, which `reconnectTimer` records as `None`. */
    method OnTimer()
      modifies this
      ensures Snap() == TimerStep(old(Snap()), hidden)
      ensures hidden == old(hidden) && mounted == old(mounted)
    {
      ghost var t := Snap();
      reconnectTimer, reconnectAttempt := None, reconnectAttempt + 1;
      assert Snap() == t.(timer := None, attempt := t.attempt + 1);
      ConnectWs(false);
    }

    /** `reconnectNow()`, the manual reconnect button. */
    method ReconnectNow()
      requires Valid() && mounted
      modifies this
      ensures Snap() == ReconnectStep(old(Snap()), hidden)
      ensures hidden == old(hidden) && mounted == old(mounted)
      ensures Valid()
    {
      ReconnectPreservesValid(Snap(), hidden);
      Reconnect();
    }

    /** The body of `reconnectNow()`. */
    method Reconnect()
      modifies this
      ensures Snap() == ReconnectStep(old(Snap()), hidden)
      ensures hidden == old(hidden) && mounted == old(mounted)
    {
      ghost var t := Snap();
      pendingReconnect, shouldReconnect, reconnectAttempt := true, true, 0;
      assert Snap() == t.(pending := true, shouldReconnect := true, attempt := 0);
      if ws.Some? && ws.value in sockets && sockets[ws.value].readyState != Closed {
        sockets := sockets[ws.value := BrowserClose(sockets[ws.value], 1000)];
        return;
      }
      ConnectWs(true);
    }

    /** The tab becomes hidden or visible and the `visibilitychange` listener runs, with the
        close code corrected to 1000. */
    method VisibilityChange(nowHidden: bool)
      requires Valid() && mounted
      modifies this
      ensures hidden == nowHidden && mounted
      ensures Snap() == VisibilityStep(old(Snap()), nowHidden)
      ensures Valid()
    {
      VisibilityPreservesValid(Snap(), nowHidden);
      OnVisibility(nowHidden);
    }

    /** The body of the `visibilitychange` listener, with the close code corrected to 1000. */
    method OnVisibility(nowHidden: bool)
      modifies this
      ensures hidden == nowHidden && mounted == old(mounted)
      ensures Snap() == VisibilityStep(old(Snap()), nowHidden)
    {
      ghost var t := Snap();
      hidden := nowHidden;
      if nowHidden {
        shouldReconnect, status, statusText := false, WsDisconnected, TextPaused;
        assert Snap() == t.(shouldReconnect := false, status := WsDisconnected, statusText := TextPaused);
        CloseWs(HideCloseCode);
      } else {
        shouldReconnect := true;
        assert Snap() == t.(shouldReconnect := true);
        Reconnect();
      }
    }

    /** The mount effect's cleanup: listener removed, reconnects off, socket closed with 1000. */
    method Unmount()
      requires Valid()
      modifies this
      ensures !mounted && hidden == old(hidden)
      ensures Snap() == UnmountStep(old(Snap()))
      ensures Valid()
    {
      UnmountPreservesValid(Snap());
      mounted := false;
      shouldReconnect := false;
      CloseWs(1000);
    }
  }

  /** The `requestAnimationFrame` loop of the practice page and its `lastSentRef`. */
  class FrameLoop {
    var lastSent: real

    constructor ()
      ensures lastSent == 0.0
    {
      lastSent := 0.0;
    }

    /** One tick of `sendFrame(time)` over transport `link`, for the socket's `bufferedAmount`, the
        video's `readyState` and size, and the JPEG data URL the canvas would produce. */
    method SendFrame(link: Connection, time: real, bufferedAmount: int, videoReadyState: int, vw: nat, vh: nat, dataUrl: string)
      returns (sent: Option<Outgoing>)
      modifies this
      ensures sent.Some? <==>
                !link.hidden && link.ws.Some? && link.ws.value in link.sockets &&
                link.sockets[link.ws.value].readyState == Open &&
                time - old(lastSent) >= SendIntervalMs && bufferedAmount <= MaxBufferedAmount &&
                videoReadyState >= HaveCurrentData
      ensures sent.Some? ==> lastSent == time && sent.value == Outgoing(CenterCrop(vw, vh), FrameMessage(dataUrl))
      ensures sent.None? ==> lastSent == old(lastSent)
    {
      if link.hidden {
        return None;
      }
      var w := link.ws;
      if w.None? || w.value !in link.sockets || link.sockets[w.value].readyState != Open {
        return None;
      }
      if time - lastSent < SendIntervalMs || bufferedAmount > MaxBufferedAmount || videoReadyState < HaveCurrentData {
        return None;
      }
      lastSent := time;
      var side := if vw <= vh then vw else vh;
      var sx := (vw - side) as real / 2.0;
      var sy := (vh - side) as real / 2.0;
      sent := Some(Outgoing(Crop(sx, sy, side), FrameMessage(dataUrl)));
    }
  }

  /** The practice page: its transport and the React state of the detected word,
      the completed set and the `isMatch` value the auto-complete effect last saw. */
  class PracticeSession {
    const link: Connection
    const store: ProgressStore
    const topicWord: string
    const lessonKey: string
    var detectedWord: string
    var completedKeys: seq<string>
    var matchSeen: bool

    predicate Valid()
      reads this
    {
      Distinct(completedKeys)
    }

    /** Mounting the page for query `word`/`lesson_id` and route `category`/`order`: the stored set
        is read; `link` is the transport its mount effect created. */
    constructor (wordParam: string, lessonIdParam: string, category: string, order: string,
                 store: ProgressStore, link: Connection)
      ensures this.store == store && this.link == link
      ensures topicWord == Trim(wordParam) && lessonKey == PracticeKey(Trim(lessonIdParam), category, order)
      ensures completedKeys == CompletedOf(store.stored) && detectedWord == [] && !matchSeen
      ensures Valid()
    {
      this.store := store;
      topicWord := Trim(wordParam);
      lessonKey := PracticeKey(Trim(lessonIdParam), category, order);
      detectedWord := [];
      matchSeen := false;
      this.link := link;
      var keys := store.Read();
      ReadCompletedShape(store.stored);
      completedKeys := keys;
    }

    /** A message arrives on socket `k` (`data` is `None` when it does not parse as JSON). From the
        active socket of a mounted page a kept word becomes the detected word. */
    method DeliverMessage(k: nat, data: Option<Json>)
      requires Valid()
      modifies this, store
      ensures link.Acts(k) && InboundWord(data).Some? ==> WordShown(InboundWord(data).value)
      ensures !(link.Acts(k) && InboundWord(data).Some?) ==> Unchanged()
      ensures Valid()
    {
      if link.Acts(k) {
        ShowInbound(data);
      }
    }

    /** `onmessage` on an acting socket: a kept word becomes the detected word. */
    method ShowInbound(data: Option<Json>)
      requires Valid()
      modifies this, store
      ensures InboundWord(data).Some? ==> WordShown(InboundWord(data).value)
      ensures InboundWord(data).None? ==> Unchanged()
      ensures Valid()
    {
      var w := InboundWord(data);
      if w.Some? {
        ShowWord(w.value);
      }
    }

    /** The manual word form: a non-blank trimmed entry becomes the detected word. */
    method SubmitManual(entry: string)
      requires Valid()
      modifies this, store
      ensures Trim(entry) != [] ==> WordShown(Trim(entry))
      ensures Trim(entry) == [] ==> Unchanged()
      ensures Valid()
    {
      var v := Trim(entry);
      if v != [] {
        ShowWord(v);
      }
    }

    /** Nothing of the page's state or of the store changed. */
    twostate predicate Unchanged()
      reads this, store
    {
      detectedWord == old(detectedWord) && completedKeys == old(completedKeys) &&
      matchSeen == old(matchSeen) && store.stored == old(store.stored)
    }

    /** `setDetectedWord(v)` and the render it causes: a word equal to the current one changes
        nothing; a new one is shown and the auto-complete effect runs, persisting the set when it
        grew. */
    twostate predicate WordShown(v: string)
      reads this, store
    {
      detectedWord == v &&
      (v == old(detectedWord) ==> Unchanged()) &&
      (v != old(detectedWord) ==>
         matchSeen == IsMatch(topicWord, v) &&
         completedKeys == EffectKeys(old(completedKeys), old(matchSeen), matchSeen, lessonKey) &&
         store.stored == if completedKeys == old(completedKeys) then old(store.stored) else WriteCompleted(completedKeys))
    }

    method ShowWord(v: string)
      requires Valid()
      modifies this, store
      ensures WordShown(v)
      ensures Valid()
    {
      if v == detectedWord {
        return;
      }
      detectedWord := v;
      MatchEffect();
    }

    /** The auto-complete effect after a render: when `isMatch` changed and now holds, the lesson
        key is added and persisted unless already present. */
    method MatchEffect()
      requires Valid()
      modifies this, store
      ensures matchSeen == IsMatch(topicWord, detectedWord)
      ensures completedKeys == EffectKeys(old(completedKeys), old(matchSeen), matchSeen, lessonKey)
      ensures completedKeys == old(completedKeys) ==> store.stored == old(store.stored)
      ensures completedKeys != old(completedKeys) ==> store.stored == WriteCompleted(completedKeys)
      ensures detectedWord == old(detectedWord)
      ensures Valid()
    {
      var m := IsMatch(topicWord, detectedWord);
      var was := matchSeen;
      matchSeen := m;
      if m && !was && lessonKey !in completedKeys {
        CompleteLesson();
      }
    }

    /** The effect's `setCompletedKeys` updater for a key not yet present: a copy of the set with
        the key added, written to storage. */
    method CompleteLesson()
      requires Valid() && lessonKey !in completedKeys
      modifies this, store
      ensures completedKeys == old(completedKeys) + [lessonKey] && store.stored == WriteCompleted(completedKeys)
      ensures detectedWord == old(detectedWord) && matchSeen == old(matchSeen)
      ensures Valid()
    {
      AddKeyMembers(completedKeys, lessonKey);
      completedKeys := completedKeys + [lessonKey];
      store.Write(completedKeys);
    }

    /** `toggleCompleted()` on the practice page: flip the lesson key and persist. */
    method ToggleCompleted()
      requires Valid() && link.mounted
      modifies this, store
      ensures completedKeys == ToggleKey(old(completedKeys), lessonKey)
      ensures store.stored == WriteCompleted(completedKeys)
      ensures detectedWord == old(detectedWord) && matchSeen == old(matchSeen)
      ensures Valid()
    {
      ToggleKeyMembers(completedKeys, lessonKey);
      if lessonKey in completedKeys {
        completedKeys := DeleteKey(completedKeys, lessonKey);
      } else {
        completedKeys := completedKeys + [lessonKey];
      }
      store.Write(completedKeys);
    }
  }

  /** The completed set after the auto-complete effect saw `isMatch` go from `was` to `now`:
      a new match adds the lesson key; anything else leaves the set as it was. */
  function EffectKeys(keys: seq<string>, was: bool, now: bool, key: string): (r: seq<string>)
    ensures now && !was ==> r == AutoComplete(keys, key)
    ensures !(now && !was) ==> r == keys
  {
    if now && !was then AutoComplete(keys, key) else keys
  }
}
