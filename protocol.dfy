/**
 * The two ends of `/ws/gesture` side by side: the practice page's frame message is what the
 * server's receiver queues, and the server's result message is what the page's `onmessage`
 * turns into the detected word.
 */
module Protocol {
  import opened Wrappers
  import opened Text
  import opened Json
  import Practice
  import GestureWs

  /** `{"word": word, "confidence": conf}` as the page decodes it; `confidence` is the decoded
      number, whatever it is (the result carries no `type` field). */
  function ResultMessage(word: string, confidence: Json): (m: Json)
    ensures Field(m, "type").None? && Field(m, "word") == Some(JString(word))
  {
    JObject(map["word" := JString(word), "confidence" := confidence])
  }

  /** Every frame the page sends passes the receiver's filter and becomes the queued frame. */
  lemma PageFramesAreQueued<F>(s: GestureWs.Loop<F>, dataUrl: string)
    ensures GestureWs.ReceiveStep(s, Some(Practice.FrameMessage(dataUrl))) == Ok(GestureWs.Offer(s, dataUrl))
  {
  }

  /** A result is never mistaken for a ping: the page takes its trimmed word, and drops it only
      when the word is white space alone. */
  lemma ResultsReachThePage(word: string, confidence: Json)
    ensures Practice.InboundWord(Some(ResultMessage(word, confidence))) ==
              (if Trim(word) == [] then None else Some(Trim(word)))
  {
  }

  /** Whatever an iteration sends is shown on the page as its trimmed word, unless that is blank. */
  lemma SentWordsAreShown<F>(s: GestureWs.Loop<F>, window: nat, decode: string -> Option<F>, now: real,
                             predict: seq<F> -> Result<Option<GestureWs.P.Prediction>, string>, confidence: Json)
    requires |s.frames| <= window
    requires GestureWs.LoopStep(s, window, decode, now, predict).1.Sent?
    ensures var w := GestureWs.LoopStep(s, window, decode, now, predict).1.word;
            w != "" && Practice.InboundWord(Some(ResultMessage(w, confidence))) ==
              (if Trim(w) == [] then None else Some(Trim(w)))
  {
    GestureWs.NeverSendsPlaceholderOrRepeat(s, window, decode, now, predict);
    ResultsReachThePage(GestureWs.LoopStep(s, window, decode, now, predict).1.word, confidence);
  }
}
