# Gestu — a verified model of the sign-practice core

Gestu is a Telegram mini app for learning Russian Sign Language. It has two halves, and this project
models the logic of both.

**Browser side.**
- A lesson roadmap unlocks lessons one by one. A lesson opens once its predecessor is completed.
- A lesson page lets the learner mark a lesson done and step between lessons.
- A dictionary page has a search box and "learned" flags.
- A practice page streams camera frames over the WebSocket `/ws/gesture`. It shows the word that
  comes back, and marks the lesson completed when that word matches the lesson's word.
- All three lesson pages share one set of completed lesson keys. It is kept in the browser's
  storage under `gestu_completed_keys`.

**Server side.**
- The WebSocket handler keeps a one-slot queue of incoming frames and a sliding window of decoded
  frames. It calls the sign classifier at most every 0.35 s, and drops placeholder words and a
  repeat of the last word within a 0.8 s cooldown.
- The classifier takes the top-k classes of the probability vector, applies a threshold and
  looks up the class names from a tab-separated label file.
- A frame buffer keeps every n-th frame.
- The hand-sign detector session reads one camera frame at a time. It runs a cascade of
  recognisers: two-hand digits 6–9, the "cat" gesture with its miss counter and cooldown, "0", the
  dynamic letters Д, Ё and З with their trajectories, the static letters, and the digits 1–5 from
  the finger state. It smooths the raw labels by a majority vote over the last seven frames.
- Requests are authenticated by checking the Telegram `initData` signature. A user is found, or
  enrolled, by Telegram id.

## How the model is built

- **Pure code becomes functions and lemmas.** This covers string handling, key derivation,
  unlocking, top-k selection, label loading and the init-data check. Each function has a partner
  lemma: a round trip, an invariant or an independent characterisation.
- **State that the source updates becomes classes.** The shared progress store, the roadmap and
  lesson pages, the practice page's WebSocket transport and frame loop, the server's socket
  handler, the frame buffer, the label smoother, the detector session and the user table are all
  classes. Their fields change under `modifies`.
- **Each stateful method is tied to a transition function.** The method states its new state as
  that function of the old state (`Snap() == Step(old(Snap()), …)`). Invariants and properties are
  then proved about the transition functions.
- **Things the model cannot see are parameters.** These are:
  - the hand geometry over MediaPipe landmarks: a `Geometry` value of predicates;
  - the image decoder;
  - the neural network's probabilities;
  - HMAC-SHA-256;
  - `parse_qsl`;
  - `json.loads`;
  - clocks, which become explicit time arguments.

The model follows the code's message shapes, which differ from the system's documented protocol:
- The messages are tagged with a `type` field, not `kind`.
- The server's result message `{"word", "confidence"}` carries no tag at all. The page accepts it
  because it only skips messages whose `type` is `"ping"`.
- The page does not require the confidence to be a number.

Files: `wrappers.dfy` (Option/Result), `text.dfy` (JavaScript and Python string functions),
`json.dfy`, `bounded.dfy` (a `deque(maxlen)` as a sequence), `progress.dfy`, `lessons.dfy`,
`views.dfy`, `dictionary.dfy`, `practice.dfy`, `protocol.dfy`, `gesturews.dfy`, `framebuffer.dfy`,
`predictor.dfy`, `telegram.dfy`, `detector.dfy`.

## Model

| member | source | states |
|---|---|---|
| Bounded.Push | app/backend/ml/buffer.py:10 | no contract of its own; `deque.append` with `maxlen`; `Bounded.PushKeepsNewest` proves it keeps the newest `n` items |
| Bounded.LastN | app/backend/ml/easy_sign/detector.py:1131 | the newest `n` elements, all of them when there are fewer, as a suffix of the input |
| Bounded.PushKeepsNewest | app/backend/ml/buffer.py:10 | appending to a bounded deque keeps its newest `maxlen` elements, never exceeds the bound, and a full deque loses exactly its oldest element |
| Bounded.LastNAppend | app/backend/ml/buffer.py:26 | trimming to the bound early or late gives the same deque |
| Framebuffer.AddStep | app/backend/ml/buffer.py:17-26 | no contract of its own; one `add`; `Framebuffer.AddAllKeepsNewestDecimated` proves a run of them keeps the newest decimated frames |
| Framebuffer.FrameBuffer.IsReady | app/backend/ml/buffer.py:28-30 | no contract of its own; `is_ready` is a full window; `Framebuffer.FrameBuffer.GetWindow` returns the frames exactly when it holds |
| Framebuffer.Decimated | app/backend/ml/buffer.py:21-26 | the frames `add` keeps are those whose running number is a multiple of the interval, in order, never more than were added |
| Framebuffer.AddAll | app/backend/ml/buffer.py:17-26 | a series of adds never makes the buffer exceed its window |
| Framebuffer.AddAllKeepsNewestDecimated | app/backend/ml/buffer.py:17-26 | after any series of adds the counter has grown by their number and the buffer holds the newest `window` of the kept frames |
| Framebuffer.EveryFrameKept | app/backend/ml/buffer.py:6-26 | with interval 1 a fresh buffer holds the newest `window` frames added |
| Framebuffer.FrameBuffer.constructor | app/backend/ml/buffer.py:6-11 | an empty deque bounded by `window` and a zero counter |
| Framebuffer.FrameBuffer.Reset | app/backend/ml/buffer.py:13-15 | no frames and the counter back at 0 |
| Framebuffer.FrameBuffer.Add | app/backend/ml/buffer.py:17-26 | the counter goes up by one; the frame is appended, dropping the oldest of a full deque, exactly when the new count is a multiple of the interval |
| Framebuffer.FrameBuffer.GetWindow | app/backend/ml/buffer.py:28-38 | the frames, oldest first, exactly when the window is full; the not-ready error otherwise |
| Text.IsJsSpace | app/frontend/src/Components/PracticeLesson.jsx:26-28 | no contract of its own; the characters `trim()` and `\s` treat as white space |
| Text.IsPySpace | app/backend/ml/easy_sign/runtime.py:43 | no contract of its own; the characters Python's `str.strip()` removes |
| Text.Trim | app/frontend/src/Components/PracticeLesson.jsx:26 | no contract of its own; `String.prototype.trim`; specified by `Text.TrimSpec` (edges stripped, interior kept) |
| Text.PyStrip | app/backend/ml/easy_sign/runtime.py:43 | no contract of its own; `str.strip()`; specified by `Text.PyStripLine` |
| Text.Includes | app/frontend/src/Components/Dictionary.jsx:43 | no contract of its own; `String.prototype.includes`; specified by `Text.IncludesAt` (some position holds the query) and `Text.IncludesEmpty` |
| Text.StrLe | app/backend/api/deps.py:33 | no contract of its own; Python's string `<=` used by `sorted`; `Text.StrLeTotal`, `Text.StrLeTransitive` and `Text.StrLeAntisymmetric` prove it a total order |
| Text.DropWhile | app/frontend/src/Components/Categories.jsx:33 | removes a maximal prefix of characters satisfying the predicate: what is left is a suffix that does not start with one |
| Text.DropWhileEnd | app/frontend/src/Components/Categories.jsx:33 | removes a maximal suffix of characters satisfying the predicate: what is left is a prefix that does not end with one |
| Text.TrimSpec | app/frontend/src/Components/PracticeLesson.jsx:26 | `trim()` gives a substring without white space at its ends, and everything cut off is white space |
| Text.TrimIdempotent | app/frontend/src/Components/PracticeLesson.jsx:26 | trimming twice is trimming once |
| Text.TrimPadded | app/frontend/src/Components/PracticeLesson.jsx:26 | a space added on each side disappears under `trim()` |
| Text.PyStripLine | app/backend/ml/easy_sign/runtime.py:43 | Python's `strip()` removes a line's newline and nothing else from a line without edge white space |
| Text.Lower | app/frontend/src/Components/PracticeLesson.jsx:27 | `toLowerCase()`, restricted to the one-to-one folding of `LowerChar`, maps each character by it and keeps the length |
| Text.LowerChar | app/frontend/src/Components/PracticeLesson.jsx:27 | a character changes only if it is a capital of the covered ranges: A–Z, U+00C0–U+00DE and U+0400–U+042F |
| Text.LowerCharSpace | app/frontend/src/Components/PracticeLesson.jsx:27-28 | lower-casing neither creates nor removes white space, so it commutes with trimming and space collapsing |
| Text.LowerIdempotent | app/frontend/src/Components/PracticeLesson.jsx:27 | lower-casing twice is lower-casing once |
| Text.LowerSlice | app/frontend/src/Components/PracticeLesson.jsx:27 | lower-casing a part of a string is the same part of the lower-cased string |
| Text.TrimLower | app/frontend/src/Components/PracticeLesson.jsx:26-27 | `trim()` and `toLowerCase()` commute |
| Text.CollapseSpaces | app/frontend/src/Components/PracticeLesson.jsx:28 | `replace(/\s+/g, " ")` never lengthens the string |
| Text.CollapseSpacesShape | app/frontend/src/Components/PracticeLesson.jsx:28 | the result holds only single spaces as white space, and starts with the input's first character or a space |
| Text.CollapseSpacesOfCollapsed | app/frontend/src/Components/PracticeLesson.jsx:28 | a string already in collapsed form is unchanged |
| Text.CollapseSpacesEdges | app/frontend/src/Components/PracticeLesson.jsx:26-28 | collapsing a trimmed string keeps it without white space at its ends |
| Text.CollapseSpacesChars | app/frontend/src/Components/PracticeLesson.jsx:28 | every character of the result is the space or a character of the input |
| Text.IncludesAt | app/frontend/src/Components/Dictionary.jsx:43 | `includes(q)` holds exactly when `q` occurs at some position |
| Text.IncludesEmpty | app/frontend/src/Components/Dictionary.jsx:43 | the empty query occurs in every title |
| Text.NatToString | app/frontend/src/Components/Exercise.jsx:62 | `String(n)` of a natural number is a non-empty digit string without leading zeros |
| Text.IntToString | app/frontend/src/Components/Categories.jsx:38 | `String(n)` of an integer starts with a minus sign exactly for negative numbers |
| Text.NatToStringValue | app/frontend/src/Components/Categories.jsx:38 | the decimal rendering reads back as the number |
| Text.IntToStringInjective | app/frontend/src/Components/Categories.jsx:38-39 | distinct ids render as distinct keys |
| Text.TrimIntToString | app/frontend/src/Components/PracticeLesson.jsx:37 | a rendered integer is its own trim, so an id in the `lesson_id` query reaches the key unchanged |
| Json.JsString | app/frontend/src/Components/Categories.jsx:68 | no contract of its own; `String(x)` of a decoded value; `Json.JsStringOfString` proves it is the identity on strings |
| Json.JoinArray | app/frontend/src/Components/Categories.jsx:68 | no contract of its own; `Array.prototype.join(",")`, the array case of `Json.JsString` |
| Json.PyTruthy | app/backend/api/deps.py:73 | no contract of its own; Python's `bool(x)` on a decoded value; used by `Telegram.Or`, whose contract states the `or` |
| Json.JsStringOfString | app/frontend/src/Components/PracticeLesson.jsx:13 | `String(x)` of a JSON string is that string |
| Json.Field | app/frontend/src/Components/PracticeLesson.jsx:262-264 | `obj?.name` is defined exactly for an object that has the field |
| Progress.AddKey | app/frontend/src/Components/PracticeLesson.jsx:78 | no contract of its own; `set.add`; specified by `Progress.AddKeyMembers` |
| Progress.DeleteKey | app/frontend/src/Components/PracticeLesson.jsx:86 | no contract of its own; `set.delete`; specified by `Progress.DeleteKeyMembers` |
| Progress.ToggleKey | app/frontend/src/Components/PracticeLesson.jsx:84-90 | no contract of its own; delete if present, else add; specified by `Progress.ToggleKeyMembers` and `Progress.ToggleTwice` |
| Progress.Dedup | app/frontend/src/Components/Categories.jsx:67-68 | no contract of its own; `new Set(...)` over the strings; specified by `Progress.DedupSpec` (same members, no repeats, first occurrence order) |
| Progress.CompletedOf | app/frontend/src/Components/Categories.jsx:63-73 | no contract of its own; `readCompleted()` on the stored value; specified by `Progress.ReadCompletedShape` and `Progress.ReadCompleted` |
| Progress.SameSizeAndSubset | app/frontend/src/Components/Categories.jsx:55-61 | no contract of its own; `setsEqual`; `Progress.SetsEqualIsSetEquality` proves it is set equality |
| Progress.AddKeyMembers | app/frontend/src/Components/PracticeLesson.jsx:78 | `set.add(k)` adds exactly `k`, keeps the set duplicate-free, and is a no-op when `k` is present |
| Progress.DeleteKeyMembers | app/frontend/src/Components/PracticeLesson.jsx:86 | `set.delete(k)` removes exactly `k`, keeps the set duplicate-free, and is a no-op when `k` is absent |
| Progress.ToggleKeyMembers | app/frontend/src/Components/PracticeLesson.jsx:84-90 | the toggle flips the membership of its key and of no other key |
| Progress.ToggleTwice | app/frontend/src/Components/Exercise.jsx:153-161 | toggling a key twice restores the members, and the exact set when the key was absent |
| Progress.DeleteAppended | app/frontend/src/Components/Exercise.jsx:153-161 | deleting a just-added key restores the previous set, order included |
| Progress.Stringify | app/frontend/src/Components/Categories.jsx:68 | `String(x)` of every array element, one per element, in order |
| Progress.DedupSpec | app/frontend/src/Components/Categories.jsx:67-68 | adding strings one by one to a Set gives a duplicate-free set of exactly those strings, unchanged when they were already distinct |
| Progress.ReadCompleted | app/frontend/src/Components/PracticeLesson.jsx:8-18 | the loop builds the set that `CompletedOf` describes |
| Progress.ReadCompletedShape | app/frontend/src/Components/Categories.jsx:63-73 | the set read back is duplicate-free, holds exactly the strings of the stored array's elements, and is empty for missing, malformed or non-array data |
| Progress.WriteCompleted | app/frontend/src/Components/PracticeLesson.jsx:20-22 | the stored value is an array with one element per key |
| Progress.WriteThenRead | app/frontend/src/Components/PracticeLesson.jsx:8-22 | writing a set and reading it back gives the same set in the same order |
| Progress.ProgressStore.constructor | app/frontend/src/Components/PracticeLesson.jsx:6 | the store starts with whatever was persisted |
| Progress.ProgressStore.Write | app/frontend/src/Components/PracticeLesson.jsx:20-22 | the store then holds the written set |
| Progress.ProgressStore.Read | app/frontend/src/Components/PracticeLesson.jsx:8-18 | the set read is the one the stored value describes |
| Progress.SetsEqual | app/frontend/src/Components/Categories.jsx:55-61 | the early-exit loop answers true exactly when the sizes agree and every element of `a` is in `b` |
| Progress.SetsEqualIsSetEquality | app/frontend/src/Components/Categories.jsx:55-61 | for duplicate-free sets that check is set equality |
| Progress.SetsEqualSymmetric | app/frontend/src/Components/Categories.jsx:55-61 | the check is symmetric on duplicate-free sets |
| Progress.SetsEqualReflexive | app/frontend/src/Components/Categories.jsx:56 | a set equals itself |
| Lessons.OrderNumber | app/frontend/src/Components/Categories.jsx:231 | no contract of its own; `Number(lesson.lesson_order)`, a `null` order reading as 0 |
| Lessons.JoinUrl | app/frontend/src/Components/Categories.jsx:31-34 | no contract of its own; `joinUrl`; specified by `Lessons.JoinUrlSpec` |
| Lessons.PositionKey | app/frontend/src/Components/Categories.jsx:39 | no contract of its own; the `${slug}:${order}` key; `Lessons.KeysForLesson` and `Lessons.LessonKey` state where it is used |
| Lessons.HasCompleted | app/frontend/src/Components/Categories.jsx:43-45 | no contract of its own; `hasCompleted`; specified by `Lessons.HasCompletedSpec` |
| Lessons.BuildMockLessons | app/frontend/src/Components/Categories.jsx:100-132 | no contract of its own; `buildMockLessons`; specified by `Lessons.MockLessonsShape` |
| Lessons.MockCount | app/frontend/src/Components/Categories.jsx:100-132 | no contract of its own; the offline catalog sizes; `Lessons.MockLessonsShape` ties them to `Lessons.BuildMockLessons` |
| Lessons.LastWithOrder | app/frontend/src/Components/Categories.jsx:229-233 | no contract of its own; the last lesson of an order; specified by `Lessons.LastWithOrderSpec` |
| Lessons.OrderIndex | app/frontend/src/Components/Categories.jsx:229-233 | no contract of its own; the `lessonByOrder` map; `Lessons.OrderIndexLookup` proves it agrees with `Lessons.LastWithOrder` |
| Lessons.Lookup | app/frontend/src/Components/Categories.jsx:229-233 | no contract of its own; `lessonByOrder.get(n)`, used by `Lessons.OrderIndexLookup` |
| Lessons.IsUnlocked | app/frontend/src/Components/Categories.jsx:235-245 | no contract of its own; `isUnlocked`; specified by `Lessons.UnlockedBase`, `Lessons.UnlockedChain` and `Lessons.UnlockRoundTrip` |
| Lessons.CurrentOrder | app/frontend/src/Components/Exercise.jsx:140 | no contract of its own; `Number(order || 1)`; read through `Views.ExerciseView.Current` |
| Lessons.GoPrev | app/frontend/src/Components/Exercise.jsx:163-167 | no contract of its own; `goPrev`; specified by `Lessons.GoPrevBounds` |
| Lessons.GoNext | app/frontend/src/Components/Exercise.jsx:169-174 | no contract of its own; `goNext`; specified by `Lessons.GoNextBounds` |
| Lessons.PrevDisabled | app/frontend/src/Components/Exercise.jsx:176 | no contract of its own; the Previous button's `disabled`; `Lessons.GoPrevBounds` proves it holds exactly when `goPrev` does nothing |
| Lessons.NextDisabled | app/frontend/src/Components/Exercise.jsx:177-178 | no contract of its own; the Next button's `disabled`; `Lessons.GoNextBounds` proves it holds exactly when `goNext` does nothing |
| Lessons.JoinUrlSpec | app/frontend/src/Components/Categories.jsx:31-34 | an empty base returns the path; otherwise the base's trailing slashes and the path's leading slashes are replaced by exactly one slash, and nothing else changes |
| Lessons.KeysForLesson | app/frontend/src/Components/Categories.jsx:36-41 | at most two keys: the id when present and the position key when an order is present, and no others |
| Lessons.HasCompletedSpec | app/frontend/src/Components/Categories.jsx:43-45 | a lesson counts as completed exactly when its id or its position key is in the set |
| Lessons.LessonKey | app/frontend/src/Components/Categories.jsx:75-78 | the id when there is one, else `slug:order`, else `slug:` |
| Lessons.LessonKeyIsRead | app/frontend/src/Components/Exercise.jsx:60-63 | the key the lesson page writes is one the roadmap reads, for any lesson with an id or an order |
| Lessons.MockLessonsShape | app/frontend/src/Components/Categories.jsx:100-132 | the offline catalogs have 33, 10 and 10 lessons with orders 1..n in sequence and no ids, and are empty for any other slug |
| Lessons.LastWithOrderSpec | app/frontend/src/Components/Categories.jsx:229-233 | the map lookup finds nothing exactly when no lesson has that order, and otherwise finds the last lesson with it |
| Lessons.OrderIndexLookup | app/frontend/src/Components/Categories.jsx:229-233 | the map built by `forEach`/`set` answers lookups as the last lesson with the order |
| Lessons.LessonByOrder | app/frontend/src/Components/Categories.jsx:229-233 | the loop builds that order index |
| Lessons.UnlockedBase | app/frontend/src/Components/Categories.jsx:235-238 | a missing or zero order locks the lesson; order 1 is always open |
| Lessons.UnlockedChain | app/frontend/src/Components/Categories.jsx:240-244 | any other lesson is open when no lesson has the previous order, and otherwise exactly when that predecessor is completed |
| Lessons.UnlockRoundTrip | app/frontend/src/Components/Categories.jsx:235-245 | marking the predecessor's lesson key opens the lesson, and for a predecessor without an id, toggling that key off closes it again |
| Lessons.CurrentLesson | app/frontend/src/Components/Exercise.jsx:142-144 | the first lesson with the current order, or none exactly when no lesson has it |
| Lessons.MaxOrder | app/frontend/src/Components/Exercise.jsx:169-174 | the last lesson's order, or the current order when there is no lesson or its order is zero |
| Lessons.GoPrevBounds | app/frontend/src/Components/Exercise.jsx:163-167 | "back" goes to the previous order, never below 1, exactly when its button is enabled |
| Lessons.GoNextBounds | app/frontend/src/Components/Exercise.jsx:169-178 | "forward" goes to the next order, never past the last order, exactly when its button is enabled |
| Views.Synced | app/frontend/src/Components/Categories.jsx:151-154 | no contract of its own; the functional update of `syncCompleted`; specified by `Views.SyncedMembers` |
| Views.ExerciseView.Current | app/frontend/src/Components/Exercise.jsx:142-144 | no contract of its own; the `current` lesson of the page; `Lessons.CurrentLesson` states what it finds |
| Views.ExerciseView.IsCompleted | app/frontend/src/Components/Exercise.jsx:148-151 | no contract of its own; `isCompleted`; `Views.ExerciseView.ToggleCompleted` proves a toggle flips it |
| Views.SyncedMembers | app/frontend/src/Components/Categories.jsx:151-154 | whichever object `sync` keeps holds exactly the keys just read |
| Views.CategoriesView.constructor | app/frontend/src/Components/Categories.jsx:140-146 | the roadmap starts with the offline catalog and the stored set |
| Views.CategoriesView.Sync | app/frontend/src/Components/Categories.jsx:151-154 | the set becomes the re-read one; the old object, and no re-render, when the two are equal |
| Views.CategoriesView.VisibilityChange | app/frontend/src/Components/Categories.jsx:155 | the roadmap syncs when the page becomes visible and changes nothing when it is hidden |
| Views.CategoriesView.IsUnlockedNow | app/frontend/src/Components/Categories.jsx:229-245 | the answer of the unlock rule against the current lessons and set |
| Views.ExerciseView.constructor | app/frontend/src/Components/Exercise.jsx:103-115 | the lesson page starts with its category's catalog and the stored set |
| Views.ExerciseView.ToggleCompleted | app/frontend/src/Components/Exercise.jsx:148-161 | without a current lesson nothing changes; otherwise its key is flipped and persisted, and `isCompleted` flips |
| Views.ExerciseView.Navigate | app/frontend/src/Components/Exercise.jsx:112-115 | moving to another order re-reads the stored set |
| Dictionary.Filtered | app/frontend/src/Components/Dictionary.jsx:41-44 | no contract of its own; the `filtered` memo; specified by `Dictionary.FilteredSpec` |
| Dictionary.ProgressPercent | app/frontend/src/Components/Dictionary.jsx:48 | no contract of its own; `Math.round(learned / total * 100)`; specified by `Dictionary.ProgressRounds` and `Dictionary.ProgressBounds` |
| Dictionary.ToggleLearned | app/frontend/src/Components/Dictionary.jsx:50-57 | no contract of its own; `toggleLearned(id)`; specified by `Dictionary.ToggleLearnedChanges` and `Dictionary.ToggleLearnedTwice` |
| Dictionary.DefaultSelected | app/frontend/src/Components/Dictionary.jsx:27-28 | the first category name, or the empty name when there is none |
| Dictionary.InitialSelection | app/frontend/src/Components/Dictionary.jsx:7-28 | the page opens on "Food", which is a category of the catalog |
| Dictionary.ItemsOf | app/frontend/src/Components/Dictionary.jsx:39 | the selected category's items, or none for an unknown name |
| Dictionary.MatchingTitles | app/frontend/src/Components/Dictionary.jsx:43 | the search never shows more items than the category has |
| Dictionary.MatchingTitlesSpec | app/frontend/src/Components/Dictionary.jsx:43 | the search keeps exactly the items whose lower-cased title contains the query, in their order |
| Dictionary.FilteredSpec | app/frontend/src/Components/Dictionary.jsx:41-44 | a blank query shows the whole category; any other shows the matching items, in order |
| Dictionary.LearnedCount | app/frontend/src/Components/Dictionary.jsx:46 | at most the number of items |
| Dictionary.TotalCount | app/frontend/src/Components/Dictionary.jsx:47 | the number of items, or 1 for an empty category |
| Dictionary.ProgressRounds | app/frontend/src/Components/Dictionary.jsx:48 | the percentage is the exact rational ratio rounded half up |
| Dictionary.ProgressBounds | app/frontend/src/Components/Dictionary.jsx:48 | the percentage is in 0..100, 0 with nothing learned and 100 with everything learned |
| Dictionary.CategoryProgress | app/frontend/src/Components/Dictionary.jsx:46-48 | the bar of any category is in 0..100, and 0 for an empty one |
| Dictionary.FlipLearned | app/frontend/src/Components/Dictionary.jsx:53-55 | same length; items with the id have `learned` flipped, all other fields and items are unchanged |
| Dictionary.ToggleLearnedChanges | app/frontend/src/Components/Dictionary.jsx:50-57 | only `learned` of the matching items of the selected category changes; categories, ids, titles and other items stay |
| Dictionary.ToggleLearnedTwice | app/frontend/src/Components/Dictionary.jsx:50-57 | toggling the same word twice gives back the catalog |
| Practice.Normalize | app/frontend/src/Components/PracticeLesson.jsx:24-28 | no contract of its own; `normalize`; specified by `Practice.NormalizeIdempotent`, `Practice.NormalizeIgnoresCase` and `Practice.NormalizeIgnoresEdges` |
| Practice.IsMatch | app/frontend/src/Components/PracticeLesson.jsx:66-69 | no contract of its own; `isMatch`; specified by `Practice.MatchNeedsBoth`, `Practice.MatchSymmetric` and `Practice.MatchIgnoresCaseAndEdges` |
| Practice.CenterCrop | app/frontend/src/Components/PracticeLesson.jsx:381-386 | no contract of its own; the centred square crop; specified by `Practice.CenterCropInside` |
| Practice.BackoffDelay | app/frontend/src/Components/PracticeLesson.jsx:296-297 | no contract of its own; the reconnect delay; specified by `Practice.BackoffValues` and `Practice.BackoffBounds` |
| Practice.CloseAccepted | app/frontend/src/Components/PracticeLesson.jsx:200-209 | no contract of its own; the codes `WebSocket.close` accepts (1000 and 3000-4999) |
| Practice.BrowserClose | app/frontend/src/Components/PracticeLesson.jsx:200-209 | no contract of its own; the browser's `close(code)`; specified by `Practice.BrowserCloseResult` |
| Practice.Handles | app/frontend/src/Components/PracticeLesson.jsx:251-278 | no contract of its own; the `activeSeqRef.current !== seq` guard of every handler (the socket's number is the active one), together with the handler still being attached; `Practice.StaleEventsInert` proves a guarded-out event changes nothing |
| Practice.Live | app/frontend/src/Components/PracticeLesson.jsx:217-225 | no contract of its own; a socket that is open or connecting; `Practice.ConnectWhileLive` proves `connectWs` then does nothing |
| Practice.CloseWsStep | app/frontend/src/Components/PracticeLesson.jsx:200-209 | no contract of its own; `closeWs(code)`; `Practice.Connection.CloseWs` is proved against it |
| Practice.Replace | app/frontend/src/Components/PracticeLesson.jsx:227-239 | no contract of its own; dropping the existing socket; specified by `Practice.ReplaceKeeps` |
| Practice.Spawn | app/frontend/src/Components/PracticeLesson.jsx:241-248 | no contract of its own; creating the next socket; specified by `Practice.SpawnPreservesValid` and `Practice.ConnectCreates` |
| Practice.ConnectStep | app/frontend/src/Components/PracticeLesson.jsx:211-248 | no contract of its own; `connectWs(force)`; specified by `Practice.ConnectPreservesValid`, `Practice.ConnectWhileHidden` and `Practice.ConnectWhileLive` |
| Practice.OpenStep | app/frontend/src/Components/PracticeLesson.jsx:250-256 | no contract of its own; `onopen`; specified by `Practice.OpenPreservesValid`, `Practice.OpenResets` and `Practice.QuietAfterOpen` |
| Practice.ErrorStep | app/frontend/src/Components/PracticeLesson.jsx:272-275 | no contract of its own; `onerror`; specified by `Practice.ErrorPreservesValid` and `Practice.QuietAfterError` |
| Practice.CloseEventStep | app/frontend/src/Components/PracticeLesson.jsx:277-306 | no contract of its own; `onclose`; specified by `Practice.CloseEventPreservesValid`, `Practice.CloseReconnects` and `Practice.CloseStaysDown` |
| Practice.AfterClose | app/frontend/src/Components/PracticeLesson.jsx:286-305 | no contract of its own; the reconnect part of `onclose`; `Practice.CloseReconnects` states what it schedules |
| Practice.TimerStep | app/frontend/src/Components/PracticeLesson.jsx:302-305 | no contract of its own; the reconnect timer firing; specified by `Practice.TimerPreservesValid` and `Practice.TimerReconnects` |
| Practice.ReconnectStep | app/frontend/src/Components/PracticeLesson.jsx:311-324 | no contract of its own; `reconnectNow()`; specified by `Practice.ReconnectPreservesValid` and `Practice.ReconnectResets` |
| Practice.VisibilityStep | app/frontend/src/Components/PracticeLesson.jsx:330-340 | no contract of its own; the `visibilitychange` listener with the corrected close code 1000; specified by `Practice.VisibilityPreservesValid` and `Practice.HideQuiesces` |
| Practice.VisibilityStepAsWritten | app/frontend/src/Components/PracticeLesson.jsx:330-340 | no contract of its own; the listener with the source's code 1001; `Practice.HideAsWrittenLeaks` shows it leaves the socket open |
| Practice.UnmountStep | app/frontend/src/Components/PracticeLesson.jsx:344-348 | no contract of its own; the mount effect's cleanup; specified by `Practice.UnmountPreservesValid` and `Practice.UnmountStops` |
| Practice.MountStep | app/frontend/src/Components/PracticeLesson.jsx:326-328 | no contract of its own; the mount effect; specified by `Practice.MountConnects` |
| Practice.Connection.Acts | app/frontend/src/Components/PracticeLesson.jsx:251-278 | no contract of its own; the handler guard on the class's state; `Practice.PracticeSession.DeliverMessage` shows only an acting socket's message is shown |
| Practice.NormalizeIdempotent | app/frontend/src/Components/PracticeLesson.jsx:24-28 | a normalized word has no edge white space, only single inner spaces and no foldable capital, and normalizing again changes nothing |
| Practice.MatchNeedsBoth | app/frontend/src/Components/PracticeLesson.jsx:66-67 | an absent topic word or detected word never matches |
| Practice.MatchSymmetric | app/frontend/src/Components/PracticeLesson.jsx:66-69 | matching is symmetric, and reflexive on any present word |
| Practice.NormalizeIgnoresCase | app/frontend/src/Components/PracticeLesson.jsx:24-28 | a lower-cased word normalizes as the word does |
| Practice.NormalizeIgnoresEdges | app/frontend/src/Components/PracticeLesson.jsx:24-28 | a trimmed word, and a word with a space added on each side, normalize as the word does |
| Practice.MatchIgnoresCaseAndEdges | app/frontend/src/Components/PracticeLesson.jsx:66-69 | a present word matches itself padded with spaces and lower-cased |
| Practice.MatchPadded | app/frontend/src/Components/PracticeLesson.jsx:24-28 | a present word with a space on each side matches its lower-casing |
| Practice.MatchPaddedCapital | app/frontend/src/Components/PracticeLesson.jsx:66-69 | a recognised Cyrillic capital with a space on each side (" А ") completes the topic that is its small letter ("а") |
| Practice.PracticeKey | app/frontend/src/Components/PracticeLesson.jsx:37-43 | the trimmed `lesson_id` when present, else `category:order`; `Practice.PracticeKeyAgrees` ties it to the lesson page's key |
| Practice.PracticeKeyAgrees | app/frontend/src/Components/PracticeLesson.jsx:39-43 | the practice key is `Lessons.LessonKey` ("the key as in Exercise"): a lesson's id passed as `lesson_id`, or no id and the lesson's category and order, give the lesson page's key |
| Practice.ParamsKey | app/frontend/src/Components/PracticeLesson.jsx:36-43 | no contract of its own; the key the page derives from its query and route parameters, as `Practice.PracticeSession.constructor` does |
| Practice.IdParam | app/frontend/src/Components/Exercise.jsx:240 | no contract of its own; `${lesson_id ?? ""}` |
| Practice.ExercisePracticeLink | app/frontend/src/Components/Exercise.jsx:240 | no contract of its own; the lesson page's practice button as written: only `lesson_id`, no category or order |
| Practice.ExerciseLinkLosesOfflineKey | app/frontend/src/Components/Exercise.jsx:240 | as written, a lesson without an id is practised under the key `":"`, which differs from its `Lessons.LessonKey`; adding or toggling that key leaves the roadmap's `hasCompleted` for the lesson unchanged |
| Practice.PracticeLink | app/frontend/src/Components/Exercise.jsx:240 | no contract of its own; the practice button with the lesson's category and order passed along |
| Practice.PracticeLinkKeepsKey | app/frontend/src/Components/PracticeLesson.jsx:39-43 | through the corrected link every lesson is practised under its `Lessons.LessonKey`, and adding that key marks the lesson completed on the roadmap whenever it has an id or an order |
| Practice.AutoComplete | app/frontend/src/Components/PracticeLesson.jsx:75-81 | the set with the lesson key added, and the same set when the key is there |
| Practice.AutoCompleteIdempotent | app/frontend/src/Components/PracticeLesson.jsx:72-82 | a second identical match adds nothing; no key is ever removed and no duplicate appears |
| Practice.EffectKeys | app/frontend/src/Components/PracticeLesson.jsx:72-82 | the set changes only when `isMatch` turns true, and then by auto-completion |
| Practice.InboundWord | app/frontend/src/Components/PracticeLesson.jsx:258-270 | a word is taken exactly from parsed messages that are not pings and carry a string `word` that is not blank, and it is that word trimmed |
| Practice.InboundWordShape | app/frontend/src/Components/PracticeLesson.jsx:265-267 | the word taken is never blank and has no edge white space |
| Practice.CenterCropInside | app/frontend/src/Components/PracticeLesson.jsx:381-386 | the crop is a centred square of side min(width, height) inside the video frame |
| Practice.FrameMessage | app/frontend/src/Components/PracticeLesson.jsx:392 | the frame message decodes to `type` "frame" and `data` the data URL |
| Practice.BackoffValues | app/frontend/src/Components/PracticeLesson.jsx:296-297 | the reconnect delays are 500, 1000, 2000, 4000, 8000 ms and then 10 s |
| Practice.BackoffBounds | app/frontend/src/Components/PracticeLesson.jsx:296-297 | the delay is between 0.5 s and 10 s and never shrinks as attempts grow |
| Practice.BrowserCloseResult | app/frontend/src/Components/PracticeLesson.jsx:200-209 | an accepted close code sets the socket closing; a rejected one throws and leaves it as it was |
| Practice.MountConnects | app/frontend/src/Components/PracticeLesson.jsx:326-328 | mounting with the tab visible creates socket 1 and nothing else; while hidden it creates none |
| Practice.ConnectWhileHidden | app/frontend/src/Components/PracticeLesson.jsx:213 | `connectWs` does nothing while the tab is hidden |
| Practice.ConnectWhileLive | app/frontend/src/Components/PracticeLesson.jsx:217-225 | an unforced `connectWs` does nothing while `wsRef` is open or connecting |
| Practice.ReplaceKeeps | app/frontend/src/Components/PracticeLesson.jsx:227-239 | replacing detaches and closes the current socket, forgets it, and leaves every other socket and counter alone |
| Practice.ConnectCreates | app/frontend/src/Components/PracticeLesson.jsx:241-248 | with no attempt in progress, `connectWs` creates socket `wsSeq + 1` as the active one, and any previous one is detached and closing |
| Practice.ConnectPreservesValid | app/frontend/src/Components/PracticeLesson.jsx:211-309 | `connectWs` keeps the transport invariant: only the newest socket is active, older ones are closing, and `wsRef` names the live active socket |
| Practice.SpawnPreservesValid | app/frontend/src/Components/PracticeLesson.jsx:241-248 | creating the next socket keeps the transport invariant |
| Practice.OpenPreservesValid | app/frontend/src/Components/PracticeLesson.jsx:250-256 | an open event keeps the transport invariant |
| Practice.ErrorPreservesValid | app/frontend/src/Components/PracticeLesson.jsx:272-275 | an error event keeps the transport invariant |
| Practice.CloseEventPreservesValid | app/frontend/src/Components/PracticeLesson.jsx:277-306 | a close event keeps the transport invariant |
| Practice.TimerPreservesValid | app/frontend/src/Components/PracticeLesson.jsx:302-305 | the reconnect timer keeps the transport invariant |
| Practice.ReconnectPreservesValid | app/frontend/src/Components/PracticeLesson.jsx:311-324 | a manual reconnect keeps the transport invariant |
| Practice.VisibilityPreservesValid | app/frontend/src/Components/PracticeLesson.jsx:330-340 | the visibility listener, with the close code corrected to 1000, keeps the transport invariant |
| Practice.UnmountPreservesValid | app/frontend/src/Components/PracticeLesson.jsx:344-348 | unmounting keeps the transport invariant |
| Practice.StaleEventsInert | app/frontend/src/Components/PracticeLesson.jsx:251-278 | events of a socket that is not the active one, or whose handlers were detached, change nothing but its `readyState` |
| Practice.OpenResets | app/frontend/src/Components/PracticeLesson.jsx:250-256 | the active socket's open resets the attempt count and reports "connected" |
| Practice.ReconnectResets | app/frontend/src/Components/PracticeLesson.jsx:311-324 | reconnecting resets the attempts and asks for a reconnect, and either closes the current socket or creates the next one |
| Practice.CloseReconnects | app/frontend/src/Components/PracticeLesson.jsx:277-306 | the active socket's close reconnects at once after a manual reconnect, and otherwise schedules the timer for the backoff delay |
| Practice.CloseStaysDown | app/frontend/src/Components/PracticeLesson.jsx:283-287 | without a wanted reconnect, or while hidden, a close only reports the disconnection |
| Practice.TimerReconnects | app/frontend/src/Components/PracticeLesson.jsx:302-305 | the timer counts one more attempt and, with the tab visible, opens the next socket |
| Practice.HideQuiesces | app/frontend/src/Components/PracticeLesson.jsx:330-335 | with a close code the browser accepts, hiding the tab leaves no `wsRef`, no timer and no wish to reconnect, every socket is closing or closed, and nothing further creates a socket while hidden |
| Practice.HideAsWrittenLeaks | app/frontend/src/Components/PracticeLesson.jsx:335 | with code 1001 as written, the open socket stays open with handlers attached while `wsRef` forgets it, and showing the tab opens a second socket |
| Practice.UnmountStops | app/frontend/src/Components/PracticeLesson.jsx:344-348 | after unmounting there is no timer and no reconnect, and a later close event creates no socket |
| Practice.QuietAfterOpen | app/frontend/src/Components/PracticeLesson.jsx:250-256 | an open event after unmounting never brings the transport back |
| Practice.QuietAfterError | app/frontend/src/Components/PracticeLesson.jsx:272-275 | an error event after unmounting never brings the transport back |
| Practice.QuietAfterClose | app/frontend/src/Components/PracticeLesson.jsx:277-287 | a close event after unmounting never creates a socket |
| Practice.Connection.constructor | app/frontend/src/Components/PracticeLesson.jsx:178-186 | the refs start empty, and the mount effect then runs `connectWs(false)` |
| Practice.Connection.CloseWs | app/frontend/src/Components/PracticeLesson.jsx:200-209 | the timer is cancelled, and the `wsRef` socket is closed and forgotten |
| Practice.Connection.ConnectWs | app/frontend/src/Components/PracticeLesson.jsx:211-248 | the state after `connectWs(force)`, as the transition function above |
| Practice.Connection.DropExisting | app/frontend/src/Components/PracticeLesson.jsx:227-239 | the state after replacing the current socket |
| Practice.Connection.SpawnSocket | app/frontend/src/Components/PracticeLesson.jsx:241-248 | the state after numbering and creating the next socket |
| Practice.Connection.DeliverOpen | app/frontend/src/Components/PracticeLesson.jsx:250-256 | the open transition, which keeps the transport invariant |
| Practice.Connection.OnOpen | app/frontend/src/Components/PracticeLesson.jsx:250-256 | the socket is open and its `onopen` has run |
| Practice.Connection.DeliverError | app/frontend/src/Components/PracticeLesson.jsx:272-275 | the error transition, which keeps the transport invariant |
| Practice.Connection.DeliverClose | app/frontend/src/Components/PracticeLesson.jsx:277-306 | the close transition, which keeps the transport invariant |
| Practice.Connection.OnClose | app/frontend/src/Components/PracticeLesson.jsx:277-306 | the socket is closed and its `onclose` has run |
| Practice.Connection.ReconnectAfterClose | app/frontend/src/Components/PracticeLesson.jsx:286-305 | the tail of `onclose`: reconnect now, schedule the timer, or stay down |
| Practice.Connection.TimerFire | app/frontend/src/Components/PracticeLesson.jsx:302-305 | the timer transition, which keeps the transport invariant |
| Practice.Connection.OnTimer | app/frontend/src/Components/PracticeLesson.jsx:302-305 | one more attempt, then `connectWs(false)` |
| Practice.Connection.ReconnectNow | app/frontend/src/Components/PracticeLesson.jsx:311-324 | the manual reconnect transition, which keeps the transport invariant |
| Practice.Connection.Reconnect | app/frontend/src/Components/PracticeLesson.jsx:311-324 | the body of `reconnectNow` |
| Practice.Connection.VisibilityChange | app/frontend/src/Components/PracticeLesson.jsx:330-340 | the visibility transition with the corrected close code 1000, which keeps the transport invariant |
| Practice.Connection.OnVisibility | app/frontend/src/Components/PracticeLesson.jsx:330-340 | the body of the visibility listener, with the corrected close code 1000 |
| Practice.Connection.Unmount | app/frontend/src/Components/PracticeLesson.jsx:344-348 | the unmount transition: listener gone, reconnects off, socket closed |
| Practice.FrameLoop.constructor | app/frontend/src/Components/PracticeLesson.jsx:363 | no frame sent yet |
| Practice.FrameLoop.SendFrame | app/frontend/src/Components/PracticeLesson.jsx:365-393 | a frame is sent exactly when the tab is visible, `wsRef` is open, 66 ms have passed, the socket's buffer is at most 1 MB and the video has data; it is the centred crop's frame message, and only then is the send time recorded |
| Practice.PracticeSession.constructor | app/frontend/src/Components/PracticeLesson.jsx:36-62 | the topic word and lesson key from the route and query, the stored set, and no detected word |
| Practice.PracticeSession.DeliverMessage | app/frontend/src/Components/PracticeLesson.jsx:258-270 | from the active socket, a kept word becomes the detected word; anything else changes nothing |
| Practice.PracticeSession.ShowInbound | app/frontend/src/Components/PracticeLesson.jsx:261-267 | a kept word becomes the detected word, and anything else changes nothing |
| Practice.PracticeSession.SubmitManual | app/frontend/src/Components/PracticeLesson.jsx:402-407 | a non-blank trimmed entry becomes the detected word, and a blank one changes nothing |
| Practice.PracticeSession.ShowWord | app/frontend/src/Components/PracticeLesson.jsx:267 | the detected word is replaced and nothing else changes |
| Practice.PracticeSession.MatchEffect | app/frontend/src/Components/PracticeLesson.jsx:72-82 | a new match adds the lesson key and persists the set unless the key is there; otherwise nothing is written |
| Practice.PracticeSession.CompleteLesson | app/frontend/src/Components/PracticeLesson.jsx:75-79 | an absent lesson key is appended, the set stays free of repeats, and exactly the grown set is written to storage |
| Practice.PracticeSession.ToggleCompleted | app/frontend/src/Components/PracticeLesson.jsx:84-90 | the lesson key is flipped and the set persisted |
| Protocol.ResultMessage | app/backend/api/ws.py:174 | the server's result message carries the word and no `type` field |
| Protocol.PageFramesAreQueued | app/backend/api/ws.py:80-97 | every frame message the page sends passes the receiver's filter and is queued |
| Protocol.ResultsReachThePage | app/frontend/src/Components/PracticeLesson.jsx:258-267 | a server result is never taken for a ping; the page shows its trimmed word unless it is blank |
| Protocol.SentWordsAreShown | app/backend/api/ws.py:159-174 | every word the server sends is non-empty and shows on the page as its trimmed form unless it is white space |
| GestureWs.Placeholder | app/backend/api/ws.py:162 | no contract of its own; the labels never sent; `GestureWs.NeverSendsPlaceholderOrRepeat` proves none is sent |
| GestureWs.ReceiveStep | app/backend/api/ws.py:77-99 | no contract of its own; one receiver iteration; specified by `GestureWs.ReceiveSpec` and `GestureWs.ReceivePreservesCounted` |
| GestureWs.OfferAll | app/backend/api/ws.py:87-99 | no contract of its own; frames offered in a row; specified by `GestureWs.OfferAllKeepsNewest` |
| GestureWs.WordOf | app/backend/api/ws.py:159 | no contract of its own; `pred["labels"].get(0, "")`; `GestureWs.RespondSpec` states the word sent is it |
| GestureWs.ConfidenceOf | app/backend/api/ws.py:160 | no contract of its own; the first confidence or 0.0; `GestureWs.RespondSpec` states the confidence sent is it |
| GestureWs.Respond | app/backend/api/ws.py:156-176 | no contract of its own; the prediction and the send; specified by `GestureWs.RespondSpec` |
| GestureWs.LoopStep | app/backend/api/ws.py:114-176 | no contract of its own; one main-loop iteration; specified by `GestureWs.StepPreservesCounted`, `GestureWs.WaitAndBadFrame`, `GestureWs.InferenceGate` and `GestureWs.InferenceSeesWindow` |
| GestureWs.Admit | app/backend/api/ws.py:132-154 | no contract of its own; a decoded frame appended and the two gates; specified by `GestureWs.AdmitPreservesCounted` |
| GestureWs.Start | app/backend/api/ws.py:50-71 | after `accept`, the queue and window are empty and the counters are zero |
| GestureWs.Offer | app/backend/api/ws.py:87-99 | queueing a frame into the one-slot queue counts it, counts a displaced frame as dropped, and leaves the newest frame in the slot; nothing else changes |
| GestureWs.ReceiveSpec | app/backend/api/ws.py:77-99 | the receiver stops on a non-object, skips a message whose `type` is not "frame" or whose `data` is not a string, and queues every other one |
| GestureWs.ReceivePreservesCounted | app/backend/api/ws.py:77-99 | the receiver keeps the frame accounting: frames in = dropped + decoded + failed + waiting |
| GestureWs.OfferAllKeepsNewest | app/backend/api/ws.py:87-99 | after a burst only the newest frame waits, and all the others that were waiting are counted as dropped |
| GestureWs.StepPreservesCounted | app/backend/api/ws.py:114-176 | a main-loop iteration keeps the frame accounting |
| GestureWs.WaitAndBadFrame | app/backend/api/ws.py:115-130 | without a frame the loop waits with nothing changed; a frame that does not decode is counted and leaves the window alone |
| GestureWs.InferenceGate | app/backend/api/ws.py:144-149 | the predictor runs exactly when the window is full and 0.35 s have passed since the last inference, and then the inference time becomes now |
| GestureWs.InferenceSeesWindow | app/backend/api/ws.py:132-152 | the predictor sees the full window of the newest decoded frames, newest last |
| GestureWs.RespondSpec | app/backend/api/ws.py:156-176 | nothing is sent for no prediction, a placeholder word or a repeat within the cooldown; otherwise the word and confidence are sent, the last-sent word and time are updated and the window is emptied; a raising prediction ends the handler |
| GestureWs.NeverSendsPlaceholderOrRepeat | app/backend/api/ws.py:162-166 | no iteration sends "", "no" or "---", nor the previous word within 0.8 s |
| GestureWs.GestureSocket.constructor | app/backend/api/ws.py:50-71 | the handler's variables after `accept`, with `WINDOW_SIZE` as the window |
| GestureWs.GestureSocket.Receive | app/backend/api/ws.py:79-99 | one receiver iteration, and the exception that ends it, if any |
| GestureWs.GestureSocket.Next | app/backend/api/ws.py:114-176 | one main-loop iteration, as the transition function above |
| GestureWs.GestureSocket.AdmitFrame | app/backend/api/ws.py:132-154 | the iteration after a frame has decoded |
| GestureWs.GestureSocket.Answer | app/backend/api/ws.py:154-176 | the iteration after the predictor has answered |
| Predictor.ParseInt | app/backend/ml/easy_sign/runtime.py:46 | no contract of its own; `int(s)`; `Predictor.ParseIntOfIntToString` proves it reads back a written index |
| Predictor.ParseSigned | app/backend/ml/easy_sign/runtime.py:46 | no contract of its own; an optional sign and ASCII digits; specified by `Predictor.ParseSignedDigits` |
| Predictor.ParseLine | app/backend/ml/easy_sign/runtime.py:45-46 | no contract of its own; the split and unpack of one line; `Predictor.BodyParses` proves a formatted line parses to its entry |
| Predictor.Entries | app/backend/ml/easy_sign/runtime.py:45-46 | no contract of its own; the dictionary comprehension; specified by `Predictor.EntriesFail` and `Predictor.EntriesOfParsed` |
| Predictor.LoadLabels | app/backend/ml/easy_sign/runtime.py:38-46 | no contract of its own; `_load_labels`; specified by `Predictor.LoadFormatted` |
| Predictor.MapOf | app/backend/ml/easy_sign/runtime.py:46 | no contract of its own; the dictionary of entries; specified by `Predictor.MapOfKeys` and `Predictor.MapOfLast` |
| Predictor.Predict | app/backend/ml/easy_sign/runtime.py:54-87 | no contract of its own; `predict(frames)`; specified by `Predictor.PredictSpec` and `Predictor.PredictTopOne` |
| Predictor.Select | app/backend/ml/easy_sign/runtime.py:70-87 | no contract of its own; the part of `predict` after top-k; specified by `Predictor.SelectSpec` |
| Predictor.FindTab | app/backend/ml/easy_sign/runtime.py:45 | the position of the first tab, or none exactly when there is no tab |
| Predictor.NonBlank | app/backend/ml/easy_sign/runtime.py:43 | the stripped lines kept are never blank |
| Predictor.NonBlankOfFull | app/backend/ml/easy_sign/runtime.py:43 | with no blank lines every line is kept, stripped, in order |
| Predictor.MapOfKeys | app/backend/ml/easy_sign/runtime.py:46 | an index is a key of the label dictionary exactly when some line carries it |
| Predictor.MapOfLast | app/backend/ml/easy_sign/runtime.py:46 | a repeated index maps to the label of its last line |
| Predictor.EntriesFail | app/backend/ml/easy_sign/runtime.py:45-46 | loading fails, with `ValueError`, exactly when some non-blank line has no tab or an index that is not an integer |
| Predictor.EntriesOfParsed | app/backend/ml/easy_sign/runtime.py:45-46 | when every line parses, loading gives the dictionary of the parsed entries |
| Predictor.LoadFormatted | app/backend/ml/easy_sign/runtime.py:38-46 | a class list written one `index<TAB>name` line per entry, with labels that hold no `\n` or `\r` and end in a character `strip()` keeps (`Predictor.Storable`), loads back as its dictionary |
| Predictor.StripFormatted | app/backend/ml/easy_sign/runtime.py:43 | `strip()` takes a written line back to its text |
| Predictor.BodyParses | app/backend/ml/easy_sign/runtime.py:45-46 | a written line splits at the tab after the index and parses back to its entry |
| Predictor.IntToStringShape | app/backend/ml/easy_sign/runtime.py:46 | a written index is a sign and digits, with no tab or white space |
| Predictor.ParseIntOfIntToString | app/backend/ml/easy_sign/runtime.py:46 | `int()` reads back every written index |
| Predictor.ParseSignedDigits | app/backend/ml/easy_sign/runtime.py:46 | an optional minus sign and digits read as their value |
| Predictor.Insert | app/backend/ml/easy_sign/runtime.py:69 | one step of the argsort: the index joins the order, and the length grows by one |
| Predictor.InsertSorted | app/backend/ml/easy_sign/runtime.py:69 | inserting keeps the order ascending in probability, and a new index keeps it free of repeats |
| Predictor.ArgSortPrefix | app/backend/ml/easy_sign/runtime.py:69 | the first `n` indices, each once |
| Predictor.ArgSort | app/backend/ml/easy_sign/runtime.py:69 | `np.argsort` lists every index of the vector |
| Predictor.ArgSortPrefixSpec | app/backend/ml/easy_sign/runtime.py:69 | the argsort is by ascending probability and lists no index twice |
| Predictor.SliceFrom | app/backend/ml/easy_sign/runtime.py:69 | Python's `s[start:]` is a suffix, with negative starts counted from the end and clamped |
| Predictor.TailLength | app/backend/ml/easy_sign/runtime.py:69 | `s[-k:]` keeps the last `k` for positive `k`, everything for 0, and all but the first `-k` for negative `k` |
| Predictor.Reverse | app/backend/ml/easy_sign/runtime.py:69 | `[::-1]` reverses |
| Predictor.TopIndices | app/backend/ml/easy_sign/runtime.py:69 | the selection holds valid indices only |
| Predictor.ReversedTail | app/backend/ml/easy_sign/runtime.py:69 | the reversed tail of the argsort is repetition-free and descending, and no index left out outranks one in it |
| Predictor.TopIndicesSpec | app/backend/ml/easy_sign/runtime.py:69-70 | the top-k selection is distinct indices by descending probability, as many as `p[-topk:]` keeps, and none left out is more probable than one selected |
| Predictor.TopIndicesOfTail | app/backend/ml/easy_sign/runtime.py:69 | the selection is the reversed tail of the argsort |
| Predictor.MaxOf | app/backend/ml/easy_sign/runtime.py:72 | `np.max` is an element and bounds all elements |
| Predictor.SelectSpec | app/backend/ml/easy_sign/runtime.py:70-87 | for a descending selection: an empty one raises `ValueError` (from `np.max`), a best confidence under the threshold gives no result, an unlabelled class raises `KeyError`, and otherwise entry `i` is the `i`-th name and probability |
| Predictor.PredictSpec | app/backend/ml/easy_sign/runtime.py:54-87 | no frames give no result; otherwise the outcome is that of the selection of the top-k classes of the probabilities |
| Predictor.PredictTopOne | app/backend/ml/easy_sign/runtime.py:13-87 | with the default `topk` of 1 and every class labelled, there is no result exactly when every probability is under the threshold, and otherwise the result is a most probable class |
| Predictor.BestIndex | app/backend/ml/easy_sign/runtime.py:69 | with `topk` 1 the selection is one most probable class |
| Predictor.NewPredictor | app/backend/ml/easy_sign/runtime.py:9-17 | the configured threshold and `topk` or 0.5 and 1, and the loaded class list, or the loading error |
| Telegram.LastValue | app/backend/api/deps.py:24 | no contract of its own; the value `dict(parse_qsl(...))` keeps for a key; `Telegram.DictOfLastWins` proves it is the last one |
| Telegram.Pop | app/backend/api/deps.py:26-31 | no contract of its own; `dict.pop(k, None)`; the value is `Telegram.Get` and the rest `Telegram.Remove`; `Telegram.RemoveKeys` states the keys that remain |
| Telegram.JoinLines | app/backend/api/deps.py:33 | no contract of its own; `"\n".join(...)`, used by `Telegram.DataCheckLines` |
| Telegram.DataCheckString | app/backend/api/deps.py:33 | no contract of its own; the data-check string; specified by `Telegram.DataCheckLines` and `Telegram.DataCheckOrderFree` |
| Telegram.Verify | app/backend/api/deps.py:26-61 | no contract of its own; `verify_telegram_init_data`; specified by `Telegram.VerifySpec` and `Telegram.VerifyOrderFree` |
| Telegram.Decide | app/backend/api/deps.py:54-61 | no contract of its own; the signature comparison and the user decode; its cases are stated by `Telegram.VerifySpec` |
| Telegram.Identify | app/backend/api/deps.py:72-73 | no contract of its own; the user id and display name; specified by `Telegram.IdentifyName` |
| Telegram.Authenticate | app/backend/api/deps.py:64-73 | no contract of its own; the header check and `verify`; specified by `Telegram.AuthenticateNeedsHeader` |
| Telegram.Enrol | app/backend/api/deps.py:75-81 | no contract of its own; find or create the user row; specified by `Telegram.EnrolSpec` |
| Telegram.Keys | app/backend/api/deps.py:33 | the keys of a dictionary, in insertion order |
| Telegram.Get | app/backend/api/deps.py:58 | `d.get(k)` is defined exactly for a present key |
| Telegram.Put | app/backend/api/deps.py:24 | after `d[k] = v`, `k` maps to `v` and every other key as before |
| Telegram.PutKeys | app/backend/api/deps.py:24 | a put adds only its key and keeps the keys distinct |
| Telegram.Remove | app/backend/api/deps.py:26-31 | `pop(k)` removes `k` and leaves the other keys' values |
| Telegram.RemoveKeys | app/backend/api/deps.py:26-31 | a pop adds no key and keeps the keys distinct |
| Telegram.DictOf | app/backend/api/deps.py:24 | `dict(pairs)` has distinct keys |
| Telegram.DictOfLastWins | app/backend/api/deps.py:24 | a repeated query parameter keeps its last value |
| Telegram.Insert | app/backend/api/deps.py:33 | one step of `sorted`: the key joins the list, and the length grows by one |
| Telegram.SortKeys | app/backend/api/deps.py:33 | `sorted(keys)` is a permutation of the keys: same length, same members |
| Telegram.InsertSorted | app/backend/api/deps.py:33 | inserting keeps the list ascending, and a new key keeps it free of repeats |
| Telegram.SortKeysSpec | app/backend/api/deps.py:33 | the keys come out ascending, each once |
| Telegram.SortedUnique | app/backend/api/deps.py:33 | two ascending repetition-free lists with the same members are equal, so the sorted order is determined by the key set |
| Telegram.CheckLines | app/backend/api/deps.py:33 | one `key=value` line per key, in the given order |
| Telegram.DataCheckLines | app/backend/api/deps.py:33 | the data-check string is the dictionary's items, keys ascending, each once, joined by newlines |
| Telegram.DataCheckOrderFree | app/backend/api/deps.py:33 | the data-check string depends only on which key carries which value |
| Telegram.Signed | app/backend/api/deps.py:26-31 | the signed parameters are all but `hash` and `signature` |
| Telegram.CheckInitData | app/backend/api/deps.py:19-22 | an unset or blank token is a server error, and only then |
| Telegram.VerifyStatus | app/backend/api/deps.py:26-61 | once the token is present, no outcome is the missing-token error |
| Telegram.VerifySpec | app/backend/api/deps.py:26-61 | in order: a missing or empty hash is `Missing hash`; a non-ASCII hash or signature raises `TypeError`; a hash differing from the HMAC of the data-check string is `Bad signature`; a missing or empty user is `No user`; a user that does not decode raises `JSONDecodeError`; the check accepts exactly when none of these applies, and the result is the decoded user |
| Telegram.AuthenticateNeedsHeader | app/backend/api/deps.py:68-69 | a missing or empty `X-Telegram-Init-Data` header is `No init data`, whatever the token |
| Telegram.VerifyOrderFree | app/backend/api/deps.py:26-61 | the verdict depends only on which key carries which value |
| Telegram.CheckInitDataOrderFree | app/backend/api/deps.py:19-61 | reordering the query parameters, or repeating one with the same final value, does not change the verdict |
| Telegram.Or | app/backend/api/deps.py:73 | Python's `a or b` on a `dict.get` result: `a` when it is present and truthy, else `b` |
| Telegram.IdentifyName | app/backend/api/deps.py:72-73 | a user is enrolled under a non-empty username, else a non-empty first name, else "user" |
| Telegram.FindUser | app/backend/api/deps.py:75 | the first row with the Telegram id, or none exactly when no row has it |
| Telegram.EnrolSpec | app/backend/api/deps.py:75-81 | enrolling keeps ids unique, returns the one row for the Telegram id, and a second enrolment finds that row and changes nothing |
| Telegram.FindAppended | app/backend/api/deps.py:76-80 | a row added for a new id is the one found for it |
| Telegram.Users.GetCurrentUser | app/backend/api/deps.py:64-81 | missing init data or a failed check leaves the table alone and reports the error; otherwise the user with the Telegram id, enrolled when new |
| Telegram.Users.FindOrCreate | app/backend/api/deps.py:75-81 | the row found or inserted carries the Telegram id, is the one a later query finds, and keeps the table valid |
| Detector.DigitName | app/backend/ml/easy_sign/detector.py:796-804 | no contract of its own; the label of a digit |
| Detector.DetectDigit | app/backend/ml/easy_sign/detector.py:796-804 | no contract of its own; `detect_digit_1_5`; specified by `Detector.DetectDigitSpec` |
| Detector.Leader | app/backend/ml/easy_sign/detector.py:1145 | no contract of its own; the scan of `most_common(1)`; specified by `Detector.LeaderSpec` |
| Detector.MostCommon | app/backend/ml/easy_sign/detector.py:1145 | no contract of its own; `most_common(1)[0]`; specified by `Detector.MostCommonSpec` |
| Detector.Stable | app/backend/ml/easy_sign/detector.py:1136-1150 | no contract of its own; `stable_with_confidence`; specified by `Detector.StableSpec` and `Detector.StableNeedsFourFrames` |
| Detector.LabelSmoother.StableWithConfidence | app/backend/ml/easy_sign/detector.py:1136-1150 | no contract of its own; the method on the smoother's history, defined as `Detector.Stable` |
| Detector.TwoHands | app/backend/ml/easy_sign/detector.py:1295-1306 | no contract of its own; the two-hand digits; specified by `Detector.TwoHandDigit` |
| Detector.CatStep | app/backend/ml/easy_sign/detector.py:1311-1335 | no contract of its own; the cat stage; specified by `Detector.CatStepSpec`, `Detector.CatMissesSpec` and `Detector.FourMissesClear` |
| Detector.StaticLetter | app/backend/ml/easy_sign/detector.py:1368-1383 | no contract of its own; the static letters in their order; used by `Detector.OneHand` |
| Detector.OneHand | app/backend/ml/easy_sign/detector.py:1336-1383 | no contract of its own; the one-hand cascade; specified by `Detector.OneHandValid` |
| Detector.Recognize | app/backend/ml/easy_sign/detector.py:1286-1383 | no contract of its own; the hands of a frame; specified by `Detector.RecognizeValid` |
| Detector.Forget | app/backend/ml/easy_sign/detector.py:1385-1393 | no contract of its own; a frame without hands; specified by `Detector.NoHandsForgets` |
| Detector.DigitFallback | app/backend/ml/easy_sign/detector.py:1395-1402 | no contract of its own; the digit fallback on the first hand; used by `Detector.Classify` |
| Detector.ProcessStep | app/backend/ml/easy_sign/detector.py:1256-1413 | no contract of its own; `process_frame_bgr`; specified by `Detector.ProcessPreservesValid`, `Detector.OneHandCat` and `Detector.TwoHandDigit` |
| Detector.ImageStep | app/backend/ml/easy_sign/detector.py:1277-1413 | no contract of its own; the cascade and the vote; `Detector.GestureDetectorSession.ProcessImage` is proved against it |
| Detector.Classify | app/backend/ml/easy_sign/detector.py:1282-1402 | no contract of its own; the raw label; `Detector.GestureDetectorSession.ClassifyHands` is proved against it |
| Detector.Pattern | app/backend/ml/easy_sign/detector.py:776-794 | each digit 1–5 is one five-finger pattern |
| Detector.Raised | app/backend/ml/easy_sign/detector.py:776-794 | at most five raised fingers |
| Detector.DetectDigitSpec | app/backend/ml/easy_sign/detector.py:796-804 | a digit is read exactly when the fingers show its pattern, none when no pattern matches, and its value is the number of raised fingers |
| Detector.PatternsRaised | app/backend/ml/easy_sign/detector.py:776-794 | digit `d`'s pattern raises exactly `d` fingers |
| Detector.Labels | app/backend/ml/easy_sign/detector.py:1142 | the labels of the history, without the frames that had none |
| Detector.LabelsEmpty | app/backend/ml/easy_sign/detector.py:1141-1144 | the history has no label exactly when every frame had none |
| Detector.LeaderSpec | app/backend/ml/easy_sign/detector.py:1145 | the scanned leader occurs, is outnumbered by nothing, and precedes every label with as many votes |
| Detector.MostCommonSpec | app/backend/ml/easy_sign/detector.py:1145 | `most_common(1)` is a label that occurs, that no label outnumbers, that is first seen among ties, with its count |
| Detector.StableSpec | app/backend/ml/easy_sign/detector.py:1136-1150 | no labels give nothing with zero counts; otherwise the winner's votes over all labels is the confidence, and the label is stable only with at least four votes |
| Detector.Share | app/backend/ml/easy_sign/detector.py:1147 | a confidence is a share in (0, 1] |
| Detector.StableNeedsFourFrames | app/backend/ml/easy_sign/detector.py:1148-1149 | no label is stable with fewer than four votes, hence fewer than four frames |
| Detector.LabelSmoother.constructor | app/backend/ml/easy_sign/detector.py:1130-1131 | an empty history bounded by `maxlen` |
| Detector.LabelSmoother.Push | app/backend/ml/easy_sign/detector.py:1133-1134 | the history keeps its newest `maxlen` entries, losing the oldest of a full one |
| Detector.EnsureTs | app/backend/ml/easy_sign/detector.py:1249-1254 | the timestamp is above the last one and at least the one given: the given one when it is larger, else the last plus one |
| Detector.Stamps | app/backend/ml/easy_sign/detector.py:1249-1254 | one landmarker timestamp per frame |
| Detector.StampsIncrease | app/backend/ml/easy_sign/detector.py:1249-1271 | whatever timestamps the caller passes, the landmarker sees a strictly increasing series after the last one |
| Detector.Track | app/backend/ml/easy_sign/detector.py:1342-1367 | in its pose a dynamic letter's point joins the bounded trajectory and the letter is read exactly when the trajectory has its shape; out of the pose the trajectory is dropped |
| Detector.CatStepSpec | app/backend/ml/easy_sign/detector.py:1311-1335 | the cat stage keeps the bounds; a recognised cat clears the attempt and starts a 600 ms cooldown; inside the cooldown the cat state is unchanged |
| Detector.CatMiss | app/backend/ml/easy_sign/detector.py:1330-1334 | outside the cooldown, a single hand not in the cat pose counts a miss, and the fourth miss drops the attempt |
| Detector.CatSeries | app/backend/ml/easy_sign/detector.py:1311-1335 | cat stages over a series of frames keep the session's bounds |
| Detector.CatMissesSpec | app/backend/ml/easy_sign/detector.py:1330-1334 | misses add no point and leave the cooldown; after `k` of them the count is the old count plus `k` modulo four, and the attempt has been dropped once that sum reached four |
| Detector.FourMissesClear | app/backend/ml/easy_sign/detector.py:1331-1334 | four misses in a row always drop a cat attempt |
| Detector.OneHandValid | app/backend/ml/easy_sign/detector.py:1337-1383 | the one-hand cascade keeps the bounds and leaves the cat state alone |
| Detector.RecognizeValid | app/backend/ml/easy_sign/detector.py:1286-1383 | the hands branch keeps the bounds, the history and the timestamp |
| Detector.ProcessPreservesValid | app/backend/ml/easy_sign/detector.py:1256-1413 | a frame keeps the session's bounds and raises the timestamp; a non-image changes nothing else and is not voted on |
| Detector.NoHandsForgets | app/backend/ml/easy_sign/detector.py:1385-1405 | a frame without hands drops every trajectory and the miss count, reads nothing and votes that |
| Detector.OneHandCat | app/backend/ml/easy_sign/detector.py:1311-1335 | with one hand the cat state after the frame is the cat stage's at the frame's timestamp |
| Detector.TwoHandDigit | app/backend/ml/easy_sign/detector.py:1295-1307 | two hands showing 6–9 read that digit and leave every trajectory as it was |
| Detector.GestureDetectorSession.constructor | app/backend/ml/easy_sign/detector.py:1160-1199 | empty trajectories and history, no cooldown, no misses, timestamps from 0 |
| Detector.GestureDetectorSession.EnsureTimestamp | app/backend/ml/easy_sign/detector.py:1249-1254 | the stored timestamp becomes the returned one, above the last and at least the given; nothing else changes |
| Detector.GestureDetectorSession.ProcessFrame | app/backend/ml/easy_sign/detector.py:1256-1413 | the session and the reading after a frame, as the transition function above, keeping the bounds |
| Detector.GestureDetectorSession.ProcessImage | app/backend/ml/easy_sign/detector.py:1286-1413 | the part after the image check, as the transition function above |
| Detector.GestureDetectorSession.ClassifyHands | app/backend/ml/easy_sign/detector.py:1286-1402 | the cascade with its digit fallback, or forgetting every trajectory when no hand is seen |
| Detector.GestureDetectorSession.RecognizeHands | app/backend/ml/easy_sign/detector.py:1286-1383 | the hands branch, as the transition function above |
| Detector.GestureDetectorSession.CatStage | app/backend/ml/easy_sign/detector.py:1311-1335 | the cat stage, as the transition function above |
| Detector.GestureDetectorSession.OneHandStage | app/backend/ml/easy_sign/detector.py:1337-1383 | "0", the dynamic letters and the static letters, as the transition function above |

## Left out

- **Hand geometry.** Angles, distances, `palm_is_sideways`, `finger_extended`, the poses and the
  trajectory shape tests (resampling, smoothing, turn angles) are floating-point geometry over
  MediaPipe landmarks. They are the fields of a `Geometry` value, and only the order in which the
  session consults them is modelled.
- **MediaPipe.** The landmarker, `_resolve_model_path` and `close()` of the detector session are
  foreign code and resource handling.
- **Missing timestamp.** In `process_frame_bgr`, a missing `ts_ms` falls back to the monotonic
  clock. The model takes the timestamp as an argument.
- **The neural network.** The ONNX session, `_init_model`, softmax and frame preprocessing are left
  out. `predict` receives the probability vector as a function of the frames.
- **Image decoding.** Base64 and `cv2` decoding and resizing are a `decode` parameter that may fail.
- **Asynchrony in the socket handler.** asyncio tasks, `to_thread`, the 2-second queue timeout and
  the pinger are not modelled. The handler is modelled as two step functions: one receiver
  iteration and one main-loop iteration. The pinger's messages matter to the page only as pings,
  which the page ignores.
- **Logging and debug output.** `DEBUG_WS` logging and the `TELEGRAM_DEBUG` prints are output only.
- **Stable argsort.** `np.argsort` does not promise an order among equal probabilities. The model
  uses a stable insertion argsort, and its properties (descending order, nothing more probable
  left out) hold for any tie order.
- **Integer parsing.** `int()` on label indices is modelled for an optional `-` or `+` sign and
  ASCII digits with Python white space around. Underscores between digits and non-ASCII digits,
  which `int()` also accepts, are rejected by the model.
- **Cryptography and parsing in deps.py.** HMAC-SHA-256, `compare_digest`, `parse_qsl` and
  `json.loads` are parameters. The database session is a table of rows, and the conversion of the
  Telegram id to the column's type is not modelled.
- **Numbers in JSON.** JSON numbers are integers only. The server's confidence is a parameter of
  the result message. `Json.JsString` renders a number as its plain decimal digits, so it does
  not model that JavaScript's `String()` switches to exponent form from 1e21 on and loses integer
  precision above 2^53.
- **Browser features outside the model.** Not modelled:
  - on the practice page (`PracticeLesson.jsx`): the camera stream, canvas drawing, JPEG encoding
    (the data URL is an argument) and `requestAnimationFrame` scheduling;
  - on the roadmap (`Categories.jsx`): the backend fetches and the merging of fetched categories;
  - on the roadmap and lesson pages: the Telegram safe-area insets and `--vh` sizing;
  - on the roadmap: the roadmap drawing (`catmullRom2bezier`, node positions);
  - everywhere: navigation, which appears only as route parameters;
  - everywhere: the `focus` listener, which is the same `sync` as the visibility listener.
- **Exercise.jsx `getAuthHeaders`.** On the lesson page it calls `getInitData`, which that file
  never defines (Exercise.jsx:38). Only its offline catalog is modelled.
- **Storage text.** `localStorage` is modelled at the level of the parsed value of its one key: no
  value, text that does not parse, or a JSON value. JSON text syntax is not modelled.
- **Framebuffer.FrameBuffer.Add:** requires a non-zero interval, because `%` by zero raises
  `ZeroDivisionError` in the source and the model does not represent that exception.
- **Practice.Connection.OnVisibility:** closes the socket with code 1000, not with the 1001 that
  PracticeLesson.jsx:335 passes. So do `Practice.Connection.VisibilityChange`,
  `Practice.VisibilityStep` and `Practice.VisibilityPreservesValid`. `WebSocket.close` rejects
  1001, so the source's hidden branch leaves the socket open. The transport invariant does not
  hold for that behaviour, and it is modelled apart as `Practice.VisibilityStepAsWritten`, with
  its consequence in `Practice.HideAsWrittenLeaks` (see Findings).
- **Text.LowerChar / Text.Lower:** fold only A–Z, U+00C0–U+00DE (without U+00D7) and
  U+0400–U+042F, one character to one. The rest of Unicode's lower-casing is not modelled:
  other capitals (Greek, Latin Extended, Armenian and so on) are left unchanged; the
  context-dependent final sigma is not modelled; and `İ` (U+0130) stays one character, though
  `toLowerCase` turns it into two. The word match (`Practice.Normalize`) and the dictionary's
  title search see only this folding.
- **Dictionary.ProgressPercent / Dictionary.ProgressRounds:** compute the percentage on exact rationals. The source divides
  and multiplies in IEEE doubles before `Math.round`. The results differ when the exact
  percentage is a half that a double falls just below; for example, 29 of 200 gives 15 in the
  model and 14 in the source.
- **Dictionary.ToggleLearned:** requires the selected category to exist. The source would crash on
  `undefined.map`, and the page only ever selects existing categories.
- **Detector.Stable:** computes the confidence `votes / total` as an exact rational (`real`), and
  so do `Detector.StableSpec`, the `confidence` of `Detector.Vote` and of `Detector.Reading`. The
  source's `conf` is a Python float quotient (detector.py:1147), which is rounded to a double. The
  vote, the counts and the stability gate use integers only and are unaffected.
- **Predictor.LoadFormatted:** holds for labels without `\n` or `\r` (part of
  `Predictor.Storable`). A label holding them would be split over several lines when the file is
  read, and the model takes the file as its list of lines, so it does not state what such a file
  loads to.

## Findings

| source | as written | input that shows it | evidently intended | confidence | as-written member | corrected member |
|---|---|---|---|---|---|---|
| app/frontend/src/Components/PracticeLesson.jsx:335 | the tab-hidden branch calls `closeWs(1001, "tab_hidden")`. `WebSocket.close` accepts only 1000 and 3000–4999, so it throws `InvalidAccessError`, which `closeWs` swallows (lines 204-206) before forgetting `wsRef` | an open socket and a `visibilitychange` to hidden, then back to visible: the first socket stays open with live handlers, and `reconnectNow` creates a second one | close the socket with an accepted code such as 1000, so that hiding the tab really closes it | not executed | Practice.HideAsWrittenLeaks | Practice.HideQuiesces |
| app/frontend/src/Components/Exercise.jsx:240 | the practice button opens `/practice?lesson_id=${currentLesson.lesson_id ?? ""}` without the category or the order, while the practice page falls back to `category:order` when `lesson_id` is empty (PracticeLesson.jsx:39-43) | a lesson of the built-in catalog, `lesson_id` null and order 1 in category `words`: the practice page's key is `":"`, not `words:1`, so marking it done there never shows on the roadmap | pass the category and the order along, so that the practice page computes the lesson page's key | not executed | Practice.ExerciseLinkLosesOfflineKey | Practice.PracticeLinkKeepsKey |
