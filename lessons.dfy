/**
 * Lesson identity, completion keys, the unlock chain of the lesson roadmap,
 * the built-in lesson catalogs and the previous/next bounds of the lesson page.
 */
module Lessons {
  import opened Wrappers
  import opened Text
  import opened Progress

  /** A lesson as the frontend holds it. `None` stands for a JSON `null`. */
  datatype Lesson = Lesson(lessonId: Option<int>, lessonOrder: Option<int>, title: string, contentUrl: string)

  /** `Number(lesson.lesson_order)`: a `null` order reads as 0. */
  function OrderNumber(l: Lesson): int {
    l.lessonOrder.GetOr(0)
  }

  // ---------------------------------------------------------------- URLs

  predicate IsSlash(c: char) {
    c == '/'
  }

  /** `joinUrl(base, path)` of the roadmap and lesson pages. */
  function JoinUrl(base: string, path: string): string {
    if base == [] then path
    else DropWhileEnd(base, IsSlash) + "/" + DropWhile(path, IsSlash)
  }

  /** `url` is `b + "/" + p`, where `b` is `base` short of its trailing slashes and `p` is
      `path` short of its leading ones. */
  predicate JoinedAs(base: string, path: string, url: string, b: string, p: string) {
    url == b + "/" + p &&
    b <= base && AllSatisfy(base[|b|..], IsSlash) && (b == [] || b[|b| - 1] != '/') &&
    |p| <= |path| && p == path[|path| - |p|..] &&
    AllSatisfy(path[..|path| - |p|], IsSlash) && (p == [] || p[0] != '/')
  }

  /** An empty base leaves the path alone; otherwise the trailing slashes of the base and the
      leading slashes of the path are replaced by exactly one slash. */
  lemma JoinUrlSpec(base: string, path: string)
    ensures base == [] ==> JoinUrl(base, path) == path
    ensures base != [] ==> exists b, p :: JoinedAs(base, path, JoinUrl(base, path), b, p)
  {
    if base != [] {
      var b := DropWhileEnd(base, IsSlash);
      var p := DropWhile(path, IsSlash);
      var url := JoinUrl(base, path);
      assert url == b + "/" + p;
      assert JoinedAs(base, path, url, b, p);
    }
  }

  // ---------------------------------------------------------------- completion keys

  /** `${slug}:${order}`, the key of a lesson known only by its place in its category. */
  function PositionKey(slug: string, order: int): string {
    slug + ":" + IntToString(order)
  }

  /** `keysForLesson(slug, lesson)`: the backend id, then the position key, for whichever is not null. */
  function KeysForLesson(slug: string, l: Lesson): (r: seq<string>)
    ensures |r| <= 2
    ensures forall k :: k in r <==>
              (l.lessonId.Some? && k == IntToString(l.lessonId.value)) ||
              (l.lessonOrder.Some? && k == PositionKey(slug, l.lessonOrder.value))
  {
    (if l.lessonId.Some? then [IntToString(l.lessonId.value)] else []) +
    (if l.lessonOrder.Some? then [PositionKey(slug, l.lessonOrder.value)] else [])
  }

  /** `hasCompleted(slug, lesson, keys)`: some key of the lesson is in the set. */
  predicate HasCompleted(slug: string, l: Lesson, keys: seq<string>) {
    exists k :: k in KeysForLesson(slug, l) && k in keys
  }

  /** A lesson counts as completed exactly when its id or its position key is in the set. */
  lemma HasCompletedSpec(slug: string, l: Lesson, keys: seq<string>)
    ensures HasCompleted(slug, l, keys) <==>
              (l.lessonId.Some? && IntToString(l.lessonId.value) in keys) ||
              (l.lessonOrder.Some? && PositionKey(slug, l.lessonOrder.value) in keys)
  {
    if l.lessonId.Some? && IntToString(l.lessonId.value) in keys {
      assert IntToString(l.lessonId.value) in KeysForLesson(slug, l);
    }
    if l.lessonOrder.Some? && PositionKey(slug, l.lessonOrder.value) in keys {
      assert PositionKey(slug, l.lessonOrder.value) in KeysForLesson(slug, l);
    }
  }

  /** `lessonKey(slug, lesson)` of the roadmap and lesson pages: the id when there is one,
      else `${slug}:${lesson_order ?? ""}`. */
  function LessonKey(slug: string, l: Lesson): (k: string)
    ensures l.lessonId.Some? ==> k == IntToString(l.lessonId.value)
    ensures l.lessonId.None? && l.lessonOrder.Some? ==> k == PositionKey(slug, l.lessonOrder.value)
    ensures l.lessonId.None? && l.lessonOrder.None? ==> k == slug + ":"
  {
    if l.lessonId.Some? then IntToString(l.lessonId.value)
    else slug + ":" + (if l.lessonOrder.Some? then IntToString(l.lessonOrder.value) else "")
  }

  /** The key the lesson page writes is one the roadmap reads, unless the lesson has neither id nor order. */
  lemma LessonKeyIsRead(slug: string, l: Lesson)
    requires l.lessonId.Some? || l.lessonOrder.Some?
    ensures LessonKey(slug, l) in KeysForLesson(slug, l)
  {
  }

  // ---------------------------------------------------------------- built-in catalogs

  const RusAlphabet: seq<string> := [
    "А", "Б", "В", "Г", "Д", "Е", "Ё", "Ж", "З", "И", "Й", "К", "Л", "М", "Н", "О", "П",
    "Р", "С", "Т", "У", "Ф", "Х", "Ц", "Ч", "Ш", "Щ", "Ъ", "Ы", "Ь", "Э", "Ю", "Я"]

  /** The animal lessons: video file name and title. */
  const Animals: seq<(string, string)> := [
    ("cat", "Кошка"), ("dog", "Собака"), ("goat", "Коза"), ("moose", "Лось"), ("snake", "Змея"),
    ("dolphin", "Дельфин"), ("donkey", "Осёл"), ("eagle", "Орел"), ("fox", "Лиса"), ("elephant", "Слон")]

  /** `buildMockLessons(slug)`: the offline catalog of a category. */
  function BuildMockLessons(slug: string): seq<Lesson> {
    if slug == "words" then
      seq(|RusAlphabet|, i requires 0 <= i < |RusAlphabet| =>
        Lesson(None, Some(i + 1), RusAlphabet[i], "/videos/words/" + RusAlphabet[i] + ".mp4"))
    else if slug == "numbers" then
      seq(10, i requires 0 <= i < 10 =>
        Lesson(None, Some(i + 1), IntToString(i), "/videos/numbers/" + IntToString(i) + ".mp4"))
    else if slug == "animals" then
      seq(|Animals|, i requires 0 <= i < |Animals| =>
        Lesson(None, Some(i + 1), Animals[i].1, "/videos/animals/" + Animals[i].0 + ".mp4"))
    else []
  }

  /** The number of lessons in the offline catalog of `slug`. */
  function MockCount(slug: string): nat {
    if slug == "words" then 33 else if slug == "numbers" || slug == "animals" then 10 else 0
  }

  /** The offline catalogs have orders 1..n in sequence and no backend ids. */
  lemma MockLessonsShape(slug: string)
    ensures |BuildMockLessons(slug)| == MockCount(slug)
    ensures forall i :: 0 <= i < |BuildMockLessons(slug)| ==>
              BuildMockLessons(slug)[i].lessonOrder == Some(i + 1) && BuildMockLessons(slug)[i].lessonId.None?
  {
  }

  // ---------------------------------------------------------------- unlock chain

  /** The last lesson whose `Number(lesson_order)` is `n` (later `Map.set` calls overwrite earlier ones). */
  function LastWithOrder(lessons: seq<Lesson>, n: int): Option<Lesson> {
    if lessons == [] then None
    else
      var last := lessons[|lessons| - 1];
      if OrderNumber(last) == n then Some(last) else LastWithOrder(lessons[..|lessons| - 1], n)
  }

  /** Nothing is found exactly when no lesson has order `n`; what is found has order `n` and
      no later lesson has it. */
  lemma {:induction false} LastWithOrderSpec(lessons: seq<Lesson>, n: int)
    ensures LastWithOrder(lessons, n).None? <==> forall i :: 0 <= i < |lessons| ==> OrderNumber(lessons[i]) != n
    ensures LastWithOrder(lessons, n).Some? ==>
              exists i :: 0 <= i < |lessons| && lessons[i] == LastWithOrder(lessons, n).value &&
                OrderNumber(lessons[i]) == n && forall j :: i < j < |lessons| ==> OrderNumber(lessons[j]) != n
  {
    if lessons != [] {
      var front := lessons[..|lessons| - 1];
      var last := lessons[|lessons| - 1];
      if OrderNumber(last) == n {
        assert lessons[|lessons| - 1] == last;
      } else {
        LastWithOrderSpec(front, n);
        assert forall i :: 0 <= i < |front| ==> lessons[i] == front[i];
        if LastWithOrder(front, n).Some? {
          var i :| 0 <= i < |front| && front[i] == LastWithOrder(front, n).value &&
                   OrderNumber(front[i]) == n && forall j :: i < j < |front| ==> OrderNumber(front[j]) != n;
          assert lessons[i] == LastWithOrder(lessons, n).value;
        }
      }
    }
  }

  /** The `lessonByOrder` map as a value: each order to the last lesson carrying it. */
  function OrderIndex(lessons: seq<Lesson>): map<int, Lesson> {
    if lessons == [] then map[]
    else OrderIndex(lessons[..|lessons| - 1])[OrderNumber(lessons[|lessons| - 1]) := lessons[|lessons| - 1]]
  }

  function Lookup(m: map<int, Lesson>, n: int): Option<Lesson> {
    if n in m then Some(m[n]) else None
  }

  lemma {:induction false} OrderIndexLookup(lessons: seq<Lesson>, n: int)
    ensures Lookup(OrderIndex(lessons), n) == LastWithOrder(lessons, n)
  {
    if lessons != [] {
      OrderIndexLookup(lessons[..|lessons| - 1], n);
    }
  }

  /** The `lessonByOrder` memo: `forEach` lesson, `m.set(Number(l.lesson_order), l)`. */
  method LessonByOrder(lessons: seq<Lesson>) returns (m: map<int, Lesson>)
    ensures m == OrderIndex(lessons)
  {
    m := map[];
    for i := 0 to |lessons|
      invariant m == OrderIndex(lessons[..i])
    {
      assert lessons[..i + 1][..i] == lessons[..i];
      m := m[OrderNumber(lessons[i]) := lessons[i]];
    }
    assert lessons[..|lessons|] == lessons;
  }

  /** `isUnlocked(lesson)` on the roadmap, given the `lessonByOrder` map and the completed set. */
  predicate IsUnlocked(slug: string, byOrder: map<int, Lesson>, keys: seq<string>, l: Lesson) {
    var ord := OrderNumber(l);
    if ord == 0 then false
    else if ord == 1 then true
    else match Lookup(byOrder, ord - 1)
      case None => true
      case Some(prev) => HasCompleted(slug, prev, keys)
  }

  /** A missing or zero order locks the lesson; order 1 is always open. */
  lemma UnlockedBase(slug: string, lessons: seq<Lesson>, keys: seq<string>, l: Lesson)
    ensures OrderNumber(l) == 0 ==> !IsUnlocked(slug, OrderIndex(lessons), keys, l)
    ensures OrderNumber(l) == 1 ==> IsUnlocked(slug, OrderIndex(lessons), keys, l)
  {
  }

  /** For any other order n, the lesson is open when no loaded lesson has order n-1,
      and otherwise exactly when that predecessor (the last one loaded) is completed. */
  lemma UnlockedChain(slug: string, lessons: seq<Lesson>, keys: seq<string>, l: Lesson)
    requires OrderNumber(l) != 0 && OrderNumber(l) != 1
    ensures (forall i :: 0 <= i < |lessons| ==> OrderNumber(lessons[i]) != OrderNumber(l) - 1) ==>
              IsUnlocked(slug, OrderIndex(lessons), keys, l)
    ensures LastWithOrder(lessons, OrderNumber(l) - 1).Some? ==>
              (IsUnlocked(slug, OrderIndex(lessons), keys, l) <==>
               HasCompleted(slug, LastWithOrder(lessons, OrderNumber(l) - 1).value, keys))
  {
    OrderIndexLookup(lessons, OrderNumber(l) - 1);
    LastWithOrderSpec(lessons, OrderNumber(l) - 1);
  }

  /** Marking the predecessor completed through its lesson key opens the lesson; for a
      predecessor with no backend id, toggling that key off again closes it. */
  lemma UnlockRoundTrip(slug: string, lessons: seq<Lesson>, keys: seq<string>, l: Lesson)
    requires OrderNumber(l) != 0 && OrderNumber(l) != 1
    requires LastWithOrder(lessons, OrderNumber(l) - 1).Some?
    ensures var prev := LastWithOrder(lessons, OrderNumber(l) - 1).value;
            var k := LessonKey(slug, prev);
            IsUnlocked(slug, OrderIndex(lessons), AddKey(keys, k), l) &&
            (prev.lessonId.None? && k in keys ==> !IsUnlocked(slug, OrderIndex(lessons), ToggleKey(keys, k), l))
  {
    var prev := LastWithOrder(lessons, OrderNumber(l) - 1).value;
    var k := LessonKey(slug, prev);
    LastWithOrderSpec(lessons, OrderNumber(l) - 1);
    UnlockedChain(slug, lessons, AddKey(keys, k), l);
    UnlockedChain(slug, lessons, ToggleKey(keys, k), l);
    AddKeyMembers(keys, k);
    ToggleKeyMembers(keys, k);
    assert OrderNumber(prev) == OrderNumber(l) - 1;
    assert prev.lessonOrder.Some?;
    HasCompletedSpec(slug, prev, AddKey(keys, k));
    HasCompletedSpec(slug, prev, ToggleKey(keys, k));
  }

  // ---------------------------------------------------------------- lesson page navigation

  /** `Number(order || 1)`: `None` stands for an absent or empty route parameter. */
  function CurrentOrder(orderParam: Option<int>): int {
    orderParam.GetOr(1)
  }

  /** `lessons.find(l => Number(l.lesson_order) === currentOrder) || null`. */
  function CurrentLesson(lessons: seq<Lesson>, current: int): (r: Option<Lesson>)
    ensures r.None? <==> forall i :: 0 <= i < |lessons| ==> OrderNumber(lessons[i]) != current
    ensures r.Some? ==> exists i :: 0 <= i < |lessons| && lessons[i] == r.value && OrderNumber(lessons[i]) == current &&
                          forall j :: 0 <= j < i ==> OrderNumber(lessons[j]) != current
  {
    if lessons == [] then None
    else if OrderNumber(lessons[0]) == current then Some(lessons[0])
    else
      CurrentLesson(lessons[1..], current)
  }

  /** `Number(lessons[lessons.length - 1]?.lesson_order || currentOrder)`. */
  function MaxOrder(lessons: seq<Lesson>, current: int): (m: int)
    ensures lessons != [] && OrderNumber(lessons[|lessons| - 1]) != 0 ==> m == OrderNumber(lessons[|lessons| - 1])
    ensures lessons == [] || OrderNumber(lessons[|lessons| - 1]) == 0 ==> m == current
  {
    if lessons == [] || OrderNumber(lessons[|lessons| - 1]) == 0 then current
    else OrderNumber(lessons[|lessons| - 1])
  }

  /** `goPrev`: the order to navigate to, if any. */
  function GoPrev(current: int): Option<int> {
    if current - 1 < 1 then None else Some(current - 1)
  }

  /** `goNext`: the order to navigate to, if any. */
  function GoNext(lessons: seq<Lesson>, current: int): Option<int> {
    if current + 1 > MaxOrder(lessons, current) then None else Some(current + 1)
  }

  predicate PrevDisabled(current: int) {
    current <= 1
  }

  predicate NextDisabled(lessons: seq<Lesson>, current: int) {
    current >= MaxOrder(lessons, current)
  }

  /** "Back" never goes below order 1, and navigates exactly when its button is enabled. */
  lemma GoPrevBounds(current: int)
    ensures GoPrev(current).Some? ==> GoPrev(current).value >= 1 && GoPrev(current).value == current - 1
    ensures GoPrev(current).Some? <==> !PrevDisabled(current)
  {
  }

  /** "Forward" never goes past the last lesson's order, and navigates exactly when its button is enabled. */
  lemma GoNextBounds(lessons: seq<Lesson>, current: int)
    ensures GoNext(lessons, current).Some? ==>
              GoNext(lessons, current).value <= MaxOrder(lessons, current) &&
              GoNext(lessons, current).value == current + 1
    ensures GoNext(lessons, current).Some? <==> !NextDisabled(lessons, current)
  {
  }
}
