/**
 * The state the lesson roadmap and the lesson page keep between events: the
 * completed-key set each holds, and how each re-reads or writes the shared store.
 */
module Views {
  import opened Wrappers
  import opened Progress
  import opened Lessons

  /** The set the roadmap keeps after a `sync`: the previous one when the re-read set equals it. */
  function Synced(prev: seq<string>, next: seq<string>): seq<string> {
    if SameSizeAndSubset(prev, next) then prev else next
  }

  /** Whichever object `sync` keeps, it holds exactly the keys just read. */
  lemma SyncedMembers(prev: seq<string>, stored: Stored)
    requires Distinct(prev)
    ensures forall x :: x in Synced(prev, CompletedOf(stored)) <==> x in CompletedOf(stored)
  {
    ReadCompletedShape(stored);
    if SameSizeAndSubset(prev, CompletedOf(stored)) {
      var next := CompletedOf(stored);
      SetsEqualIsSetEquality(prev, next);
      var sp, sn := (set y | y in prev), (set y | y in next);
      assert sp == sn;
      forall x ensures x in prev <==> x in next {
        assert x in prev <==> x in sp;
        assert x in next <==> x in sn;
      }
    }
  }

  /** The lesson roadmap of one category. `generation` counts the set objects `completedKeys`
      has held, so a kept object leaves it unchanged and no re-render follows. */
  class CategoriesView {
    var slug: string
    var lessons: seq<Lesson>
    var completedKeys: seq<string>
    var generation: nat
    const store: ProgressStore

    predicate Valid()
      reads this
    {
      Distinct(completedKeys)
    }

    /** Mounting: the offline catalog of the first category and the stored set. */
    constructor (store: ProgressStore)
      ensures this.store == store && slug == "words" && lessons == BuildMockLessons("words")
      ensures completedKeys == CompletedOf(store.stored) && generation == 0
      ensures Valid()
    {
      this.store := store;
      slug := "words";
      lessons := BuildMockLessons("words");
      generation := 0;
      new;
      completedKeys := store.Read();
      ReadCompletedShape(store.stored);
    }

    /** `sync`, run on window focus: re-read the store and keep the old set when equal. */
    method Sync()
      requires Valid()
      modifies this
      ensures completedKeys == Synced(old(completedKeys), CompletedOf(store.stored))
      ensures generation == if completedKeys == old(completedKeys) && SameSizeAndSubset(old(completedKeys), CompletedOf(store.stored))
                            then old(generation) else old(generation) + 1
      ensures slug == old(slug) && lessons == old(lessons)
      ensures Valid()
    {
      var next := store.Read();
      ReadCompletedShape(store.stored);
      var same := SetsEqual(completedKeys, next);
      if !same {
        completedKeys := next;
        generation := generation + 1;
      }
    }

    /** The `visibilitychange` listener: sync when the page became visible. */
    method VisibilityChange(hidden: bool)
      requires Valid()
      modifies this
      ensures hidden ==> completedKeys == old(completedKeys) && generation == old(generation)
      ensures !hidden ==> completedKeys == Synced(old(completedKeys), CompletedOf(store.stored))
      ensures slug == old(slug) && lessons == old(lessons)
      ensures Valid()
    {
      if !hidden {
        Sync();
      }
    }

    /** `isUnlocked(lesson)` against the current state. */
    method IsUnlockedNow(l: Lesson) returns (r: bool)
      ensures r == IsUnlocked(slug, OrderIndex(lessons), completedKeys, l)
    {
      var byOrder := LessonByOrder(lessons);
      r := IsUnlocked(slug, byOrder, completedKeys, l);
    }
  }

  /** The lesson page for route `/exercise/:category/:order`. */
  class ExerciseView {
    var category: string
    var orderParam: Option<int>
    var lessons: seq<Lesson>
    var completedKeys: seq<string>
    const store: ProgressStore

    predicate Valid()
      reads this
    {
      Distinct(completedKeys)
    }

    function Current(): Option<Lesson>
      reads this
    {
      CurrentLesson(lessons, CurrentOrder(orderParam))
    }

    /** `isCompleted`: the current lesson's key is in the set. */
    predicate IsCompleted()
      reads this
    {
      Current().Some? && LessonKey(category, Current().value) in completedKeys
    }

    constructor (category: string, orderParam: Option<int>, store: ProgressStore)
      ensures this.category == category && this.orderParam == orderParam && this.store == store
      ensures lessons == BuildMockLessons(category) && completedKeys == CompletedOf(store.stored)
      ensures Valid()
    {
      this.category := category;
      this.orderParam := orderParam;
      this.store := store;
      lessons := BuildMockLessons(category);
      new;
      completedKeys := store.Read();
      ReadCompletedShape(store.stored);
    }

    /** `toggleCompleted`: nothing without a current lesson; otherwise flip its key and persist. */
    method ToggleCompleted()
      requires Valid()
      modifies this, store
      ensures category == old(category) && orderParam == old(orderParam) && lessons == old(lessons)
      ensures old(Current()).None? ==> completedKeys == old(completedKeys) && store.stored == old(store.stored)
      ensures old(Current()).Some? ==>
                completedKeys == ToggleKey(old(completedKeys), LessonKey(category, old(Current()).value)) &&
                store.stored == WriteCompleted(completedKeys)
      ensures old(Current()).Some? ==> IsCompleted() == !old(IsCompleted())
      ensures Valid()
    {
      var cur := CurrentLesson(lessons, CurrentOrder(orderParam));
      if cur.None? {
        return;
      }
      var key := LessonKey(category, cur.value);
      ToggleKeyMembers(completedKeys, key);
      completedKeys := ToggleKey(completedKeys, key);
      store.Write(completedKeys);
    }

    /** Following `goPrev`/`goNext` to a new route: the order changes and the set is re-read. */
    method Navigate(target: Option<int>)
      modifies this
      ensures target.Some? ==> orderParam == Some(target.value) && completedKeys == CompletedOf(store.stored)
      ensures target.None? ==> orderParam == old(orderParam) && completedKeys == old(completedKeys)
      ensures category == old(category) && lessons == old(lessons)
      ensures old(Valid()) ==> Valid()
    {
      if target.Some? {
        orderParam := Some(target.value);
        completedKeys := store.Read();
        ReadCompletedShape(store.stored);
      }
    }
  }
}
