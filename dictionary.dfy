/**
 * The dictionary page: words grouped by category, a search box over the selected
 * category, the learned-word progress bar, and the per-word "learned" star.
 */
module Dictionary {
  import opened Text

  datatype Item = Item(id: int, title: string, learned: bool)

  /** The catalog state `list`: category name to its items. */
  type Catalog = map<string, seq<Item>>

  /** The built-in catalog, in the key order `Object.keys` yields. */
  const CategoryNames := ["Food", "Nature", "Travel"]

  const InitialCatalog: Catalog := map[
    "Food" := [Item(1, "Дикий огурец", true), Item(2, "Дикий латяо", false), Item(3, "Дикий помидор", true),
               Item(4, "Дикий дуриан", false), Item(5, "Дикий рис", true), Item(6, "Дикий арбуз", false)],
    "Nature" := [Item(7, "Горный ветер", false), Item(8, "Туманный лес", false)],
    "Travel" := [Item(9, "Аэропорт", true), Item(10, "Багаж", false)]]

  /** The initially selected category: the first key, or the empty name without one. */
  function DefaultSelected(names: seq<string>): (r: string)
    ensures names != [] ==> r == names[0] && r in names
    ensures names == [] ==> r == ""
  {
    if names != [] then names[0] else ""
  }

  lemma InitialSelection()
    ensures DefaultSelected(CategoryNames) == "Food" && "Food" in InitialCatalog
    ensures InitialCatalog.Keys == set c | c in CategoryNames
  {
  }

  /** `list[selected] ?? []`. */
  function ItemsOf(list: Catalog, selected: string): (r: seq<Item>)
    ensures selected in list ==> r == list[selected]
    ensures selected !in list ==> r == []
  {
    if selected in list then list[selected] else []
  }

  // ---------------------------------------------------------------- search

  /** The items whose lower-cased title contains `q`, in their order. */
  function MatchingTitles(items: seq<Item>, q: string): (r: seq<Item>)
    ensures |r| <= |items|
  {
    if items == [] then []
    else
      var rest := MatchingTitles(items[1..], q);
      if Includes(Lower(items[0].title), q) then [items[0]] + rest else rest
  }

  /** The `filtered` memo: all items for a blank query, otherwise those whose lower-cased title
      contains the trimmed, lower-cased query. */
  function Filtered(items: seq<Item>, search: string): (r: seq<Item>) {
    var q := Lower(Trim(search));
    if q == [] then items else MatchingTitles(items, q)
  }

  /** `a` is `b` with some elements left out, the rest in their order. */
  predicate SubsequenceOf(a: seq<Item>, b: seq<Item>)
    decreases |b|
  {
    if a == [] then true
    else if b == [] then false
    else (a[0] == b[0] && SubsequenceOf(a[1..], b[1..])) || SubsequenceOf(a, b[1..])
  }

  lemma {:induction false} SubsequenceOfSelf(a: seq<Item>)
    ensures SubsequenceOf(a, a)
  {
    if a != [] {
      SubsequenceOfSelf(a[1..]);
    }
  }

  /** The search keeps exactly the items whose title matches, and keeps them in order. */
  lemma {:induction false} MatchingTitlesSpec(items: seq<Item>, q: string)
    ensures SubsequenceOf(MatchingTitles(items, q), items)
    ensures forall x :: x in MatchingTitles(items, q) <==> x in items && Includes(Lower(x.title), q)
  {
    if items != [] {
      MatchingTitlesSpec(items[1..], q);
      var rest := MatchingTitles(items[1..], q);
      if Includes(Lower(items[0].title), q) {
        assert ([items[0]] + rest)[1..] == rest;
      } else if rest != [] {
        assert SubsequenceOf(rest, items[1..]);
      }
      assert items == [items[0]] + items[1..];
    }
  }

  /** A blank query shows the whole category; any other shows the matching items in order. */
  lemma FilteredSpec(items: seq<Item>, search: string)
    ensures Lower(Trim(search)) == [] ==> Filtered(items, search) == items
    ensures SubsequenceOf(Filtered(items, search), items)
    ensures Lower(Trim(search)) != [] ==>
              forall x :: x in Filtered(items, search) <==>
                x in items && Includes(Lower(x.title), Lower(Trim(search)))
  {
    SubsequenceOfSelf(items);
    MatchingTitlesSpec(items, Lower(Trim(search)));
  }

  // ---------------------------------------------------------------- progress

  /** `items.filter(i => i.learned).length`. */
  function LearnedCount(items: seq<Item>): (n: nat)
    ensures n <= |items|
  {
    if items == [] then 0 else (if items[0].learned then 1 else 0) + LearnedCount(items[1..])
  }

  /** `items.length || 1`. */
  function TotalCount(items: seq<Item>): (n: nat)
    ensures n >= 1
    ensures items != [] ==> n == |items|
    ensures items == [] ==> n == 1
  {
    if |items| == 0 then 1 else |items|
  }

  /** `Math.round(learned / total * 100)`, computed exactly: rounding half up is the floor of
      the value plus one half. */
  function ProgressPercent(learned: nat, total: nat): (p: int)
    requires total >= 1
  {
    (200 * learned + total) / (2 * total)
  }

  /** The percentage is the exact ratio rounded half up. */
  lemma ProgressRounds(learned: nat, total: nat)
    requires total >= 1
    ensures var p := ProgressPercent(learned, total);
            2 * total * p <= 200 * learned + total < 2 * total * (p + 1)
  {
  }

  /** The percentage lies in 0..100; it is 0 with nothing learned and 100 with everything. */
  lemma ProgressBounds(learned: nat, total: nat)
    requires 1 <= total && learned <= total
    ensures 0 <= ProgressPercent(learned, total) <= 100
    ensures learned == 0 ==> ProgressPercent(learned, total) == 0
    ensures learned == total ==> ProgressPercent(learned, total) == 100
  {
    var p, t2 := ProgressPercent(learned, total), 2 * total;
    ProgressRounds(learned, total);
    MulCancel(t2, p, 101);
    MulCancel(t2, 0, p + 1);
    if learned == 0 {
      MulCancel(t2, p, 1);
    }
    if learned == total {
      MulCancel(t2, 100, p + 1);
    }
  }

  lemma MulCancel(a: int, b: int, c: int)
    requires a > 0
    ensures a * b < a * c ==> b < c
  {
    if b >= c {
      assert a * b - a * c == a * (b - c);
    }
  }

  /** The page's bar for one category: in 0..100, and 0 for an empty category. */
  lemma CategoryProgress(items: seq<Item>)
    ensures 0 <= ProgressPercent(LearnedCount(items), TotalCount(items)) <= 100
    ensures items == [] ==> ProgressPercent(LearnedCount(items), TotalCount(items)) == 0
  {
    ProgressBounds(LearnedCount(items), TotalCount(items));
  }

  // ---------------------------------------------------------------- the star

  /** `i.id === id ? { ...i, learned: !i.learned } : i` over one category. */
  function FlipLearned(items: seq<Item>, id: int): (r: seq<Item>)
    ensures |r| == |items|
    ensures forall i :: 0 <= i < |items| ==>
              r[i] == if items[i].id == id then items[i].(learned := !items[i].learned) else items[i]
  {
    if items == [] then [] else
      [if items[0].id == id then items[0].(learned := !items[0].learned) else items[0]] + FlipLearned(items[1..], id)
  }

  /** `toggleLearned(id)`: the selected category's items with matching ids flipped. The update
      reads `prev[selected]`, which exists because `selected` is always one of the catalog's keys. */
  function ToggleLearned(list: Catalog, selected: string, id: int): (r: Catalog)
    requires selected in list
  {
    list[selected := FlipLearned(list[selected], id)]
  }

  /** Only `learned` of the matching items of the selected category changes; ids, titles, the
      other items and the other categories stay as they were. */
  lemma ToggleLearnedChanges(list: Catalog, selected: string, id: int)
    requires selected in list
    ensures ToggleLearned(list, selected, id).Keys == list.Keys
    ensures forall c :: c in list && c != selected ==> ToggleLearned(list, selected, id)[c] == list[c]
    ensures var before, after := list[selected], ToggleLearned(list, selected, id)[selected];
            |after| == |before| &&
            forall i :: 0 <= i < |before| ==>
              after[i].id == before[i].id && after[i].title == before[i].title &&
              after[i].learned == (if before[i].id == id then !before[i].learned else before[i].learned)
  {
  }

  /** Toggling the same word twice gives back the catalog. */
  lemma ToggleLearnedTwice(list: Catalog, selected: string, id: int)
    requires selected in list
    ensures ToggleLearned(ToggleLearned(list, selected, id), selected, id) == list
  {
    var once := FlipLearned(list[selected], id);
    var twice := FlipLearned(once, id);
    assert twice == list[selected];
    assert list[selected := twice] == list;
  }
}
