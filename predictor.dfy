/**
 * The sign classifier's `Predictor`: the class-list file it loads at start-up and the
 * top-k selection it makes from the model's class probabilities.
 */
module Predictor {
  import opened Wrappers
  import opened Text

  const DefaultThreshold: real := 0.5
  const DefaultTopK: int := 1
  const ValueError := "ValueError"
  const KeyError := "KeyError"

  /** The loaded predictor: the `threshold` and `topk` read from its configuration, and `labels`. */
  datatype Predictor = Predictor(threshold: real, topk: int, labels: map<int, string>)

  // ---------------------------------------------------------------- the class list

  /** Python's `int(s)` on a string: surrounding white space, then a signed decimal number. */
  function ParseInt(s: string): Option<int> {
    ParseSigned(PyStrip(s))
  }

  /** An optional sign and at least one ASCII digit. */
  function ParseSigned(t: string): Option<int> {
    var neg := t != [] && t[0] == '-';
    var body := if t != [] && (t[0] == '-' || t[0] == '+') then t[1..] else t;
    if body != [] && forall i :: 0 <= i < |body| ==> '0' <= body[i] <= '9' then
      var v: int := DigitsValue(body);
      Some(if neg then -v else v)
    else None
  }

  /** The position of the first tab in `s`. */
  function FindTab(s: string): (r: Option<nat>)
    ensures r.Some? ==> r.value < |s| && s[r.value] == '\t' && '\t' !in s[..r.value]
    ensures r.None? ==> '\t' !in s
  {
    if s == [] then None
    else if s[0] == '\t' then Some(0)
    else match FindTab(s[1..]) {
      case None => None
      case Some(i) => assert s[..i + 1] == [s[0]] + s[1..][..i]; Some(i + 1)
    }
  }

  /** One stripped line `idx\tlabel`, split at its first tab and unpacked into an entry. */
  function ParseLine(line: string): Option<(int, string)> {
    match FindTab(line) {
      case None => None
      case Some(i) =>
        match ParseInt(line[..i]) {
          case None => None
          case Some(k) => Some((k, line[i + 1..]))
        }
    }
  }

  /** The stripped non-blank lines of the file, in order. */
  function NonBlank(lines: seq<string>): (r: seq<string>)
    ensures forall l :: l in r ==> l != []
  {
    if lines == [] then []
    else
      var init := NonBlank(lines[..|lines| - 1]);
      var l := PyStrip(lines[|lines| - 1]);
      if l != [] then init + [l] else init
  }

  /** The dictionary built from the entries, left to right, a later index replacing an earlier;
      the first line that does not unpack or whose index is not an integer raises. */
  function Entries(ls: seq<string>): Result<map<int, string>, string> {
    if ls == [] then Ok(map[])
    else
      match Entries(ls[..|ls| - 1]) {
        case Err(e) => Err(e)
        case Ok(m) =>
          match ParseLine(ls[|ls| - 1]) {
            case None => Err(ValueError)
            case Some(kv) => Ok(m[kv.0 := kv.1])
          }
      }
  }

  /** `_load_labels` over the lines of the class-list file. */
  function LoadLabels(lines: seq<string>): Result<map<int, string>, string> {
    Entries(NonBlank(lines))
  }

  /** The dictionary a list of entries denotes, a later index replacing an earlier. */
  function MapOf(entries: seq<(int, string)>): map<int, string> {
    if entries == [] then map[]
    else MapOf(entries[..|entries| - 1])[entries[|entries| - 1].0 := entries[|entries| - 1].1]
  }

  /** An index is a key exactly when some entry carries it. */
  lemma {:induction false} MapOfKeys(entries: seq<(int, string)>)
    ensures forall k :: k in MapOf(entries) <==> exists i :: 0 <= i < |entries| && entries[i].0 == k
  {
    if entries != [] {
      var init := entries[..|entries| - 1];
      MapOfKeys(init);
      assert forall i :: 0 <= i < |init| ==> init[i] == entries[i];
    }
  }

  /** An index maps to the label of the last entry that carries it. */
  lemma {:induction false} MapOfLast(entries: seq<(int, string)>, i: nat)
    requires i < |entries|
    requires forall j :: i < j < |entries| ==> entries[j].0 != entries[i].0
    ensures entries[i].0 in MapOf(entries) && MapOf(entries)[entries[i].0] == entries[i].1
  {
    if i < |entries| - 1 {
      var init := entries[..|entries| - 1];
      MapOfLast(init, i);
    }
  }

  /** Loading fails exactly when some non-blank line is malformed, and then with `ValueError`. */
  lemma {:induction false} EntriesFail(ls: seq<string>)
    ensures Entries(ls).Ok? <==> forall i :: 0 <= i < |ls| ==> ParseLine(ls[i]).Some?
    ensures Entries(ls).Err? ==> Entries(ls).error == ValueError
  {
    if ls != [] {
      var init, last := ls[..|ls| - 1], ls[|ls| - 1];
      EntriesFail(init);
      assert forall i :: 0 <= i < |init| ==> init[i] == ls[i];
      if Entries(init).Ok? && ParseLine(last).Some? {
        assert Entries(ls).Ok?;
        assert forall i :: 0 <= i < |ls| ==> ParseLine(ls[i]).Some? by {
          forall i | 0 <= i < |ls| ensures ParseLine(ls[i]).Some? {
            if i < |init| {
              assert ParseLine(init[i]).Some?;
            } else {
              assert i == |init| && ls[i] == last;
            }
          }
        }
      } else if Entries(init).Err? {
        assert Entries(ls) == Entries(init);
      } else {
        assert Entries(ls) == Err(ValueError);
      }
    }
  }

  /** When every line parses, loading gives the dictionary of the parsed entries. */
  lemma {:induction false} EntriesOfParsed(ls: seq<string>, entries: seq<(int, string)>)
    requires |entries| == |ls| && forall i :: 0 <= i < |ls| ==> ParseLine(ls[i]) == Some(entries[i])
    ensures Entries(ls) == Ok(MapOf(entries))
  {
    if ls != [] {
      EntriesOfParsed(ls[..|ls| - 1], entries[..|entries| - 1]);
    }
  }

  /** With no blank lines, the non-blank lines are the stripped lines. */
  lemma {:induction false} NonBlankOfFull(lines: seq<string>)
    requires forall i :: 0 <= i < |lines| ==> PyStrip(lines[i]) != []
    ensures |NonBlank(lines)| == |lines|
    ensures forall i :: 0 <= i < |lines| ==> NonBlank(lines)[i] == PyStrip(lines[i])
  {
    if lines != [] {
      var init, last := lines[..|lines| - 1], lines[|lines| - 1];
      assert forall i :: 0 <= i < |init| ==> init[i] == lines[i];
      NonBlankOfFull(init);
      assert PyStrip(last) != [];
      assert NonBlank(lines) == NonBlank(init) + [PyStrip(last)];
      forall i | 0 <= i < |lines| ensures NonBlank(lines)[i] == PyStrip(lines[i]) {
        if i < |init| {
          assert NonBlank(lines)[i] == NonBlank(init)[i];
        } else {
          assert i == |init| && lines[i] == last;
        }
      }
    }
  }

  /** The text of a line for an entry: index, tab, label. */
  function Body(k: int, name: string): string {
    IntToString(k) + "\t" + name
  }

  /** A line the file would hold for an entry. */
  function FormatLine(k: int, name: string): string {
    Body(k, name) + "\n"
  }

  /** A label that ends in a character `strip()` keeps. */
  predicate EndsVisible(name: string) {
    name != [] && !IsPySpace(name[|name| - 1])
  }

  /** A label that stays on its own line of the file (reading in text mode breaks lines at
      `\n` and `\r`) and survives the line's `strip()` and its tab split unchanged. */
  predicate Storable(name: string) {
    EndsVisible(name) && '\n' !in name && '\r' !in name
  }

  /** Writing entries one per line and loading the file gives back their dictionary. */
  lemma LoadFormatted(entries: seq<(int, string)>)
    requires forall e :: e in entries ==> Storable(e.1)
    ensures LoadLabels(seq(|entries|, i requires 0 <= i < |entries| => FormatLine(entries[i].0, entries[i].1)))
            == Ok(MapOf(entries))
  {
    var lines := seq(|entries|, i requires 0 <= i < |entries| => FormatLine(entries[i].0, entries[i].1));
    forall i | 0 <= i < |entries|
      ensures PyStrip(lines[i]) == Body(entries[i].0, entries[i].1)
      ensures ParseLine(Body(entries[i].0, entries[i].1)) == Some(entries[i])
    {
      assert entries[i] in entries;
      StripFormatted(entries[i].0, entries[i].1);
      BodyParses(entries[i].0, entries[i].1);
    }
    NonBlankOfFull(lines);
    var ls := NonBlank(lines);
    forall i | 0 <= i < |ls| ensures ParseLine(ls[i]) == Some(entries[i]) {
      assert ls[i] == Body(entries[i].0, entries[i].1);
    }
    EntriesOfParsed(ls, entries);
  }

  /** `strip()` takes a formatted line back to its text. */
  lemma StripFormatted(k: int, name: string)
    requires EndsVisible(name)
    ensures PyStrip(FormatLine(k, name)) == Body(k, name)
  {
    var b := Body(k, name);
    IntToStringShape(k);
    assert b[0] == IntToString(k)[0];
    assert b[|b| - 1] == name[|name| - 1];
    assert NoEdgeSpace(b, IsPySpace);
    PyStripLine(b);
  }

  /** A line's text splits at the tab after the index and parses back to its entry. */
  lemma BodyParses(k: int, name: string)
    ensures ParseLine(Body(k, name)) == Some((k, name))
  {
    var digits := IntToString(k);
    var b := Body(k, name);
    IntToStringShape(k);
    NoTabFind(digits, name);
    assert b[..|digits|] == digits;
    assert b[|digits| + 1..] == name;
    ParseIntOfIntToString(k);
  }

  lemma NoTabFind(a: string, b: string)
    requires '\t' !in a
    ensures FindTab(a + "\t" + b) == Some(|a|)
  {
    var s := a + "\t" + b;
    assert s[|a|] == '\t';
    assert s[..|a|] == a;
  }

  /** `String(k)` is a sign and digits, so it holds no tab or white space. */
  lemma IntToStringShape(k: int)
    ensures forall i :: 0 <= i < |IntToString(k)| ==> IntToString(k)[i] == '-' || '0' <= IntToString(k)[i] <= '9'
    ensures '\t' !in IntToString(k)
    ensures k < 0 ==> IntToString(k) == "-" + NatToString(-k)
    ensures k >= 0 ==> IntToString(k) == NatToString(k)
  {
  }

  /** `int` reads back what `String` writes. */
  lemma ParseIntOfIntToString(k: int)
    ensures ParseInt(IntToString(k)) == Some(k)
  {
    StripOfIntToString(k);
    SignedOfIntToString(k);
  }

  lemma StripOfIntToString(k: int)
    ensures PyStrip(IntToString(k)) == IntToString(k)
  {
    var s := IntToString(k);
    IntToStringShape(k);
    assert s[0] == '-' || '0' <= s[0] <= '9';
    assert s[|s| - 1] == '-' || '0' <= s[|s| - 1] <= '9';
    PyStripOfNoEdgeSpace(s);
  }

  lemma SignedOfIntToString(k: int)
    ensures ParseSigned(IntToString(k)) == Some(k)
  {
    var n: nat := if k < 0 then -k else k;
    NatToStringValue(n);
    IntToStringShape(k);
    ParseSignedDigits(IntToString(k), k < 0, NatToString(n));
  }

  /** An optional minus sign followed by digits reads as their value. */
  lemma ParseSignedDigits(t: string, neg: bool, digits: string)
    requires digits != [] && forall i :: 0 <= i < |digits| ==> '0' <= digits[i] <= '9'
    requires neg ==> t == "-" + digits
    requires !neg ==> t == digits
    ensures var v: int := DigitsValue(digits); ParseSigned(t) == Some(if neg then -v else v)
  {
    if neg {
      assert t[0] == '-' && t[1..] == digits;
    } else {
      assert t == digits && '0' <= t[0] <= '9';
    }
  }

  // ---------------------------------------------------------------- top-k selection

  /** Every element of `s` is an index into a sequence of length `n`. */
  predicate Indices(s: seq<nat>, n: nat) {
    forall a :: 0 <= a < |s| ==> s[a] < n
  }

  /** The indices in `s` name ascending probabilities. */
  predicate SortedBy(p: seq<real>, s: seq<nat>)
    requires Indices(s, |p|)
  {
    forall a, b :: 0 <= a < b < |s| ==> p[s[a]] <= p[s[b]]
  }

  predicate NoRepeat(s: seq<nat>) {
    forall a, b :: 0 <= a < b < |s| ==> s[a] != s[b]
  }

  /** Inserts index `j` into `s`, after every index whose probability is not above `p[j]`. */
  function Insert(p: seq<real>, j: nat, s: seq<nat>): (r: seq<nat>)
    requires j < |p| && Indices(s, |p|)
    ensures |r| == |s| + 1 && Indices(r, |p|)
    ensures forall x :: x in r <==> x == j || x in s
  {
    if s == [] then [j]
    else if p[j] < p[s[0]] then [j] + s
    else [s[0]] + Insert(p, j, s[1..])
  }

  /** Inserting into an ascending order keeps it ascending, and inserting a new index keeps the
      indices distinct. */
  lemma InsertSorted(p: seq<real>, j: nat, s: seq<nat>)
    requires j < |p| && Indices(s, |p|) && SortedBy(p, s)
    ensures SortedBy(p, Insert(p, j, s))
    ensures j !in s && NoRepeat(s) ==> NoRepeat(Insert(p, j, s))
  {
    InsertOrdered(p, j, s);
    if j !in s && NoRepeat(s) {
      InsertDistinct(p, j, s);
    }
  }

  lemma {:induction false} InsertOrdered(p: seq<real>, j: nat, s: seq<nat>)
    requires j < |p| && Indices(s, |p|) && SortedBy(p, s)
    ensures SortedBy(p, Insert(p, j, s))
  {
    if s == [] {
    } else if p[j] < p[s[0]] {
      assert Insert(p, j, s) == [j] + s;
      forall b | 0 <= b < |s| ensures p[j] <= p[s[b]] {
        if b > 0 {
          assert p[s[0]] <= p[s[b]];
        }
      }
      ConsSorted(p, j, s);
    } else {
      var t := s[1..];
      assert SortedBy(p, t) by {
        forall a, b | 0 <= a < b < |t| ensures p[t[a]] <= p[t[b]] {
          assert t[a] == s[a + 1] && t[b] == s[b + 1];
        }
      }
      InsertOrdered(p, j, t);
      var rest := Insert(p, j, t);
      assert Insert(p, j, s) == [s[0]] + rest;
      forall b | 0 <= b < |rest| ensures p[s[0]] <= p[rest[b]] {
        assert rest[b] in rest;
        if rest[b] != j {
          var c :| 0 <= c < |t| && t[c] == rest[b];
          assert s[c + 1] == rest[b];
        }
      }
      ConsSorted(p, s[0], rest);
    }
  }

  lemma {:induction false} InsertDistinct(p: seq<real>, j: nat, s: seq<nat>)
    requires j < |p| && Indices(s, |p|) && j !in s && NoRepeat(s)
    ensures NoRepeat(Insert(p, j, s))
  {
    if s == [] {
    } else if p[j] < p[s[0]] {
      assert Insert(p, j, s) == [j] + s;
      ConsDistinct(j, s);
    } else {
      var t := s[1..];
      assert NoRepeat(t) by {
        forall a, b | 0 <= a < b < |t| ensures t[a] != t[b] {
          assert t[a] == s[a + 1] && t[b] == s[b + 1];
        }
      }
      assert j !in t;
      InsertDistinct(p, j, t);
      var rest := Insert(p, j, t);
      assert Insert(p, j, s) == [s[0]] + rest;
      assert s[0] !in t by {
        forall c | 0 <= c < |t| ensures t[c] != s[0] {
          assert t[c] == s[c + 1];
        }
      }
      ConsDistinct(s[0], rest);
    }
  }

  lemma ConsSorted(p: seq<real>, x: nat, s: seq<nat>)
    requires x < |p| && Indices(s, |p|) && SortedBy(p, s)
    requires forall b :: 0 <= b < |s| ==> p[x] <= p[s[b]]
    ensures Indices([x] + s, |p|) && SortedBy(p, [x] + s)
  {
    var r := [x] + s;
    forall a, b | 0 <= a < b < |r| ensures p[r[a]] <= p[r[b]] {
      assert r[b] == s[b - 1];
      if a > 0 {
        assert r[a] == s[a - 1];
      }
    }
  }

  lemma ConsDistinct(x: nat, s: seq<nat>)
    requires NoRepeat(s) && x !in s
    ensures NoRepeat([x] + s)
  {
    var r := [x] + s;
    forall a, b | 0 <= a < b < |r| ensures r[a] != r[b] {
      assert r[b] == s[b - 1];
      if a > 0 {
        assert r[a] == s[a - 1];
      }
    }
  }

  /** Indices `0 .. n-1` ordered by ascending probability, ties in index order. */
  function ArgSortPrefix(p: seq<real>, n: nat): (r: seq<nat>)
    requires n <= |p|
    ensures |r| == n && Indices(r, |p|)
    ensures forall x :: x in r <==> 0 <= x < n
  {
    if n == 0 then []
    else
      var s := ArgSortPrefix(p, n - 1);
      var r := Insert(p, n - 1, s);
      assert forall x :: x in r <==> x == n - 1 || x in s;
      r
  }

  /** `np.argsort(probs)`; ties are taken in index order. */
  function ArgSort(p: seq<real>): (r: seq<nat>)
    ensures |r| == |p| && Indices(r, |p|)
    ensures forall x :: x in r <==> 0 <= x < |p|
  {
    ArgSortPrefix(p, |p|)
  }

  /** The argsort lists every index once, by ascending probability. */
  lemma {:induction false} ArgSortPrefixSpec(p: seq<real>, n: nat)
    requires n <= |p|
    ensures SortedBy(p, ArgSortPrefix(p, n)) && NoRepeat(ArgSortPrefix(p, n))
  {
    if n > 0 {
      ArgSortPrefixSpec(p, n - 1);
      InsertSorted(p, n - 1, ArgSortPrefix(p, n - 1));
    }
  }

  /** Python's `s[start:]`: a negative start counts from the end, and both are clamped. */
  function SliceFrom<T>(s: seq<T>, start: int): (r: seq<T>)
    ensures |r| <= |s| && r == s[|s| - |r|..]
  {
    if start < 0 then (if -start >= |s| then s else s[|s| + start..])
    else if start >= |s| then [] else s[start..]
  }

  /** The length `s[-k:]` keeps: the last `k` for positive `k`, everything for 0, and all but the
      first `-k` for negative `k`. */
  lemma TailLength<T>(s: seq<T>, k: int)
    ensures k > 0 ==> |SliceFrom(s, -k)| == (if k < |s| then k else |s|)
    ensures k == 0 ==> SliceFrom(s, -k) == s
    ensures k < 0 ==> |SliceFrom(s, -k)| == (if -k < |s| then |s| + k else 0)
  {
  }

  function Reverse<T>(s: seq<T>): (r: seq<T>)
    ensures |r| == |s| && forall i :: 0 <= i < |s| ==> r[i] == s[|s| - 1 - i]
  {
    if s == [] then [] else Reverse(s[1..]) + [s[0]]
  }

  /** `np.argsort(probs)[-topk:][::-1]`. */
  function TopIndices(p: seq<real>, topk: int): (r: seq<nat>)
    ensures Indices(r, |p|)
  {
    Reverse(SliceFrom(ArgSort(p), -topk))
  }

  /** The last `m` of a sorted, repetition-free listing of all indices, reversed: they are distinct
      and by descending probability, and no index left out outranks one of them. */
  lemma ReversedTail(p: seq<real>, r: seq<nat>, m: nat)
    requires Indices(r, |p|) && SortedBy(p, r) && NoRepeat(r) && m <= |r|
    requires forall x :: x in r <==> 0 <= x < |p|
    ensures var ids := Reverse(r[|r| - m..]);
            NoRepeat(ids) &&
            (forall a, b :: 0 <= a < b < |ids| ==> p[ids[a]] >= p[ids[b]]) &&
            (forall j, a :: 0 <= j < |p| && j !in ids && 0 <= a < |ids| ==> p[j] <= p[ids[a]])
  {
    ReversedTailOrder(p, r, m);
    ReversedTailDominates(p, r, m);
  }

  lemma ReversedTailOrder(p: seq<real>, r: seq<nat>, m: nat)
    requires Indices(r, |p|) && SortedBy(p, r) && NoRepeat(r) && m <= |r|
    ensures var ids := Reverse(r[|r| - m..]);
            NoRepeat(ids) && forall a, b :: 0 <= a < b < |ids| ==> p[ids[a]] >= p[ids[b]]
  {
    var ids := Reverse(r[|r| - m..]);
    forall a, b | 0 <= a < b < |ids| ensures ids[a] != ids[b] && p[ids[a]] >= p[ids[b]] {
      assert ids[a] == r[|r| - 1 - a] && ids[b] == r[|r| - 1 - b];
    }
  }

  lemma ReversedTailDominates(p: seq<real>, r: seq<nat>, m: nat)
    requires Indices(r, |p|) && SortedBy(p, r) && m <= |r|
    requires forall x :: x in r <==> 0 <= x < |p|
    ensures var ids := Reverse(r[|r| - m..]);
            forall j, a :: 0 <= j < |p| && j !in ids && 0 <= a < |ids| ==> p[j] <= p[ids[a]]
  {
    var ids := Reverse(r[|r| - m..]);
    forall j, a | 0 <= j < |p| && j !in ids && 0 <= a < |ids|
      ensures p[j] <= p[ids[a]]
    {
      assert j in r;
      var c :| 0 <= c < |r| && r[c] == j;
      if c >= |r| - m {
        InReverse(r[|r| - m..], c - (|r| - m));
      }
      assert c < |r| - 1 - a;
      assert ids[a] == r[|r| - 1 - a];
    }
  }

  lemma InReverse<T>(s: seq<T>, i: nat)
    requires i < |s|
    ensures s[i] in Reverse(s)
  {
    assert Reverse(s)[|s| - 1 - i] == s[i];
  }

  /** The selection lists distinct indices by descending probability, as many as `p[-topk:]`
      keeps, and no index left out has a higher probability than one selected. */
  lemma TopIndicesSpec(p: seq<real>, topk: int)
    ensures var ids := TopIndices(p, topk);
            NoRepeat(ids) &&
            (forall a, b :: 0 <= a < b < |ids| ==> p[ids[a]] >= p[ids[b]]) &&
            (forall j, a :: 0 <= j < |p| && j !in ids && 0 <= a < |ids| ==> p[j] <= p[ids[a]])
    ensures |TopIndices(p, topk)| == |SliceFrom(p, -topk)|
  {
    var r := ArgSort(p);
    ArgSortPrefixSpec(p, |p|);
    var t := SliceFrom(r, -topk);
    TopIndicesOfTail(p, topk);
    ReversedTail(p, r, |t|);
  }

  /** The selection is the reversed tail of the argsort, of the length the slice keeps. */
  lemma TopIndicesOfTail(p: seq<real>, topk: int)
    ensures var r := ArgSort(p);
            var m := |SliceFrom(r, -topk)|;
            m == |SliceFrom(p, -topk)| && TopIndices(p, topk) == Reverse(r[|r| - m..])
  {
    TailLength(ArgSort(p), topk);
    TailLength(p, topk);
  }

  /** The largest element, `float(np.max(...))`. */
  function MaxOf(s: seq<real>): (m: real)
    requires s != []
    ensures m in s && forall i :: 0 <= i < |s| ==> s[i] <= m
  {
    if |s| == 1 then s[0]
    else var rest := MaxOf(s[1..]); if s[0] >= rest then s[0] else rest
  }

  datatype Prediction = Prediction(labels: map<int, string>, confidence: map<int, real>)

  /** `predict(frames)`: `probs` are the model's class probabilities for the clip. An empty clip
      gives `None`; an empty selection makes `np.max` raise; a best confidence under the threshold
      gives `None`; an index without a name raises `KeyError`. */
  function Predict<F>(pr: Predictor, frames: seq<F>, probs: seq<F> -> seq<real>): Result<Option<Prediction>, string> {
    if |frames| == 0 then Ok(None)
    else
      var p := probs(frames);
      Select(pr, p, TopIndices(p, pr.topk))
  }

  /** The part of `predict` after the top-k selection `ids` of the probabilities `p`. */
  function Select(pr: Predictor, p: seq<real>, ids: seq<nat>): Result<Option<Prediction>, string>
    requires Indices(ids, |p|)
  {
    var conf := seq(|ids|, i requires 0 <= i < |ids| => p[ids[i]]);
    if conf == [] then Err(ValueError)
    else if MaxOf(conf) < pr.threshold then Ok(None)
    else if forall i :: 0 <= i < |ids| ==> ids[i] in pr.labels then
      Ok(Some(Prediction(map i | 0 <= i < |ids| :: pr.labels[ids[i]], map i | 0 <= i < |conf| :: conf[i])))
    else Err(KeyError)
  }

  /** The outcome of a prediction in terms of the top-k selection: the best selected confidence
      is the first one, and result entry `i` is the name and probability of the `i`-th best class. */
  lemma PredictSpec<F>(pr: Predictor, frames: seq<F>, probs: seq<F> -> seq<real>)
    ensures frames == [] ==> Predict(pr, frames, probs) == Ok(None)
    ensures frames != [] ==>
              var p := probs(frames);
              var ids := TopIndices(p, pr.topk);
              var r := Predict(pr, frames, probs);
              (ids == [] ==> r == Err(ValueError)) &&
              (ids != [] && p[ids[0]] < pr.threshold ==> r == Ok(None)) &&
              (ids != [] && p[ids[0]] >= pr.threshold ==>
                 (r == Err(KeyError) <==> exists i :: 0 <= i < |ids| && ids[i] !in pr.labels) &&
                 (r.Ok? ==> (r.value.Some? &&
                    (forall i :: i in r.value.value.labels <==> 0 <= i < |ids|) &&
                    (forall i :: i in r.value.value.confidence <==> 0 <= i < |ids|) &&
                    forall i :: 0 <= i < |ids| ==>
                      r.value.value.labels[i] == pr.labels[ids[i]] && r.value.value.confidence[i] == p[ids[i]])))
  {
    if frames != [] {
      var p := probs(frames);
      TopIndicesSpec(p, pr.topk);
      SelectSpec(pr, p, TopIndices(p, pr.topk));
    }
  }

  lemma SelectSpec(pr: Predictor, p: seq<real>, ids: seq<nat>)
    requires Indices(ids, |p|)
    requires forall a, b :: 0 <= a < b < |ids| ==> p[ids[a]] >= p[ids[b]]
    ensures var r := Select(pr, p, ids);
            (ids == [] ==> r == Err(ValueError)) &&
            (ids != [] && p[ids[0]] < pr.threshold ==> r == Ok(None)) &&
            (ids != [] && p[ids[0]] >= pr.threshold ==>
               (r == Err(KeyError) <==> exists i :: 0 <= i < |ids| && ids[i] !in pr.labels) &&
               (r.Ok? ==> (r.value.Some? &&
                  (forall i :: i in r.value.value.labels <==> 0 <= i < |ids|) &&
                  (forall i :: i in r.value.value.confidence <==> 0 <= i < |ids|) &&
                  forall i :: 0 <= i < |ids| ==>
                    r.value.value.labels[i] == pr.labels[ids[i]] && r.value.value.confidence[i] == p[ids[i]])))
  {
    var conf := seq(|ids|, i requires 0 <= i < |ids| => p[ids[i]]);
    if conf != [] {
      assert conf[0] in conf;
      assert MaxOf(conf) == conf[0];
    }
  }

  /** With the default `topk` of 1 and every class labelled: no result exactly when every
      probability is under the threshold, and otherwise the one result is a most probable class. */
  lemma PredictTopOne<F>(pr: Predictor, frames: seq<F>, probs: seq<F> -> seq<real>)
    requires pr.topk == DefaultTopK && frames != [] && probs(frames) != []
    requires forall j :: 0 <= j < |probs(frames)| ==> j in pr.labels
    ensures var p, r := probs(frames), Predict(pr, frames, probs);
            r.Ok? &&
            (r.value.None? <==> forall j :: 0 <= j < |p| ==> p[j] < pr.threshold) &&
            (r.value.Some? ==> (exists j :: 0 <= j < |p| && p[j] >= pr.threshold &&
                                  (forall i :: 0 <= i < |p| ==> p[i] <= p[j]) &&
                                  r.value.value.labels == map[0 := pr.labels[j]] &&
                                  r.value.value.confidence == map[0 := p[j]]))
  {
    var p := probs(frames);
    var j := BestIndex(p);
    PredictSpec(pr, frames, probs);
    var ids := TopIndices(p, 1);
    assert ids == [j];
    var r := Predict(pr, frames, probs);
    if p[j] >= pr.threshold {
      assert r.Ok? && r.value.Some?;
      var res := r.value.value;
      assert res.labels == map[0 := pr.labels[j]] by {
        assert forall i :: i in res.labels <==> i == 0;
        assert res.labels[0] == pr.labels[j];
      }
      assert res.confidence == map[0 := p[j]] by {
        assert forall i :: i in res.confidence <==> i == 0;
        assert res.confidence[0] == p[j];
      }
    }
  }

  /** With `topk` 1 the selection is one most probable class. */
  lemma BestIndex(p: seq<real>) returns (j: nat)
    requires p != []
    ensures TopIndices(p, 1) == [j] && j < |p|
    ensures forall i :: 0 <= i < |p| ==> p[i] <= p[j]
  {
    var ids := TopIndices(p, 1);
    TopIndicesSpec(p, 1);
    TailLength(p, 1);
    assert |ids| == 1;
    j := ids[0];
    assert ids == [j];
    forall i | 0 <= i < |p| ensures p[i] <= p[j] {
      if i != j {
        assert i !in ids;
      }
    }
  }

  /** `Predictor(config)`: the configured threshold and `topk` or their defaults, and the loaded
      class list (or the error loading it raises). */
  function NewPredictor(threshold: Option<real>, topk: Option<int>, labelLines: seq<string>): (r: Result<Predictor, string>)
    ensures r.Ok? <==> LoadLabels(labelLines).Ok?
    ensures r.Ok? ==> r.value.labels == LoadLabels(labelLines).value &&
                      r.value.threshold == threshold.GetOr(DefaultThreshold) &&
                      r.value.topk == topk.GetOr(DefaultTopK)
  {
    match LoadLabels(labelLines) {
      case Err(e) => Err(e)
      case Ok(labels) => Ok(Predictor(threshold.GetOr(DefaultThreshold), topk.GetOr(DefaultTopK), labels))
    }
  }
}
