/**
 * The persisted set of completed lesson keys, shared by the lesson roadmap,
 * the lesson page and the practice page (all three read and write the one
 * storage key "gestu_completed_keys" with identical helpers).
 *
 * A JavaScript `Set` iterates in insertion order and `writeCompleted` stores
 * `Array.from(set)`, so a key set is modelled as a duplicate-free sequence in
 * insertion order.
 */
module Progress {
  import opened Json

  const ProgressKey := "gestu_completed_keys"

  predicate Distinct(s: seq<string>) {
    forall i, j :: 0 <= i < j < |s| ==> s[i] != s[j]
  }

  // ---------------------------------------------------------------- Set operations

  /** `set.add(k)`: appends `k` unless it is already present. */
  function AddKey(s: seq<string>, k: string): seq<string> {
    if k in s then s else s + [k]
  }

  /** `set.delete(k)`: removes `k`, keeping the order of the others. */
  function DeleteKey(s: seq<string>, k: string): seq<string> {
    if s == [] then []
    else if s[0] == k then DeleteKey(s[1..], k)
    else [s[0]] + DeleteKey(s[1..], k)
  }

  /** The toggle behind both "mark lesson" buttons: delete when present, add otherwise. */
  function ToggleKey(s: seq<string>, k: string): seq<string> {
    if k in s then DeleteKey(s, k) else AddKey(s, k)
  }

  lemma AddKeyMembers(s: seq<string>, k: string)
    ensures forall x :: x in AddKey(s, k) <==> x in s || x == k
    ensures Distinct(s) ==> Distinct(AddKey(s, k))
    ensures k in s ==> AddKey(s, k) == s
  {
  }

  lemma {:induction false} DeleteKeyMembers(s: seq<string>, k: string)
    ensures forall x :: x in DeleteKey(s, k) <==> x in s && x != k
    ensures Distinct(s) ==> Distinct(DeleteKey(s, k))
    ensures k !in s ==> DeleteKey(s, k) == s
  {
    if s != [] {
      DeleteKeyMembers(s[1..], k);
      if s[0] != k {
        assert s == [s[0]] + s[1..];
        if Distinct(s) {
          assert Distinct(s[1..]);
          assert s[0] !in s[1..];
        }
      } else if Distinct(s) {
        assert Distinct(s[1..]);
      }
    }
  }

  /** A toggle flips the membership of its key and of no other. */
  lemma ToggleKeyMembers(s: seq<string>, k: string)
    ensures (k in ToggleKey(s, k)) == (k !in s)
    ensures forall x :: x != k ==> (x in ToggleKey(s, k) <==> x in s)
    ensures Distinct(s) ==> Distinct(ToggleKey(s, k))
  {
    AddKeyMembers(s, k);
    DeleteKeyMembers(s, k);
  }

  /** Two toggles restore every key's membership; when the key was absent they restore
      the very same sequence (a removed key comes back at the end, so only membership
      is restored in the other case). */
  lemma {:induction false} ToggleTwice(s: seq<string>, k: string)
    ensures forall x :: x in ToggleKey(ToggleKey(s, k), k) <==> x in s
    ensures k !in s ==> ToggleKey(ToggleKey(s, k), k) == s
  {
    ToggleKeyMembers(s, k);
    ToggleKeyMembers(ToggleKey(s, k), k);
    if k !in s {
      DeleteAppended(s, k);
    }
  }

  lemma {:induction false} DeleteAppended(s: seq<string>, k: string)
    requires k !in s
    ensures DeleteKey(s + [k], k) == s
  {
    if s == [] {
      assert [] + [k] == [k];
    } else {
      assert (s + [k])[1..] == s[1..] + [k];
      DeleteAppended(s[1..], k);
      assert s == [s[0]] + s[1..];
    }
  }

  // ---------------------------------------------------------------- reading and writing

  /** What `localStorage.getItem(key)` followed by `JSON.parse` yields: no value (or the
      empty string, which the source treats the same), text that does not parse, or a value. */
  datatype Stored = Missing | Malformed | Parsed(value: Json)

  /** Adding the strings one by one to an empty Set: first occurrences, in order. */
  function Dedup(s: seq<string>): seq<string> {
    if s == [] then [] else AddKey(Dedup(s[..|s| - 1]), s[|s| - 1])
  }

  function Stringify(items: seq<Json>): (r: seq<string>)
    ensures |r| == |items| && forall i :: 0 <= i < |items| ==> r[i] == JsString(items[i])
  {
    if items == [] then [] else Stringify(items[..|items| - 1]) + [JsString(items[|items| - 1])]
  }

  /** The set `readCompleted` builds: empty for absent, unparsable or non-array data,
      otherwise the string of every element, each once, in first-seen order. */
  function CompletedOf(stored: Stored): seq<string> {
    match stored
    case Parsed(JArray(items)) => Dedup(Stringify(items))
    case _ => []
  }

  lemma {:induction false} DedupSpec(s: seq<string>)
    ensures Distinct(Dedup(s))
    ensures forall x :: x in Dedup(s) <==> x in s
    ensures Distinct(s) ==> Dedup(s) == s
  {
    if s != [] {
      var init, last := s[..|s| - 1], s[|s| - 1];
      assert s == init + [last];
      DedupSpec(init);
      AddKeyMembers(Dedup(init), last);
      assert Dedup(s) == AddKey(Dedup(init), last);
      if Distinct(s) {
        DistinctInit(s);
        assert Dedup(init) == init;
        assert last !in init by {
          forall i | 0 <= i < |init| ensures init[i] != last {
            assert init[i] == s[i];
          }
        }
      }
    }
  }

  lemma DistinctInit(s: seq<string>)
    requires s != [] && Distinct(s)
    ensures Distinct(s[..|s| - 1])
  {
  }

  /** `readCompleted()`: the `forEach` over the parsed array, adding `String(x)` to a fresh Set. */
  method ReadCompleted(stored: Stored) returns (keys: seq<string>)
    ensures keys == CompletedOf(stored)
  {
    keys := [];
    if stored.Parsed? && stored.value.JArray? {
      var items := stored.value.items;
      ghost var strs := Stringify(items);
      for i := 0 to |items|
        invariant keys == Dedup(strs[..i])
      {
        assert strs[..i + 1][..i] == strs[..i];
        keys := AddKey(keys, JsString(items[i]));
      }
      assert strs[..|items|] == strs;
    }
  }

  /** Whatever was stored, the set read back has no duplicates, and holds exactly the
      strings of the stored array's elements. */
  lemma ReadCompletedShape(stored: Stored)
    ensures Distinct(CompletedOf(stored))
    ensures stored.Parsed? && stored.value.JArray? ==>
      forall x :: x in CompletedOf(stored) <==> exists j :: j in stored.value.items && JsString(j) == x
    ensures !(stored.Parsed? && stored.value.JArray?) ==> CompletedOf(stored) == []
  {
    if stored.Parsed? && stored.value.JArray? {
      var items := stored.value.items;
      DedupSpec(Stringify(items));
      forall x ensures x in Stringify(items) <==> exists j :: j in items && JsString(j) == x {
        if x in Stringify(items) {
          var i :| 0 <= i < |items| && Stringify(items)[i] == x;
          assert items[i] in items;
        }
        if exists j :: j in items && JsString(j) == x {
          var j :| j in items && JsString(j) == x;
          var i :| 0 <= i < |items| && items[i] == j;
          assert Stringify(items)[i] == x;
        }
      }
    }
  }

  /** `writeCompleted(set)`: `JSON.stringify(Array.from(set))`, as the value a later parse yields. */
  function WriteCompleted(keys: seq<string>): (stored: Stored)
    ensures stored.Parsed? && stored.value.JArray? && |stored.value.items| == |keys|
  {
    Parsed(JArray(seq(|keys|, i requires 0 <= i < |keys| => JString(keys[i]))))
  }

  /** Writing a set and reading it back gives the same set, in the same order. */
  lemma {:induction false} WriteThenRead(keys: seq<string>)
    requires Distinct(keys)
    ensures CompletedOf(WriteCompleted(keys)) == keys
  {
    var items := WriteCompleted(keys).value.items;
    assert Stringify(items) == keys;
    DedupSpec(keys);
  }

  /** The browser's `localStorage`, restricted to the progress key; one object shared by every view. */
  class ProgressStore {
    var stored: Stored

    constructor (initial: Stored)
      ensures stored == initial
    {
      stored := initial;
    }

    method Write(keys: seq<string>)
      modifies this
      ensures stored == WriteCompleted(keys)
    {
      stored := WriteCompleted(keys);
    }

    method Read() returns (keys: seq<string>)
      ensures keys == CompletedOf(stored)
    {
      keys := ReadCompleted(stored);
    }
  }

  // ---------------------------------------------------------------- comparison

  /** What `setsEqual` checks: the same size, and every element of `a` also in `b`. */
  predicate SameSizeAndSubset(a: seq<string>, b: seq<string>) {
    |a| == |b| && forall v :: v in a ==> v in b
  }

  /** `setsEqual(a, b)`: compare sizes, then look up each element of `a` in `b`, returning early. */
  method SetsEqual(a: seq<string>, b: seq<string>) returns (r: bool)
    ensures r <==> SameSizeAndSubset(a, b)
  {
    if |a| != |b| {
      return false;
    }
    for i := 0 to |a|
      invariant forall k :: 0 <= k < i ==> a[k] in b
    {
      if a[i] !in b {
        return false;
      }
    }
    return true;
  }

  /** For duplicate-free sequences the check is set equality, so it is reflexive and symmetric. */
  lemma SetsEqualIsSetEquality(a: seq<string>, b: seq<string>)
    requires Distinct(a) && Distinct(b)
    ensures SameSizeAndSubset(a, b) <==> (set x | x in a) == (set x | x in b)
  {
    var sa := set x | x in a;
    var sb := set x | x in b;
    DistinctCard(a);
    DistinctCard(b);
    if SameSizeAndSubset(a, b) {
      assert sa <= sb;
      SubsetEqualCard(sa, sb);
    }
    if sa == sb {
      assert forall v :: v in a ==> v in sa;
    }
  }

  lemma SetsEqualSymmetric(a: seq<string>, b: seq<string>)
    requires Distinct(a) && Distinct(b)
    ensures SameSizeAndSubset(a, b) <==> SameSizeAndSubset(b, a)
  {
    SetsEqualIsSetEquality(a, b);
    SetsEqualIsSetEquality(b, a);
  }

  lemma SetsEqualReflexive(a: seq<string>)
    ensures SameSizeAndSubset(a, a)
  {
  }

  lemma {:induction false} DistinctCard(s: seq<string>)
    requires Distinct(s)
    ensures |set x | x in s| == |s|
  {
    if s != [] {
      var init := s[..|s| - 1];
      assert Distinct(init);
      DistinctCard(init);
      assert s == init + [s[|s| - 1]];
      assert (set x | x in s) == (set x | x in init) + {s[|s| - 1]};
      assert s[|s| - 1] !in init;
    }
  }

  lemma SubsetEqualCard(a: set<string>, b: set<string>)
    requires a <= b && |a| == |b|
    ensures a == b
  {
    var rest := b - a;
    assert b == a + rest;
    assert a * rest == {};
    assert |b| == |a| + |rest|;
    assert rest == {};
  }
}
