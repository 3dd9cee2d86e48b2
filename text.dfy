/**
 * String primitives of the two runtimes the system runs on: JavaScript's
 * `trim`, `toLowerCase`, `/\s/`, `includes` and `String(n)` for the frontend,
 * and Python's `str.strip` whitespace for the backend.
 */
module Text {

  /** A character that JavaScript's `/\s/` and `String.prototype.trim` treat as white space
      (ECMAScript WhiteSpace and LineTerminator). */
  predicate IsJsSpace(c: char) {
    ('\t' <= c <= '\r') || c == ' ' || c == '\U{00A0}' || c == '\U{1680}' ||
    ('\U{2000}' <= c <= '\U{200A}') || c == '\U{2028}' || c == '\U{2029}' ||
    c == '\U{202F}' || c == '\U{205F}' || c == '\U{3000}' || c == '\U{FEFF}'
  }

  /** A character that Python's `str.isspace` (and so argument-less `str.strip`) treats as white space. */
  predicate IsPySpace(c: char) {
    ('\t' <= c <= '\r') || ('\U{001C}' <= c <= '\U{001F}') || c == ' ' || c == '\U{0085}' ||
    c == '\U{00A0}' || c == '\U{1680}' || ('\U{2000}' <= c <= '\U{200A}') ||
    c == '\U{2028}' || c == '\U{2029}' || c == '\U{202F}' || c == '\U{205F}' || c == '\U{3000}'
  }

  predicate AllSatisfy(s: string, p: char -> bool) {
    forall i :: 0 <= i < |s| ==> p(s[i])
  }

  // ---------------------------------------------------------------- trimming

  /** Drops the leading characters that satisfy `p`. */
  function DropWhile(s: string, p: char -> bool): (r: string)
    ensures |r| <= |s| && r == s[|s| - |r|..]
    ensures r == [] || !p(r[0])
    ensures AllSatisfy(s[..|s| - |r|], p)
  {
    if s == [] || !p(s[0]) then s
    else
      var r := DropWhile(s[1..], p);
      assert s[..|s| - |r|] == [s[0]] + s[1..][..|s| - 1 - |r|];
      r
  }

  /** Drops the trailing characters that satisfy `p`. */
  function DropWhileEnd(s: string, p: char -> bool): (r: string)
    ensures |r| <= |s| && r == s[..|r|]
    ensures r == [] || !p(r[|r| - 1])
    ensures AllSatisfy(s[|r|..], p)
  {
    if s == [] || !p(s[|s| - 1]) then s
    else
      var r := DropWhileEnd(s[..|s| - 1], p);
      assert s[|r|..] == s[..|s| - 1][|r|..] + [s[|s| - 1]];
      r
  }

  /** JavaScript's `s.trim()`. */
  function Trim(s: string): string {
    DropWhileEnd(DropWhile(s, IsJsSpace), IsJsSpace)
  }

  /** Python's `s.strip()` with no argument. */
  function PyStrip(s: string): string {
    DropWhileEnd(DropWhile(s, IsPySpace), IsPySpace)
  }

  /** No white space at either end. */
  predicate NoEdgeSpace(s: string, p: char -> bool) {
    s == [] || (!p(s[0]) && !p(s[|s| - 1]))
  }

  /** Trimming removes exactly the white space at both ends: what remains has
      none at its ends, is a contiguous part of the input, and everything
      cut off was white space. */
  lemma TrimSpec(s: string)
    ensures NoEdgeSpace(Trim(s), IsJsSpace)
    ensures exists i, j :: 0 <= i <= j <= |s| && Trim(s) == s[i..j] &&
                           AllSatisfy(s[..i], IsJsSpace) && AllSatisfy(s[j..], IsJsSpace)
  {
    var d := DropWhile(s, IsJsSpace);
    var r := DropWhileEnd(d, IsJsSpace);
    var i := |s| - |d|;
    var j := i + |r|;
    assert s[i..j] == r by {
      assert d == s[i..] && r == d[..|r|];
    }
    assert AllSatisfy(s[j..], IsJsSpace) by {
      assert s[j..] == d[|r|..];
    }
    assert NoEdgeSpace(r, IsJsSpace) by {
      if r != [] {
        assert d[0] == r[0];
      }
    }
  }

  /** A string without white space at its ends is its own trim. */
  lemma TrimOfNoEdgeSpace(s: string)
    requires NoEdgeSpace(s, IsJsSpace)
    ensures Trim(s) == s
  {
  }

  /** A string without Python white space at its ends is its own `strip()`. */
  lemma PyStripOfNoEdgeSpace(s: string)
    requires NoEdgeSpace(s, IsPySpace)
    ensures PyStrip(s) == s
  {
  }

  /** `strip()` removes a line's trailing newline and nothing else from a line whose text has no
      white space at its ends. */
  lemma PyStripLine(s: string)
    requires s != [] && NoEdgeSpace(s, IsPySpace)
    ensures PyStrip(s + "\n") == s
  {
    assert DropWhile(s + "\n", IsPySpace) == s + "\n";
    assert (s + "\n")[..|s|] == s;
  }

  /** Trimming twice is trimming once. */
  lemma {:induction false} TrimIdempotent(s: string)
    ensures Trim(Trim(s)) == Trim(s)
  {
    TrimSpec(s);
    TrimOfNoEdgeSpace(Trim(s));
  }

  // ---------------------------------------------------------------- case

  /** JavaScript's `toLowerCase` on one character, for the Basic Latin, Latin-1 and
      Cyrillic capitals (U+0400..U+042F); every other character is its own lower case here. */
  function LowerChar(c: char): (r: char)
    ensures r == c || ('A' <= c <= 'Z') || ('\U{00C0}' <= c <= '\U{00DE}') || ('\U{0400}' <= c <= '\U{042F}')
  {
    if 'A' <= c <= 'Z' then (c as int + 32) as char
    else if '\U{00C0}' <= c <= '\U{00DE}' && c != '\U{00D7}' then (c as int + 32) as char
    else if '\U{0400}' <= c <= '\U{040F}' then (c as int + 80) as char
    else if '\U{0410}' <= c <= '\U{042F}' then (c as int + 32) as char
    else c
  }

  /** JavaScript's `s.toLowerCase()`, character by character. */
  function Lower(s: string): (r: string)
    ensures |r| == |s| && forall i :: 0 <= i < |s| ==> r[i] == LowerChar(s[i])
  {
    if s == [] then [] else [LowerChar(s[0])] + Lower(s[1..])
  }

  lemma LowerCharIdempotent(c: char)
    ensures LowerChar(LowerChar(c)) == LowerChar(c)
  {
  }

  /** Lower-casing never creates nor removes white space. */
  lemma LowerCharSpace(c: char)
    ensures IsJsSpace(LowerChar(c)) == IsJsSpace(c)
  {
  }

  /** Lower-casing a one-character string folds its character. */
  lemma LowerSingle(c: char)
    ensures Lower([c]) == [LowerChar(c)]
  {
    assert Lower([c]) == [LowerChar(c)] + Lower([]);
  }

  /** Lower-casing a part of a string is taking that part of the lower-cased string. */
  lemma LowerSlice(s: string, i: nat, j: nat)
    requires i <= j <= |s|
    ensures Lower(s[i..j]) == Lower(s)[i..j]
  {
  }

  /** Lower-casing twice is lower-casing once. */
  lemma LowerIdempotent(s: string)
    ensures Lower(Lower(s)) == Lower(s)
  {
    forall i | 0 <= i < |s| ensures Lower(Lower(s))[i] == Lower(s)[i] {
      LowerCharIdempotent(s[i]);
    }
  }

  lemma {:induction false} DropWhileLower(s: string)
    ensures DropWhile(Lower(s), IsJsSpace) == Lower(DropWhile(s, IsJsSpace))
    decreases |s|
  {
    if s != [] {
      LowerCharSpace(s[0]);
      LowerSlice(s, 1, |s|);
      DropWhileLower(s[1..]);
    }
  }

  lemma {:induction false} DropWhileEndLower(s: string)
    ensures DropWhileEnd(Lower(s), IsJsSpace) == Lower(DropWhileEnd(s, IsJsSpace))
    decreases |s|
  {
    if s != [] {
      LowerCharSpace(s[|s| - 1]);
      LowerSlice(s, 0, |s| - 1);
      DropWhileEndLower(s[..|s| - 1]);
    }
  }

  /** Trimming and lower-casing commute, since lower-casing keeps white space as it is. */
  lemma {:induction false} TrimLower(s: string)
    ensures Trim(Lower(s)) == Lower(Trim(s))
  {
    DropWhileLower(s);
    DropWhileEndLower(DropWhile(s, IsJsSpace));
  }

  lemma {:induction false} DropWhileSnoc(s: string, c: char)
    ensures DropWhile(s + [c], IsJsSpace) ==
            if DropWhile(s, IsJsSpace) == [] && IsJsSpace(c) then [] else DropWhile(s, IsJsSpace) + [c]
    decreases |s|
  {
    var t := s + [c];
    if s == [] {
      assert t == [c] && t[1..] == [];
    } else {
      assert t[0] == s[0] && t != [];
      if IsJsSpace(s[0]) {
        assert t[1..] == s[1..] + [c];
        assert DropWhile(t, IsJsSpace) == DropWhile(s[1..] + [c], IsJsSpace);
        assert DropWhile(s, IsJsSpace) == DropWhile(s[1..], IsJsSpace);
        DropWhileSnoc(s[1..], c);
      } else {
        assert DropWhile(t, IsJsSpace) == t;
        assert DropWhile(s, IsJsSpace) == s;
      }
    }
  }

  /** A space on each side disappears under trimming. */
  lemma {:induction false} TrimPadded(s: string)
    ensures Trim(" " + s + " ") == Trim(s)
  {
    var d := DropWhile(s, IsJsSpace);
    assert DropWhile(" " + s + " ", IsJsSpace) == DropWhile(s + [' '], IsJsSpace) by {
      var p := " " + s + " ";
      assert p[0] == ' ' && p[1..] == s + [' '];
    }
    DropWhileSnoc(s, ' ');
    if d != [] {
      DropWhileEndSnocSpace(d);
    }
  }

  lemma DropWhileEndSnocSpace(d: string)
    ensures DropWhileEnd(d + [' '], IsJsSpace) == DropWhileEnd(d, IsJsSpace)
  {
    var e := d + [' '];
    assert e[|e| - 1] == ' ' && e[..|e| - 1] == d;
  }

  // ---------------------------------------------------------------- white space runs

  /** JavaScript's `s.replace(/\s+/g, " ")`: every maximal run of white space becomes one space. */
  function CollapseSpaces(s: string): (r: string)
    ensures |r| <= |s|
    decreases |s|
  {
    if s == [] then []
    else if IsJsSpace(s[0]) then [' '] + CollapseSpaces(DropWhile(s[1..], IsJsSpace))
    else [s[0]] + CollapseSpaces(s[1..])
  }

  /** The only white space is ' ', and never two in a row: the shape `CollapseSpaces` produces. */
  predicate Collapsed(s: string) {
    (forall i :: 0 <= i < |s| && IsJsSpace(s[i]) ==> s[i] == ' ') &&
    (forall i :: 0 < i < |s| && s[i] == ' ' ==> s[i - 1] != ' ')
  }

  lemma {:induction false} CollapseSpacesShape(s: string)
    ensures Collapsed(CollapseSpaces(s))
    ensures s != [] ==> CollapseSpaces(s) != [] && CollapseSpaces(s)[0] == (if IsJsSpace(s[0]) then ' ' else s[0])
    decreases |s|
  {
    if s == [] {
    } else if IsJsSpace(s[0]) {
      var d := DropWhile(s[1..], IsJsSpace);
      CollapseSpacesShape(d);
      CollapsedCons(' ', CollapseSpaces(d));
    } else {
      CollapseSpacesShape(s[1..]);
      CollapsedCons(s[0], CollapseSpaces(s[1..]));
    }
  }

  /** A character in front of a collapsed string keeps it collapsed when it is no white space,
      or a space before no space. */
  lemma CollapsedCons(x: char, c: string)
    requires Collapsed(c) && (IsJsSpace(x) ==> x == ' ') && (x == ' ' && c != [] ==> c[0] != ' ')
    ensures Collapsed([x] + c)
  {
    var r := [x] + c;
    forall i | 0 < i < |r| && r[i] == ' '
      ensures r[i - 1] != ' '
    {
      if i > 1 {
        assert r[i] == c[i - 1] && r[i - 1] == c[i - 2];
      }
    }
  }

  /** A string already in collapsed form is left unchanged. */
  lemma {:induction false} CollapseSpacesOfCollapsed(s: string)
    requires Collapsed(s)
    ensures CollapseSpaces(s) == s
    decreases |s|
  {
    if s != [] {
      var t := s[1..];
      assert Collapsed(t) by {
        forall i | 0 < i < |t| && t[i] == ' ' ensures t[i - 1] != ' ' {
          assert s[i + 1] == ' ';
        }
      }
      CollapseSpacesOfCollapsed(t);
      if IsJsSpace(s[0]) {
        assert s[0] == ' ';
        if t != [] {
          assert s[1] != ' ';
          assert !IsJsSpace(t[0]);
        }
        assert DropWhile(t, IsJsSpace) == t;
      }
      assert s == [s[0]] + t;
    }
  }

  /** Collapsing keeps the edges: white space at neither end stays so. */
  lemma {:induction false} CollapseSpacesEdges(s: string)
    ensures s != [] ==>
              CollapseSpaces(s) != [] &&
              IsJsSpace(CollapseSpaces(s)[|CollapseSpaces(s)| - 1]) == IsJsSpace(s[|s| - 1])
    decreases |s|
  {
    if s == [] {
    } else if IsJsSpace(s[0]) {
      var d := DropWhile(s[1..], IsJsSpace);
      CollapseSpacesEdges(d);
      assert CollapseSpaces(s) == [' '] + CollapseSpaces(d);
      LastOfCons(' ', CollapseSpaces(d));
      if d != [] {
        assert d == s[|s| - |d|..];
        LastOfSuffix(s, |s| - |d|);
      } else if |s| > 1 {
        assert AllSatisfy(s[1..], IsJsSpace);
        LastOfSuffix(s, 1);
      }
    } else {
      CollapseSpacesEdges(s[1..]);
      assert CollapseSpaces(s) == [s[0]] + CollapseSpaces(s[1..]);
      LastOfCons(s[0], CollapseSpaces(s[1..]));
      if |s| > 1 {
        LastOfSuffix(s, 1);
      }
    }
  }

  lemma LastOfCons(x: char, c: string)
    ensures c != [] ==> ([x] + c)[|c|] == c[|c| - 1]
    ensures c == [] ==> ([x] + c)[0] == x
  {
  }

  lemma LastOfSuffix(s: string, k: nat)
    requires k < |s|
    ensures s[k..][|s| - k - 1] == s[|s| - 1]
  {
  }

  /** Every character of the collapsed string is a character of the input, or the space. */
  lemma {:induction false} CollapseSpacesChars(s: string, p: char -> bool)
    requires p(' ') && AllSatisfy(s, p)
    ensures AllSatisfy(CollapseSpaces(s), p)
    decreases |s|
  {
    if s == [] {
    } else if IsJsSpace(s[0]) {
      var d := DropWhile(s[1..], IsJsSpace);
      assert AllSatisfy(d, p) by {
        AllSatisfySuffix(s, |s| - |d|, p);
        assert d == s[|s| - |d|..];
      }
      CollapseSpacesChars(d, p);
      assert CollapseSpaces(s) == [' '] + CollapseSpaces(d);
      AllSatisfyCons(' ', CollapseSpaces(d), p);
    } else {
      assert AllSatisfy(s[1..], p) by {
        AllSatisfySuffix(s, 1, p);
      }
      CollapseSpacesChars(s[1..], p);
      assert CollapseSpaces(s) == [s[0]] + CollapseSpaces(s[1..]);
      AllSatisfyCons(s[0], CollapseSpaces(s[1..]), p);
    }
  }

  lemma AllSatisfySuffix(s: string, k: nat, p: char -> bool)
    requires k <= |s| && AllSatisfy(s, p)
    ensures AllSatisfy(s[k..], p)
  {
    assert forall i :: 0 <= i < |s| - k ==> s[k..][i] == s[k + i];
  }

  lemma AllSatisfyCons(x: char, c: string, p: char -> bool)
    requires p(x) && AllSatisfy(c, p)
    ensures AllSatisfy([x] + c, p)
  {
    assert forall i :: 0 < i <= |c| ==> ([x] + c)[i] == c[i - 1];
  }

  // ---------------------------------------------------------------- search

  /** JavaScript's `s.includes(q)`: `q` occurs in `s` as a contiguous part. */
  predicate Includes(s: string, q: string) {
    q <= s || (s != [] && Includes(s[1..], q))
  }

  /** `q` occurs in `s` starting at index `i`. */
  predicate OccursAt(s: string, q: string, i: int) {
    0 <= i <= |s| - |q| && q == s[i..i + |q|]
  }

  /** `Includes` holds exactly when `q` occurs at some position of `s`. */
  lemma {:induction false} IncludesAt(s: string, q: string)
    ensures Includes(s, q) <==> exists i :: OccursAt(s, q, i)
  {
    if s == [] {
      if q == [] {
        assert OccursAt(s, q, 0);
      }
    } else {
      IncludesAt(s[1..], q);
      if Includes(s, q) {
        if q <= s {
          assert OccursAt(s, q, 0);
        } else {
          var i :| OccursAt(s[1..], q, i);
          OccursAtTail(s, q, i);
        }
      }
      if exists i :: OccursAt(s, q, i) {
        var i :| OccursAt(s, q, i);
        if i > 0 {
          OccursAtTail(s, q, i - 1);
        } else {
          assert q <= s;
        }
      }
    }
  }

  /** An occurrence in the tail is an occurrence one position further in the string. */
  lemma OccursAtTail(s: string, q: string, i: nat)
    requires s != []
    ensures OccursAt(s[1..], q, i) <==> OccursAt(s, q, i + 1)
  {
    if i + 1 <= |s| - |q| {
      assert s[1..][i..i + |q|] == s[i + 1..i + 1 + |q|];
    }
  }

  /** The empty string occurs in every string. */
  lemma IncludesEmpty(s: string)
    ensures Includes(s, [])
  {
  }

  // ---------------------------------------------------------------- numbers

  function DigitChar(d: nat): (c: char)
    requires d < 10
    ensures '0' <= c <= '9'
  {
    ('0' as int + d) as char
  }

  /** The decimal digits of `n`, without leading zeros. */
  function NatToString(n: nat): (r: string)
    ensures |r| >= 1 && forall i :: 0 <= i < |r| ==> '0' <= r[i] <= '9'
    ensures (r[0] == '0') == (n == 0)
  {
    if n < 10 then [DigitChar(n)] else NatToString(n / 10) + [DigitChar(n % 10)]
  }

  /** JavaScript's `String(n)` for an integer-valued number. */
  function IntToString(n: int): (r: string)
    ensures |r| >= 1 && (r[0] == '-') == (n < 0)
  {
    if n < 0 then "-" + NatToString(-n) else NatToString(n)
  }

  /** A rendered integer is its own trim: it starts with a sign or a digit and ends in a digit. */
  lemma TrimIntToString(n: int)
    ensures Trim(IntToString(n)) == IntToString(n)
  {
    var r := IntToString(n);
    var d := NatToString(if n < 0 then -n else n);
    assert r[|r| - 1] == d[|d| - 1];
    TrimOfNoEdgeSpace(r);
  }

  /** The value of a string of decimal digits. */
  function DigitsValue(s: string): nat
    requires forall i :: 0 <= i < |s| ==> '0' <= s[i] <= '9'
  {
    if s == [] then 0 else DigitsValue(s[..|s| - 1]) * 10 + (s[|s| - 1] as int - '0' as int)
  }

  /** The decimal rendering is readable back: distinct numbers get distinct strings. */
  lemma {:induction false} NatToStringValue(n: nat)
    ensures DigitsValue(NatToString(n)) == n
  {
    if n >= 10 {
      NatToStringValue(n / 10);
      var r := NatToString(n);
      assert r[..|r| - 1] == NatToString(n / 10);
    }
  }

  lemma NatToStringInjective(m: nat, n: nat)
    ensures NatToString(m) == NatToString(n) ==> m == n
  {
    NatToStringValue(m);
    NatToStringValue(n);
  }

  lemma IntToStringInjective(m: int, n: int)
    ensures IntToString(m) == IntToString(n) ==> m == n
  {
    if IntToString(m) == IntToString(n) {
      if m < 0 && n < 0 {
        assert NatToString(-m) == IntToString(m)[1..];
        NatToStringInjective(-m, -n);
      } else if m >= 0 && n >= 0 {
        NatToStringInjective(m, n);
      }
    }
  }

  /** Python's lexicographic order on strings, by code point. */
  predicate StrLe(a: string, b: string)
    decreases |a|
  {
    a == [] || (b != [] && (a[0] < b[0] || (a[0] == b[0] && StrLe(a[1..], b[1..]))))
  }

  lemma {:induction false} StrLeTotal(a: string, b: string)
    ensures StrLe(a, b) || StrLe(b, a)
    decreases |a|
  {
    if a != [] && b != [] && a[0] == b[0] {
      StrLeTotal(a[1..], b[1..]);
    }
  }

  lemma {:induction false} StrLeTransitive(a: string, b: string, c: string)
    requires StrLe(a, b) && StrLe(b, c)
    ensures StrLe(a, c)
    decreases |a|
  {
    if a != [] && b[0] == a[0] && c[0] == b[0] {
      StrLeTransitive(a[1..], b[1..], c[1..]);
    }
  }

  lemma {:induction false} StrLeAntisymmetric(a: string, b: string)
    requires StrLe(a, b) && StrLe(b, a)
    ensures a == b
    decreases |a|
  {
    if a != [] {
      StrLeAntisymmetric(a[1..], b[1..]);
      assert a == [a[0]] + a[1..] && b == [b[0]] + b[1..];
    }
  }
}
