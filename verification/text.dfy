/** String helpers the inventory screens rely on: ASCII case folding, JavaScript-style
    `trim`, substring search, UTF-16 lengths and the code-unit ordering JavaScript compares strings by. */
module Text {

  /** The whitespace `String.prototype.trim` removes, restricted to ASCII:
      space, tab, line feed, vertical tab, form feed and carriage return. */
  predicate IsSpace(c: char) {
    c == ' ' || c == '\t' || c == '\n' || c == '\r' || c as int == 11 || c as int == 12
  }

  function LowerChar(c: char): (r: char)
    ensures 'A' <= c <= 'Z' ==> 'a' <= r <= 'z'
    ensures !('A' <= c <= 'Z') ==> r == c
  {
    if 'A' <= c <= 'Z' then (c as int + 32) as char else c
  }

  /** `toLowerCase`, restricted to ASCII letters. */
  function Lower(s: string): (r: string)
    ensures |r| == |s|
    ensures forall i :: 0 <= i < |s| ==> r[i] == LowerChar(s[i])
  {
    if |s| == 0 then [] else [LowerChar(s[0])] + Lower(s[1..])
  }

  /** Two strings that `toLowerCase` makes equal. */
  predicate SameIgnoringCase(a: string, b: string) {
    Lower(a) == Lower(b)
  }

  lemma LowerIdempotent(s: string)
    ensures Lower(Lower(s)) == Lower(s)
  {
  }

  function TrimStart(s: string): (r: string)
    ensures |r| <= |s| && r == s[|s| - |r|..]
    ensures |r| > 0 ==> !IsSpace(r[0])
    ensures forall i :: 0 <= i < |s| - |r| ==> IsSpace(s[i])
  {
    if |s| > 0 && IsSpace(s[0]) then TrimStart(s[1..]) else s
  }

  function TrimEnd(s: string): (r: string)
    ensures |r| <= |s| && r == s[..|r|]
    ensures |r| > 0 ==> !IsSpace(r[|r| - 1])
    ensures forall i :: |r| <= i < |s| ==> IsSpace(s[i])
  {
    if |s| > 0 && IsSpace(s[|s| - 1]) then TrimEnd(s[..|s| - 1]) else s
  }

  /** `String.prototype.trim`: a contiguous slice of the input that neither starts nor
      ends with whitespace, and everything cut away is whitespace. */
  function Trim(s: string): (r: string)
    ensures |r| <= |s|
    ensures exists k :: OccursAt(s, r, k)
    ensures |r| > 0 ==> !IsSpace(r[0]) && !IsSpace(r[|r| - 1])
    ensures exists k :: OccursAt(s, r, k) && (forall i :: 0 <= i < k ==> IsSpace(s[i]))
                          && (forall i :: k + |r| <= i < |s| ==> IsSpace(s[i]))
  {
    var t := TrimStart(s);
    var r := TrimEnd(t);
    var k := |s| - |t|;
    assert r == s[k..][..|r|];
    assert OccursAt(s, r, k);
    assert forall i :: k + |r| <= i < |s| ==> s[i] == t[i - k];
    r
  }

  /** The JavaScript test `!x.trim()`: nothing is left once whitespace is trimmed. */
  predicate IsBlank(s: string) {
    |Trim(s)| == 0
  }

  /** `!x.trim()` holds exactly when every character of `x` is whitespace. */
  lemma {:induction false} BlankIffAllSpace(s: string)
    ensures IsBlank(s) <==> forall i :: 0 <= i < |s| ==> IsSpace(s[i])
  {
    var t := TrimStart(s);
    if forall i :: 0 <= i < |s| ==> IsSpace(s[i]) {
      if |t| > 0 {
        assert t[0] == s[|s| - |t|];
      }
    } else {
      var i :| 0 <= i < |s| && !IsSpace(s[i]);
      assert |s| - |t| <= i;
      assert t[i - (|s| - |t|)] == s[i];
    }
  }

  /** Trimming twice is trimming once. */
  lemma TrimIdempotent(s: string)
    ensures Trim(Trim(s)) == Trim(s)
  {
    var r := Trim(s);
    if |r| > 0 {
      assert TrimStart(r) == r;
      assert TrimEnd(r) == r;
    }
  }

  /** A string that neither starts nor ends with whitespace is its own trim. */
  lemma TrimKeeps(s: string)
    requires |s| > 0 && !IsSpace(s[0]) && !IsSpace(s[|s| - 1])
    ensures Trim(s) == s
  {
    assert TrimStart(s) == s;
  }

  /** Surrounding such a string with one space on each side does not change its trim. */
  lemma TrimPadded(s: string)
    requires |s| > 0 && !IsSpace(s[0]) && !IsSpace(s[|s| - 1])
    ensures Trim(" " + s + " ") == s
  {
    var padded := " " + s + " ";
    assert padded[1..] == s + " ";
    assert TrimStart(padded) == s + " ";
    assert (s + " ")[..|s|] == s;
    assert TrimEnd(s + " ") == TrimEnd(s) == s;
  }

  predicate IsPrefix(p: string, s: string) {
    |p| <= |s| && s[..|p|] == p
  }

  /** `haystack.includes(needle)`. */
  predicate Contains(haystack: string, needle: string)
    decreases |haystack|
  {
    IsPrefix(needle, haystack) || (|haystack| > 0 && Contains(haystack[1..], needle))
  }

  /** `needle` occurs in `haystack` starting at position `k`. */
  predicate OccursAt(haystack: string, needle: string, k: int) {
    0 <= k && k + |needle| <= |haystack| && haystack[k..k + |needle|] == needle
  }

  /** Substring search agrees with the existence of a matching position. */
  lemma {:induction false} ContainsIffOccurs(h: string, n: string)
    ensures Contains(h, n) <==> exists k :: OccursAt(h, n, k)
    decreases |h|
  {
    if |h| > 0 {
      ContainsIffOccurs(h[1..], n);
      if IsPrefix(n, h) {
        assert OccursAt(h, n, 0);
      } else if Contains(h[1..], n) {
        var k :| OccursAt(h[1..], n, k);
        assert h[k + 1..k + 1 + |n|] == h[1..][k..k + |n|];
        assert OccursAt(h, n, k + 1);
      }
      if exists k :: OccursAt(h, n, k) {
        var k :| OccursAt(h, n, k);
        if k > 0 {
          assert h[1..][k - 1..k - 1 + |n|] == h[k..k + |n|];
          assert OccursAt(h[1..], n, k - 1);
        }
      }
    } else if |n| == 0 {
      assert OccursAt(h, n, 0);
    }
  }

  /** The empty string occurs in every string, so an empty search keeps everything. */
  lemma ContainsEmpty(h: string)
    ensures Contains(h, "")
  {
  }

  // ---------------------------------------------------------------- UTF-16

  /** The UTF-16 encoding of one character: itself below U+10000, otherwise a high
      surrogate followed by a low surrogate. */
  function Utf16Units(c: char): (r: seq<int>)
    ensures |r| == 1 || |r| == 2
    ensures forall i :: 0 <= i < |r| ==> 0 <= r[i] < 0x10000
  {
    if c as int < 0x10000 then [c as int]
    else
      var v := c as int - 0x10000;
      [0xD800 + v / 0x400, 0xDC00 + v % 0x400]
  }

  /** The code units a JavaScript string holds for `s`. */
  function Utf16(s: string): seq<int> {
    if |s| == 0 then [] else Utf16Units(s[0]) + Utf16(s[1..])
  }

  /** JavaScript's `length`: the number of UTF-16 code units, so a character outside the
      Basic Multilingual Plane (an emoji, say) counts twice. */
  function Utf16Length(s: string): nat {
    |Utf16(s)|
  }

  lemma {:induction false} Utf16Concat(a: string, b: string)
    ensures Utf16(a + b) == Utf16(a) + Utf16(b)
  {
    if |a| > 0 {
      assert (a + b)[0] == a[0];
      assert (a + b)[1..] == a[1..] + b;
      Utf16Concat(a[1..], b);
    } else {
      assert a + b == b;
    }
  }

  /** Every character takes one or two code units; only characters outside the Basic
      Multilingual Plane take two. */
  lemma {:induction false} Utf16LengthBounds(s: string)
    ensures |s| <= Utf16Length(s) <= 2 * |s|
    ensures Utf16Length(s) == |s| <==> forall i :: 0 <= i < |s| ==> s[i] as int < 0x10000
  {
    if |s| > 0 {
      Utf16LengthBounds(s[1..]);
      assert forall i :: 0 < i < |s| ==> s[i] == s[1..][i - 1];
    }
  }

  /** The longest run of whole characters at the front of `s` that fits in `n` code units:
      JavaScript's `substring(0, n)` whenever the cut does not fall inside a surrogate pair. */
  function UnitPrefix(s: string, n: nat): (r: string)
    ensures |r| <= |s| && r == s[..|r|]
    ensures Utf16Length(r) <= n
    ensures |r| < |s| ==> n < Utf16Length(r) + |Utf16Units(s[|r|])|
  {
    if |s| == 0 || |Utf16Units(s[0])| > n then ""
    else
      var t := UnitPrefix(s[1..], n - |Utf16Units(s[0])|);
      assert ([s[0]] + t)[1..] == t;
      [s[0]] + t
  }

  /** Where a character's code units put it in JavaScript's string order: its own code
      below U+10000, and just after U+D7FF (the range of the high surrogates) above it. */
  function CodeUnitRank(c: char): int {
    if c as int < 0x10000 then c as int * 0x400
    else 0xD800 * 0x400 + (c as int - 0x10000)
  }

  /** Characters are never surrogates, so no two characters share a rank. */
  lemma CodeUnitRankInjective(a: char, b: char)
    requires CodeUnitRank(a) == CodeUnitRank(b)
    ensures a == b
  {
  }

  /** JavaScript's `<` and the default `Array.prototype.sort` compare strings code unit by
      code unit; on characters that is the order of their ranks. */
  predicate StrLe(a: string, b: string) {
    if |a| == 0 then true
    else if |b| == 0 then false
    else if a[0] != b[0] then CodeUnitRank(a[0]) < CodeUnitRank(b[0])
    else StrLe(a[1..], b[1..])
  }

  /** Lexicographic order on code-unit sequences, a prefix coming first. */
  predicate UnitsLe(a: seq<int>, b: seq<int>) {
    if |a| == 0 then true
    else if |b| == 0 then false
    else if a[0] != b[0] then a[0] < b[0]
    else UnitsLe(a[1..], b[1..])
  }

  lemma {:induction false} UnitsLeSharedPrefix(p: seq<int>, x: seq<int>, y: seq<int>)
    ensures UnitsLe(p + x, p + y) == UnitsLe(x, y)
  {
    if |p| > 0 {
      assert (p + x)[1..] == p[1..] + x;
      assert (p + y)[1..] == p[1..] + y;
      UnitsLeSharedPrefix(p[1..], x, y);
    } else {
      assert p + x == x && p + y == y;
    }
  }

  /** The first code unit where two different characters' encodings differ decides the
      comparison of any strings that start with them, and it agrees with their ranks. */
  lemma FirstCharDecides(c: char, d: char, x: seq<int>, y: seq<int>)
    requires c != d
    ensures UnitsLe(Utf16Units(c) + x, Utf16Units(d) + y) <==> CodeUnitRank(c) < CodeUnitRank(d)
  {
    var u, w := Utf16Units(c) + x, Utf16Units(d) + y;
    assert u[0] == Utf16Units(c)[0] && w[0] == Utf16Units(d)[0];
    if u[0] == w[0] {
      assert u[1..] == Utf16Units(c)[1..] + x;
      assert w[1..] == Utf16Units(d)[1..] + y;
      assert u[1] == Utf16Units(c)[1] && w[1] == Utf16Units(d)[1];
    }
  }

  /** The rank order on characters is exactly JavaScript's code-unit comparison of the
      strings' UTF-16 encodings. */
  lemma {:induction false} StrLeIsCodeUnitOrder(a: string, b: string)
    ensures StrLe(a, b) <==> UnitsLe(Utf16(a), Utf16(b))
  {
    if |a| > 0 && |b| > 0 {
      if a[0] == b[0] {
        StrLeIsCodeUnitOrder(a[1..], b[1..]);
        UnitsLeSharedPrefix(Utf16Units(a[0]), Utf16(a[1..]), Utf16(b[1..]));
      } else {
        FirstCharDecides(a[0], b[0], Utf16(a[1..]), Utf16(b[1..]));
      }
    }
  }

  lemma {:induction false} StrLeTotal(a: string, b: string)
    ensures StrLe(a, b) || StrLe(b, a)
  {
    if |a| > 0 && |b| > 0 {
      if a[0] == b[0] {
        StrLeTotal(a[1..], b[1..]);
      } else if CodeUnitRank(a[0]) == CodeUnitRank(b[0]) {
        CodeUnitRankInjective(a[0], b[0]);
      }
    }
  }

  lemma {:induction false} StrLeTransitive(a: string, b: string, c: string)
    requires StrLe(a, b) && StrLe(b, c)
    ensures StrLe(a, c)
  {
    if |a| > 0 && |b| > 0 && |c| > 0 {
      if a[0] == b[0] && b[0] == c[0] {
        StrLeTransitive(a[1..], b[1..], c[1..]);
      }
    }
  }

  lemma {:induction false} StrLeAntisymmetric(a: string, b: string)
    requires StrLe(a, b) && StrLe(b, a)
    ensures a == b
  {
    if |a| > 0 && |b| > 0 {
      StrLeAntisymmetric(a[1..], b[1..]);
      assert a == [a[0]] + a[1..];
      assert b == [b[0]] + b[1..];
    }
  }
}
