/** String helpers: JavaScript `trim`, SQL `TRIM`, ASCII case folding, `includes`, `join`. */
module Strings {

  /** The characters JavaScript's String.prototype.trim removes (WhiteSpace and LineTerminator). */
  const JsSpaces: set<char> := {
    '\U{9}', '\U{A}', '\U{B}', '\U{C}', '\U{D}', '\U{20}', '\U{A0}', '\U{1680}',
    '\U{2000}', '\U{2001}', '\U{2002}', '\U{2003}', '\U{2004}', '\U{2005}', '\U{2006}', '\U{2007}',
    '\U{2008}', '\U{2009}', '\U{200A}', '\U{2028}', '\U{2029}', '\U{202F}', '\U{205F}', '\U{3000}',
    '\U{FEFF}'
  }

  /** MySQL's TRIM(str) without a remstr removes spaces only. */
  const SqlSpaces: set<char> := {' '}

  /** Drops the leading characters that are in `ws`. */
  function TrimStart(s: string, ws: set<char>): (r: string)
    ensures |r| <= |s| && r == s[|s| - |r|..]
    ensures forall i :: 0 <= i < |s| - |r| ==> s[i] in ws
    ensures r != [] ==> r[0] !in ws
  {
    if s != [] && s[0] in ws then TrimStart(s[1..], ws) else s
  }

  /** Drops the trailing characters that are in `ws`. */
  function TrimEnd(s: string, ws: set<char>): (r: string)
    ensures |r| <= |s| && r == s[..|r|]
    ensures forall i :: |r| <= i < |s| ==> s[i] in ws
    ensures r != [] ==> r[|r| - 1] !in ws
  {
    if s != [] && s[|s| - 1] in ws then TrimEnd(s[..|s| - 1], ws) else s
  }

  function Trim(s: string, ws: set<char>): string
  {
    TrimEnd(TrimStart(s, ws), ws)
  }

  /** `s.trim()` in JavaScript. */
  function JsTrim(s: string): string { Trim(s, JsSpaces) }

  /** `TRIM(s)` in MySQL. */
  function SqlTrim(s: string): string { Trim(s, SqlSpaces) }

  /** A string that is all whitespace trims to the empty string, and only such a string does. */
  lemma {:induction false} TrimEmptyIff(s: string, ws: set<char>)
    ensures Trim(s, ws) == [] <==> forall i :: 0 <= i < |s| ==> s[i] in ws
  {
    var t := TrimStart(s, ws);
    if Trim(s, ws) != [] {
      var r := Trim(s, ws);
      assert r[0] == t[0] && t[0] == s[|s| - |t|];
    }
  }

  /** Trimming with characters none of which trail or lead changes nothing more. */
  lemma TrimOfTrimmed(s: string, ws: set<char>)
    requires s == [] || (s[0] !in ws && s[|s| - 1] !in ws)
    ensures Trim(s, ws) == s
  {
  }

  /** Trimming twice is trimming once. */
  lemma TrimIdempotent(s: string, ws: set<char>)
    ensures Trim(Trim(s, ws), ws) == Trim(s, ws)
  {
    var t := Trim(s, ws);
    var u := TrimStart(s, ws);
    assert t == TrimEnd(u, ws);
    if t != [] {
      assert t[0] == u[0];
    }
    TrimOfTrimmed(t, ws);
  }

  /** A JavaScript-trimmed string has no leading or trailing space, so SQL TRIM leaves it alone. */
  lemma SqlTrimOfJsTrim(s: string)
    ensures SqlTrim(JsTrim(s)) == JsTrim(s)
  {
    var t := JsTrim(s);
    var u := TrimStart(s, JsSpaces);
    assert t == TrimEnd(u, JsSpaces);
    if t != [] {
      assert t[0] == u[0];
      assert t[0] !in SqlSpaces && t[|t| - 1] !in SqlSpaces;
    }
    TrimOfTrimmed(t, SqlSpaces);
  }

  /** ASCII upper-case letters folded to lower case (what `toLowerCase` does on ASCII). */
  function LowerChar(c: char): (r: char)
    ensures 'A' <= c <= 'Z' ==> 'a' <= r <= 'z'
    ensures !('A' <= c <= 'Z') ==> r == c
  {
    if 'A' <= c <= 'Z' then (c as int + 32) as char else c
  }

  function Lower(s: string): (r: string)
    ensures |r| == |s|
    ensures forall i :: 0 <= i < |s| ==> r[i] == LowerChar(s[i])
  {
    seq(|s|, i requires 0 <= i < |s| => LowerChar(s[i]))
  }

  /** Lower-casing text with no upper-case letter changes nothing. */
  lemma LowerOfLowercase(s: string)
    requires forall i :: 0 <= i < |s| ==> !('A' <= s[i] <= 'Z')
    ensures Lower(s) == s
  {
  }

  /** Lower-casing a capitalised word lower-cases its first letter only. */
  lemma LowerAppend(x: string, y: string)
    ensures Lower(x + y) == Lower(x) + Lower(y)
  {
  }

  lemma LowerOfCapitalised(s: string)
    requires s != [] && forall i :: 1 <= i < |s| ==> !('A' <= s[i] <= 'Z')
    ensures Lower(s) == [LowerChar(s[0])] + s[1..]
  {
    LowerOfLowercase(s[1..]);
  }

  /** `s.includes(sub)`: `sub` occurs at some position of `s`. */
  predicate Includes(s: string, sub: string)
  {
    exists k :: 0 <= k <= |s| - |sub| && OccursAt(s, sub, k)
  }

  predicate OccursAt(s: string, sub: string, k: int)
  {
    0 <= k <= |s| - |sub| && s[k..k + |sub|] == sub
  }

  /** Lower-casing keeps every occurrence of a text that holds no capital letter. */
  lemma IncludesLower(s: string, sub: string)
    requires forall i :: 0 <= i < |sub| ==> !('A' <= sub[i] <= 'Z')
    ensures Includes(s, sub) ==> Includes(Lower(s), sub)
  {
    if Includes(s, sub) {
      var k :| 0 <= k <= |s| - |sub| && OccursAt(s, sub, k);
      assert forall i :: 0 <= i < |sub| ==> Lower(s)[k + i] == LowerChar(sub[i]) == sub[i] by {
        forall i | 0 <= i < |sub| ensures Lower(s)[k + i] == LowerChar(sub[i]) {
          assert s[k + i] == s[k..k + |sub|][i];
        }
      }
      assert Lower(s)[k..k + |sub|] == sub;
      assert OccursAt(Lower(s), sub, k);
    }
  }

  /** Text ending in `y` includes `y`. */
  lemma IncludesTail(x: string, y: string)
    ensures Includes(x + y, y)
  {
    assert (x + y)[|x|..|x| + |y|] == y;
    assert OccursAt(x + y, y, |x|);
  }

  /** `s` has the character `b` right after an `a` somewhere. */
  predicate HasPair(s: string, a: char, b: char)
  {
    exists i :: 0 <= i < |s| - 1 && s[i] == a && s[i + 1] == b
  }

  /** A pair in `x + y` lies in `x`, in `y`, or across the seam. */
  lemma HasPairAppend(x: string, y: string, a: char, b: char)
    requires !HasPair(x, a, b) && !HasPair(y, a, b)
    requires x == [] || y == [] || !(x[|x| - 1] == a && y[0] == b)
    ensures !HasPair(x + y, a, b)
  {
    var s := x + y;
    forall i | 0 <= i < |s| - 1
      ensures !(s[i] == a && s[i + 1] == b)
    {
      if i + 1 < |x| {
        assert s[i] == x[i] && s[i + 1] == x[i + 1];
      } else if i >= |x| {
        assert s[i] == y[i - |x|] && s[i + 1] == y[i + 1 - |x|];
      } else {
        assert s[i] == x[|x| - 1] && s[i + 1] == y[0];
      }
    }
  }

  /** An occurrence of `sub` carries each of its adjacent pairs into `s`. */
  lemma PairCarriesOver(s: string, sub: string, k: int, a: char, b: char)
    requires HasPair(sub, a, b)
    ensures OccursAt(s, sub, k) ==> HasPair(s, a, b)
  {
    var i :| 0 <= i < |sub| - 1 && sub[i] == a && sub[i + 1] == b;
    if OccursAt(s, sub, k) {
      assert s[k + i] == sub[i] && s[k + i + 1] == sub[i + 1];
    }
  }

  /** A string that never has `b` right after `a` contains no string that does. */
  lemma MissingPairExcludes(s: string, sub: string, a: char, b: char)
    requires HasPair(sub, a, b)
    requires !HasPair(s, a, b)
    ensures !Includes(s, sub)
  {
    forall k | 0 <= k <= |s| - |sub|
      ensures !OccursAt(s, sub, k)
    {
      PairCarriesOver(s, sub, k, a, b);
    }
  }

  /** `parts.join(sep)`. */
  function Join(parts: seq<string>, sep: string): (r: string)
    ensures parts == [] ==> r == []
    ensures |parts| == 1 ==> r == parts[0]
    ensures |parts| >= 2 ==> |r| >= |parts[|parts| - 1]| + |sep| + |parts[0]|
  {
    if parts == [] then []
    else if |parts| == 1 then parts[0]
    else Join(parts[..|parts| - 1], sep) + sep + parts[|parts| - 1]
  }
}
