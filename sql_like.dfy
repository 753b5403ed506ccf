/** MySQL's `LIKE` operator with the default escape character `\`: `%` matches any run of
    characters, `_` any single character, `\c` the character `c`; letters compare without
    regard to ASCII case, as the default case-insensitive collations do. */
module SqlLike {
  import opened Strings

  predicate CharEq(a: char, b: char) { LowerChar(a) == LowerChar(b) }

  /** Collation equality of two strings. */
  predicate TextEq(s: string, t: string)
  {
    |s| == |t| && forall i :: 0 <= i < |s| ==> CharEq(s[i], t[i])
  }

  /** `t LIKE p`. A `\` that ends the pattern stands for itself. */
  function Like(t: string, p: string): bool
    decreases |t| + |p|
  {
    if p == [] then t == []
    else if p[0] == '%' then Like(t, p[1..]) || (t != [] && Like(t[1..], p))
    else if p[0] == '_' then t != [] && Like(t[1..], p[1..])
    else if p[0] == '\\' && |p| >= 2 then t != [] && CharEq(t[0], p[1]) && Like(t[1..], p[2..])
    else t != [] && CharEq(t[0], p[0]) && Like(t[1..], p[1..])
  }

  predicate IsWildcardOrEscape(c: char) { c == '%' || c == '_' || c == '\\' }

  /** `p` is a pattern that matches exactly the strings equal to `s` under the collation:
      every pattern character is either a plain character of `s` or a `\` followed by it. */
  predicate Encodes(p: string, s: string)
    decreases |p|
  {
    if p == [] then s == []
    else if p[0] == '\\' then |p| >= 2 && s != [] && p[1] == s[0] && Encodes(p[2..], s[1..])
    else !IsWildcardOrEscape(p[0]) && s != [] && p[0] == s[0] && Encodes(p[1..], s[1..])
  }

  /** `s` occurs at position `k` of `t`, ignoring ASCII case. */
  predicate OccursAtCI(t: string, s: string, k: int)
  {
    0 <= k <= |t| - |s| && TextEq(t[k..k + |s|], s)
  }

  predicate ContainsCI(t: string, s: string)
  {
    exists k :: 0 <= k <= |t| && OccursAtCI(t, s, k)
  }

  /** A trailing `%` matches anything. */
  lemma {:induction false} PercentMatchesAll(t: string)
    ensures Like(t, "%")
    decreases |t|
  {
    if t != [] {
      PercentMatchesAll(t[1..]);
    }
  }

  /** A leading `%` lets the rest of the pattern match at any suffix. */
  lemma {:induction false} LeadingPercent(t: string, q: string)
    ensures Like(t, "%" + q) <==> exists k :: 0 <= k <= |t| && Like(t[k..], q)
    decreases |t|
  {
    var p := "%" + q;
    assert p[1..] == q;
    if t == [] {
      assert t[0..] == t;
    } else {
      LeadingPercent(t[1..], q);
      if Like(t, p) {
        if !Like(t, q) {
          var k :| 0 <= k <= |t[1..]| && Like(t[1..][k..], q);
          assert t[1..][k..] == t[k + 1..];
        } else {
          assert t[0..] == t;
        }
      }
      if exists k :: 0 <= k <= |t| && Like(t[k..], q) {
        var k :| 0 <= k <= |t| && Like(t[k..], q);
        if k == 0 {
          assert t[0..] == t;
        } else {
          assert t[1..][k - 1..] == t[k..];
        }
      }
    }
  }

  /** A pattern that encodes `s` followed by `q` matches `t` iff `t` starts with `s` (up to
      case) and `q` matches the rest. */
  lemma {:induction false} EncodedPrefix(t: string, p: string, s: string, q: string)
    requires Encodes(p, s)
    ensures Like(t, p + q) <==> |s| <= |t| && TextEq(t[..|s|], s) && Like(t[|s|..], q)
    decreases |p|
  {
    if p == [] {
      assert p + q == q;
    } else if p[0] == '\\' {
      assert (p + q)[2..] == p[2..] + q;
      if t != [] {
        EncodedPrefix(t[1..], p[2..], s[1..], q);
        if |s| <= |t| {
          assert t[1..][..|s| - 1] == t[1..|s|];
          assert t[1..][|s| - 1..] == t[|s|..];
          assert TextEq(t[..|s|], s) <==> CharEq(t[0], s[0]) && TextEq(t[1..|s|], s[1..]) by {
            assert forall i :: 1 <= i < |s| ==> t[..|s|][i] == t[1..|s|][i - 1];
          }
        }
      }
    } else {
      assert (p + q)[1..] == p[1..] + q;
      assert (p + q)[0] == p[0];
      if t != [] {
        EncodedPrefix(t[1..], p[1..], s[1..], q);
        if |s| <= |t| {
          assert t[1..][..|s| - 1] == t[1..|s|];
          assert t[1..][|s| - 1..] == t[|s|..];
          assert TextEq(t[..|s|], s) <==> CharEq(t[0], s[0]) && TextEq(t[1..|s|], s[1..]) by {
            assert forall i :: 1 <= i < |s| ==> t[..|s|][i] == t[1..|s|][i - 1];
          }
        }
      }
    }
  }

  /** `t LIKE CONCAT('%', p, '%')` is a case-insensitive substring test when `p` encodes `s`. */
  lemma ContainsPattern(t: string, p: string, s: string)
    requires Encodes(p, s)
    ensures Like(t, "%" + p + "%") <==> ContainsCI(t, s)
  {
    assert "%" + p + "%" == "%" + (p + "%");
    LeadingPercent(t, p + "%");
    if Like(t, "%" + p + "%") {
      var k :| 0 <= k <= |t| && Like(t[k..], p + "%");
      EncodedPrefix(t[k..], p, s, "%");
      assert t[k..][..|s|] == t[k..k + |s|];
      assert OccursAtCI(t, s, k);
    }
    if ContainsCI(t, s) {
      var k :| 0 <= k <= |t| && OccursAtCI(t, s, k);
      EncodedPrefix(t[k..], p, s, "%");
      assert t[k..][..|s|] == t[k..k + |s|];
      PercentMatchesAll(t[k..][|s|..]);
    }
  }

  /** A string without `%`, `_` and `\` is a pattern for itself. */
  lemma {:induction false} PlainEncodesItself(s: string)
    requires forall i :: 0 <= i < |s| ==> !IsWildcardOrEscape(s[i])
    ensures Encodes(s, s)
    decreases |s|
  {
    if s != [] {
      PlainEncodesItself(s[1..]);
    }
  }

  /** A sole `_` between `%`s matches every non-empty string. */
  lemma UnderscoreMatchesAnyNonEmpty(t: string)
    requires t != []
    ensures Like(t, "%_%")
  {
    assert "%_%" == "%" + "_%";
    LeadingPercent(t, "_%");
    assert "_%"[1..] == "%";
    PercentMatchesAll(t[1..]);
    assert t[0..] == t;
  }
}
