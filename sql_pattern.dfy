/**
 * SQL `LIKE` pattern matching and the ASCII lower-casing shared by
 * JavaScript's `toLowerCase` and SQL `LOWER`.
 */
module SqlPattern {
  /** `%` matches any run of characters, `_` any one character. */
  predicate IsWildcard(c: char) {
    c == '%' || c == '_'
  }

  /** A term that `LIKE` reads literally: no wildcard and no backslash,
      the default escape character. */
  predicate Literal(t: string) {
    forall i :: 0 <= i < |t| ==> !IsWildcard(t[i]) && t[i] != '\\'
  }

  /** `s LIKE p`, the whole of `s` against the whole of `p`: `%` matches
      any run of characters, `_` exactly one, every other character itself.
      There is no escape character. */
  function Like(s: string, p: string): (matched: bool)
    ensures matched && '%' !in p ==> |s| == |p|
    ensures '%' !in p && '_' !in p ==> (matched <==> s == p)
    decreases |s| + |p|
  {
    if p == [] then s == []
    else if p[0] == '%' then Like(s, p[1..]) || (s != [] && Like(s[1..], p))
    else if p[0] == '_' then s != [] && Like(s[1..], p[1..])
    else s != [] && s[0] == p[0] && Like(s[1..], p[1..])
  }

  /** `t` occurs in `s` starting at index `k`. */
  predicate OccursAt(s: string, t: string, k: nat) {
    k + |t| <= |s| && s[k..k + |t|] == t
  }

  /** `t` occurs in `s` as a contiguous substring. */
  predicate Contains(s: string, t: string) {
    exists k: nat :: k <= |s| && OccursAt(s, t, k)
  }

  function ToLower(c: char): (d: char)
    ensures 'A' <= c <= 'Z' ==> 'a' <= d <= 'z' && d as int - c as int == 32
    ensures !('A' <= c <= 'Z') ==> d == c
  {
    if 'A' <= c <= 'Z' then (c as int + 32) as char else c
  }

  function Lower(s: string): (r: string)
    ensures |r| == |s|
    ensures forall i :: 0 <= i < |s| ==> r[i] == ToLower(s[i])
  {
    seq(|s|, i requires 0 <= i < |s| => ToLower(s[i]))
  }

  /** Lower-casing twice changes nothing more. */
  lemma LowerIdempotent(s: string)
    ensures Lower(Lower(s)) == Lower(s)
  {
  }

  /** `%` matches every string. */
  lemma {:induction false} PercentMatchesAll(s: string)
    ensures Like(s, "%")
  {
    if s != [] {
      PercentMatchesAll(s[1..]);
    }
  }

  /** `_` consumes exactly one character, whichever it is. */
  lemma UnderscoreMatchesAnyChar(c: char, s: string, q: string)
    ensures Like([c] + s, ['_'] + q) <==> Like(s, q)
    ensures !Like([], ['_'] + q)
  {
    assert ([c] + s)[1..] == s && (['_'] + q)[1..] == q;
  }

  /** A literal prefix of the pattern must be a prefix of the string. */
  lemma {:induction false} LiteralPrefix(s: string, t: string, q: string)
    requires Literal(t)
    ensures Like(s, t + q) <==> t <= s && Like(s[|t|..], q)
  {
    if t == [] {
      assert t + q == q && s[|t|..] == s;
    } else {
      var p := t + q;
      assert p[0] == t[0] && p[1..] == t[1..] + q;
      if s != [] {
        LiteralPrefix(s[1..], t[1..], q);
        if |t| <= |s| {
          assert s[1..][|t| - 1..] == s[|t|..];
        }
        assert t <= s <==> s[0] == t[0] && t[1..] <= s[1..];
      }
    }
  }

  /** A leading `%` skips any number of characters. */
  lemma {:induction false} LeadingPercent(s: string, q: string)
    ensures Like(s, ['%'] + q) <==> exists k :: 0 <= k <= |s| && Like(s[k..], q)
  {
    var p := ['%'] + q;
    assert p[0] == '%' && p[1..] == q;
    if Like(s, p) {
      if Like(s, q) {
        assert s[0..] == s;
      } else {
        LeadingPercent(s[1..], q);
        var k :| 0 <= k <= |s[1..]| && Like(s[1..][k..], q);
        assert s[1..][k..] == s[k + 1..];
      }
    }
    if exists k :: 0 <= k <= |s| && Like(s[k..], q) {
      var k :| 0 <= k <= |s| && Like(s[k..], q);
      if k == 0 {
        assert s[k..] == s;
      } else {
        assert s[1..][k - 1..] == s[k..];
        LeadingPercent(s[1..], q);
      }
    }
  }

  /** For a literal term, `s LIKE '%term%'` is exactly substring search. */
  lemma SubstringPattern(s: string, t: string)
    requires Literal(t)
    ensures Like(s, "%" + t + "%") <==> Contains(s, t)
  {
    assert "%" + t + "%" == ['%'] + (t + "%");
    LeadingPercent(s, t + "%");
    if Like(s, "%" + t + "%") {
      var k :| 0 <= k <= |s| && Like(s[k..], t + "%");
      LiteralPrefix(s[k..], t, "%");
      assert s[k..k + |t|] == s[k..][..|t|];
      assert OccursAt(s, t, k);
    }
    if Contains(s, t) {
      var k: nat :| k <= |s| && OccursAt(s, t, k);
      assert k + |t| <= |s| && s[k..k + |t|] == t;
      assert s[k..][..|t|] == s[k..k + |t|];
      LiteralPrefix(s[k..], t, "%");
      PercentMatchesAll(s[k..][|t|..]);
    }
  }
}
