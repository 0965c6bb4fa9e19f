/**
 * Text helpers: JavaScript truthiness of optional strings and PostgreSQL's
 * `ILIKE` pattern match, which the doctor search uses with `%<query>%`.
 */
module Strings {
  import opened Wrappers

  // ------------------------------------------------------------ truthiness

  /** A JSON string field treated the way JavaScript's `!x` does: `undefined`,
      `null` and the empty string are falsy, every other string is truthy. */
  predicate Truthy(s: Option<string>) {
    s.Some? && s.value != ""
  }

  /** JavaScript `s || fallback` on a string field. */
  function OrElse(s: Option<string>, fallback: string): (r: string)
    ensures Truthy(s) ==> r == s.value
    ensures !Truthy(s) ==> r == fallback
  {
    if Truthy(s) then s.value else fallback
  }

  // ------------------------------------------------------------ case folding

  /** ASCII lower-casing of one character. */
  function LowerChar(c: char): char {
    if 'A' <= c <= 'Z' then (c as int + 32) as char else c
  }

  /** ASCII lower-casing of a string; every other character is kept. */
  function Lower(s: string): (r: string)
    ensures |r| == |s|
    ensures forall i :: 0 <= i < |s| ==> r[i] == LowerChar(s[i])
  {
    if s == [] then [] else [LowerChar(s[0])] + Lower(s[1..])
  }

  lemma {:induction false} LowerConcat(a: string, b: string)
    ensures Lower(a + b) == Lower(a) + Lower(b)
  {
    var l := Lower(a + b);
    assert forall i :: 0 <= i < |a| ==> l[i] == LowerChar(a[i]) by {
      forall i | 0 <= i < |a| ensures l[i] == LowerChar(a[i]) {
        assert (a + b)[i] == a[i];
      }
    }
    assert forall i :: 0 <= i < |b| ==> l[|a| + i] == LowerChar(b[i]) by {
      forall i | 0 <= i < |b| ensures l[|a| + i] == LowerChar(b[i]) {
        assert (a + b)[|a| + i] == b[i];
      }
    }
  }

  // ------------------------------------------------------------ LIKE patterns

  /** A character with a meaning inside a LIKE pattern. */
  predicate IsMeta(c: char) {
    c == '%' || c == '_' || c == '\\'
  }

  /** A pattern made only of ordinary characters: it matches only itself. */
  predicate Literal(q: string) {
    forall i :: 0 <= i < |q| ==> !IsMeta(q[i])
  }

  /**
   * SQL `t LIKE p` with PostgreSQL's default escape character: `%` matches any
   * run of characters, `_` any one character, `\` makes the next character
   * literal, and every other character matches itself. PostgreSQL refuses a
   * pattern that ends in a lone `\`; the search never builds one (its
   * pattern always ends in `%`), and here such a pattern matches nothing.
   */
  predicate Like(t: string, p: string)
    decreases |t| + |p|
  {
    if p == [] then t == []
    else if p[0] == '%' then Like(t, p[1..]) || (t != [] && Like(t[1..], p))
    else if p[0] == '_' then t != [] && Like(t[1..], p[1..])
    else if p[0] == '\\' then |p| >= 2 && t != [] && t[0] == p[1] && Like(t[1..], p[2..])
    else t != [] && t[0] == p[0] && Like(t[1..], p[1..])
  }

  /** SQL `t ILIKE p`: LIKE after case folding both sides. */
  predicate ILike(t: string, p: string) {
    Like(Lower(t), Lower(p))
  }

  /** `q` occurs in `t` as a contiguous piece. */
  predicate Contains(t: string, q: string) {
    exists i :: 0 <= i <= |t| && q <= t[i..]
  }

  /** `%` matches every string. */
  lemma {:induction false} LikePercent(t: string)
    ensures Like(t, "%")
    decreases |t|
  {
    if t != [] {
      LikePercent(t[1..]);
    }
  }

  /** A literal followed by `%` matches exactly the strings starting with it. */
  lemma {:induction false} LikePrefix(t: string, q: string)
    requires Literal(q)
    ensures Like(t, q + "%") <==> q <= t
    decreases |q|
  {
    if q == [] {
      assert q + "%" == "%";
      LikePercent(t);
    } else {
      assert (q + "%")[0] == q[0] && (q + "%")[1..] == q[1..] + "%";
      assert Literal(q[1..]) by {
        forall i | 0 <= i < |q[1..]| ensures !IsMeta(q[1..][i]) {
          assert q[1..][i] == q[i + 1];
        }
      }
      if t != [] {
        LikePrefix(t[1..], q[1..]);
        assert q <= t <==> q[0] == t[0] && q[1..] <= t[1..];
      }
    }
  }

  /** Contains, one position at a time. */
  lemma ContainsStep(t: string, q: string)
    ensures Contains(t, q) <==> q <= t || (t != [] && Contains(t[1..], q))
  {
    if t != [] && Contains(t[1..], q) {
      var i :| 0 <= i <= |t[1..]| && q <= t[1..][i..];
      assert t[1..][i..] == t[i + 1..];
    }
    if Contains(t, q) && !(q <= t) {
      var i :| 0 <= i <= |t| && q <= t[i..];
      assert i > 0;
      assert t[1..][i - 1..] == t[i..];
    }
    assert q <= t ==> q <= t[0..];
  }

  /** `%q%` with a literal `q` is exactly the substring test. */
  lemma {:induction false} LikeSubstring(t: string, q: string)
    requires Literal(q)
    ensures Like(t, "%" + q + "%") <==> Contains(t, q)
    decreases |t|
  {
    var p := "%" + q + "%";
    assert p[0] == '%' && p[1..] == q + "%";
    LikePrefix(t, q);
    ContainsStep(t, q);
    if t != [] {
      LikeSubstring(t[1..], q);
    }
  }

  /** Lower-casing never creates or removes a pattern character. */
  lemma LowerLiteral(q: string)
    requires Literal(q)
    ensures Literal(Lower(q))
  {
  }

  /**
   * The doctor search filter: for a query without `%`, `_` or `\`, the
   * column matches `ILIKE '%' || query || '%'` exactly when the lower-cased
   * query occurs in the lower-cased column.
   */
  lemma SearchMatchIsSubstring(column: string, query: string)
    requires Literal(query)
    ensures ILike(column, "%" + query + "%") <==> Contains(Lower(column), Lower(query))
  {
    var lq := Lower(query);
    assert Lower("%") == "%";
    LowerConcat("%", query);
    assert Lower("%" + query) == "%" + lq;
    LowerConcat("%" + query, "%");
    assert Lower("%" + query + "%") == "%" + lq + "%";
    LowerLiteral(query);
    LikeSubstring(Lower(column), lq);
  }

  /** Wildcards in user input are honoured: a query of `%` matches every column. */
  lemma PercentQueryMatchesAll(column: string)
    ensures ILike(column, "%" + "%" + "%")
  {
    assert Lower("%%%") == "%%%";
    LikePercent(Lower(column));
  }
}
