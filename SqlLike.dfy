/** The semantics of the derived query `...BeerNameIsLikeIgnoreCase(pattern)`:
    `upper(beer_name) LIKE upper(pattern) ESCAPE '\'`, with `%` matching any
    run of characters, `_` matching one character and `\` making the next
    pattern character stand for itself (Spring Data JPA's default escape
    character). */
module SqlLike {

  /** Upper-casing of one character; only ASCII letters are folded. */
  function UpperChar(c: char): char {
    if 'a' <= c <= 'z' then (c as int - 32) as char else c
  }

  function Upper(s: string): string {
    seq(|s|, i requires 0 <= i < |s| => UpperChar(s[i]))
  }

  /** The characters a LIKE pattern does not take literally: the two
      wildcards and the escape character. */
  predicate IsSpecial(c: char) {
    c == '%' || c == '_' || c == '\\'
  }

  /** A text that a LIKE pattern takes character for character. */
  predicate IsPlain(s: string) {
    forall i :: 0 <= i < |s| ==> !IsSpecial(s[i])
  }

  /** `s LIKE p ESCAPE '\'`, case-sensitively. An escape character with
      nothing after it matches nothing. */
  function Like(p: string, s: string): (r: bool)
    decreases |p| + |s|
    ensures IsPlain(p) ==> (r <==> s == p)
  {
    if p == [] then s == []
    else if p[0] == '%' then Like(p[1..], s) || (s != [] && Like(p, s[1..]))
    else if p[0] == '\\' then |p| >= 2 && s != [] && p[1] == s[0] && Like(p[2..], s[1..])
    else s != [] && (p[0] == '_' || p[0] == s[0]) && Like(p[1..], s[1..])
  }

  predicate LikeIgnoreCase(p: string, s: string) {
    Like(Upper(p), Upper(s))
  }

  /** Whether `q` occurs in `s` as a contiguous run of characters. */
  function Contains(s: string, q: string): bool {
    q <= s || (s != [] && Contains(s[1..], q))
  }

  /** `q` occurs in `s` starting at position `i`. */
  predicate OccursAt(s: string, q: string, i: int) {
    0 <= i && i + |q| <= |s| && s[i..i + |q|] == q
  }

  /** `Contains` agrees with the positional definition of a substring. */
  lemma {:induction false} ContainsAt(s: string, q: string)
    ensures Contains(s, q) <==> exists i :: OccursAt(s, q, i)
  {
    if q <= s {
      assert OccursAt(s, q, 0);
    } else if s == [] {
    } else {
      ContainsAt(s[1..], q);
      if i :| OccursAt(s, q, i) {
        assert i != 0;
        assert s[1..][i - 1..i - 1 + |q|] == s[i..i + |q|];
        assert OccursAt(s[1..], q, i - 1);
      }
      if i :| OccursAt(s[1..], q, i) {
        assert s[1..][i..i + |q|] == s[i + 1..i + 1 + |q|];
        assert OccursAt(s, q, i + 1);
      }
    }
  }

  lemma {:induction false} PercentMatchesAll(s: string)
    ensures Like("%", s)
  {
    if s != [] {
      PercentMatchesAll(s[1..]);
    }
  }

  /** A wildcard-free text followed by `%` matches exactly the strings that
      start with that text. */
  lemma {:induction false} PrefixThenPercent(q: string, s: string)
    requires IsPlain(q)
    ensures Like(q + "%", s) <==> q <= s
  {
    if q == [] {
      assert q + "%" == "%";
      PercentMatchesAll(s);
    } else {
      assert (q + "%")[1..] == q[1..] + "%";
      assert !IsSpecial(q[0]);
      if s != [] {
        PrefixThenPercent(q[1..], s[1..]);
        assert q <= s <==> q[0] == s[0] && q[1..] <= s[1..];
      }
    }
  }

  /** The pattern `%q%` matches exactly the strings containing `q`, when `q`
      holds no wildcard. */
  lemma {:induction false} SurroundedMatchesContaining(q: string, s: string)
    requires IsPlain(q)
    ensures Like("%" + q + "%", s) <==> Contains(s, q)
  {
    assert ("%" + q + "%")[1..] == q + "%";
    PrefixThenPercent(q, s);
    if s != [] {
      SurroundedMatchesContaining(q, s[1..]);
    }
  }

  lemma UpperKeepsPlain(q: string)
    requires IsPlain(q)
    ensures IsPlain(Upper(q))
  {
  }

  /** With case folded, `%q%` matches exactly the names that contain `q`
      ignoring ASCII case. */
  lemma SurroundedMatchesContainingIgnoreCase(q: string, s: string)
    requires IsPlain(q)
    ensures LikeIgnoreCase("%" + q + "%", s) <==> Contains(Upper(s), Upper(q))
  {
    assert Upper("%" + q + "%") == "%" + Upper(q) + "%";
    UpperKeepsPlain(q);
    SurroundedMatchesContaining(Upper(q), Upper(s));
  }

  /** An escaped wildcard stands for itself: `\%` matches only "%" and
      `\_` only "_". */
  lemma EscapedWildcardIsLiteral(c: char, s: string)
    requires c == '%' || c == '_'
    ensures Like(['\\', c], s) <==> s == [c]
  {
    assert ['\\', c][2..] == [];
  }

  /** A search text that is itself a wildcard is not taken literally: `%_%`
      matches every non-empty name. */
  lemma {:induction false} UnderscoreMatchesAnyNonEmpty(s: string)
    ensures Like("%_%", s) <==> s != []
  {
    if s != [] {
      assert "%_%"[1..] == "_%";
      assert "_%"[1..] == "%";
      PercentMatchesAll(s[1..]);
    }
  }
}
