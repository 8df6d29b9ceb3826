/**
 * The name search of the list action: the store matches `name ILIKE pattern`,
 * where the pattern is `%search%` passed through unescaped. In the pattern `%`
 * matches any run of characters, `_` any one character, `\` escapes the next
 * character, and the query layer also reads `*` as `%`.
 */
module LikePattern {
  import opened Text

  /** SQL `LIKE` with the default escape character `\`. */
  predicate LikeMatch(p: string, s: string)
    decreases |p| + |s|
  {
    if p == [] then s == []
    else if p[0] == '%' then LikeMatch(p[1..], s) || (s != [] && LikeMatch(p, s[1..]))
    else if p[0] == '_' then s != [] && LikeMatch(p[1..], s[1..])
    else if p[0] == '\\' then |p| >= 2 && s != [] && p[1] == s[0] && LikeMatch(p[2..], s[1..])
    else s != [] && p[0] == s[0] && LikeMatch(p[1..], s[1..])
  }

  /** `ILIKE`: both sides lower-cased first. */
  predicate ILike(p: string, s: string) {
    LikeMatch(Lower(p), Lower(s))
  }

  /** The query layer's alias: every `*` in a like-pattern stands for `%`. */
  function StarsToPercent(p: string): (r: string)
    ensures |r| == |p|
    ensures forall i :: 0 <= i < |p| ==> r[i] == if p[i] == '*' then '%' else p[i]
  {
    seq(|p|, i requires 0 <= i < |p| => if p[i] == '*' then '%' else p[i])
  }

  /**
   * The pattern the list action sends for a search text: the text between two
   * `%`, passed through unescaped; a wildcard-free text arrives unchanged.
   */
  function SearchPattern(search: string): (p: string)
    ensures |p| == |search| + 2 && p[0] == '%' && p[|p| - 1] == '%'
    ensures WildcardFree(search) ==> p == "%" + search + "%"
  {
    StarsToPercent("%" + search + "%")
  }

  /** No character of `t` means anything special in a pattern. */
  predicate WildcardFree(t: string) {
    forall i :: 0 <= i < |t| ==> t[i] != '%' && t[i] != '_' && t[i] != '\\' && t[i] != '*'
  }

  /** A lone `%` matches every string. */
  lemma {:induction false} PercentMatchesAll(s: string)
    ensures LikeMatch("%", s)
  {
    if s != [] {
      PercentMatchesAll(s[1..]);
    }
  }

  /** A literal followed by `%` matches exactly the strings the literal is a prefix of. */
  lemma {:induction false} LiteralThenPercent(t: string, s: string)
    requires WildcardFree(t)
    ensures LikeMatch(t + "%", s) <==> IsPrefix(t, s)
    decreases |t|
  {
    if t == [] {
      assert t + "%" == "%";
      PercentMatchesAll(s);
    } else {
      var p := t + "%";
      assert p[0] == t[0] && p[1..] == t[1..] + "%";
      if s != [] {
        LiteralThenPercent(t[1..], s[1..]);
        assert IsPrefix(t, s) <==> t[0] == s[0] && IsPrefix(t[1..], s[1..]) by {
          if |t| <= |s| {
            assert s[..|t|] == [s[0]] + s[1..][..|t| - 1];
            assert t == [t[0]] + t[1..];
          }
        }
      }
    }
  }

  /** `%t%` for a literal `t` is substring search. */
  lemma {:induction false} SurroundedLiteral(t: string, s: string)
    requires WildcardFree(t)
    ensures LikeMatch("%" + t + "%", s) <==> Contains(s, t)
    decreases |s|
  {
    var p := "%" + t + "%";
    assert p[0] == '%' && p[1..] == t + "%";
    LiteralThenPercent(t, s);
    if s != [] {
      SurroundedLiteral(t, s[1..]);
    }
  }

  /**
   * For a search text without pattern characters, the name filter is exactly a
   * case-insensitive substring test.
   */
  lemma SearchIsCaseInsensitiveSubstring(search: string, name: string)
    requires WildcardFree(search)
    ensures ILike(SearchPattern(search), name) <==> Contains(Lower(name), Lower(search))
  {
    var raw := "%" + search + "%";
    assert StarsToPercent(raw) == raw;
    LowerAppend("%" + search, "%");
    LowerAppend("%", search);
    assert Lower("%") == "%";
    assert WildcardFree(Lower(search));
    SurroundedLiteral(Lower(search), Lower(name));
  }

  /**
   * Because the search text is not escaped, a search for `_` matches every
   * non-empty name, and one for `*` or `%` matches every name.
   */
  lemma UnescapedWildcards(name: string)
    ensures ILike(SearchPattern("_"), name) <==> name != []
    ensures ILike(SearchPattern("*"), name)
    ensures ILike(SearchPattern("%"), name)
  {
    var n := Lower(name);
    assert SearchPattern("_") == "%_%";
    assert Lower("%_%") == "%_%";
    assert "%_%"[1..] == "_%" && "_%"[1..] == "%";
    if n != [] {
      PercentMatchesAll(n[1..]);
      assert LikeMatch("_%", n);
      assert LikeMatch("%_%", n);
    } else {
      assert !LikeMatch("_%", n);
      assert !LikeMatch("%_%", n);
    }
    assert SearchPattern("*") == "%%%" && SearchPattern("%") == "%%%";
    assert Lower("%%%") == "%%%";
    assert "%%%"[1..] == "%%" && "%%"[1..] == "%";
    PercentMatchesAll(n);
  }
}
