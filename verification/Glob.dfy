/**
 File-name search: a glob is translated into a SQL LIKE pattern by five
 replacements over the whole string.
 */
module Glob {

  // ---------------------------------------------------------------- the two pattern languages

  /** Glob matching: `*` any run of characters, `?` one character, anything else
      itself up to `fold` (the search ignores case). */
  predicate GlobMatch(g: string, s: string, fold: char -> char)
    decreases |g|, |s|
  {
    if g == [] then s == []
    else if g[0] == '*' then GlobMatch(g[1..], s, fold) || (s != [] && GlobMatch(g, s[1..], fold))
    else if s == [] then false
    else (g[0] == '?' || fold(g[0]) == fold(s[0])) && GlobMatch(g[1..], s[1..], fold)
  }

  /** LIKE with escape character `\` (section 8.5 of SQL-92): `%` any run of
      characters, `_` one character, `\` before `%`, `_` or `\` that character
      itself; a `\` before anything else makes the pattern invalid, and then it
      matches nothing here. */
  predicate LikeMatch(p: string, s: string, fold: char -> char)
    decreases |p|, |s|
  {
    if p == [] then s == []
    else if p[0] == '%' then LikeMatch(p[1..], s, fold) || (s != [] && LikeMatch(p, s[1..], fold))
    else if p[0] == '\\' then
      && |p| >= 2 && (p[1] == '%' || p[1] == '_' || p[1] == '\\')
      && s != [] && fold(p[1]) == fold(s[0]) && LikeMatch(p[2..], s[1..], fold)
    else if s == [] then false
    else (p[0] == '_' || fold(p[0]) == fold(s[0])) && LikeMatch(p[1..], s[1..], fold)
  }

  /** Every escape in the pattern is a legal one. */
  predicate ValidLike(p: string) {
    if p == [] then true
    else if p[0] == '\\' then |p| >= 2 && (p[1] == '%' || p[1] == '_' || p[1] == '\\') && ValidLike(p[2..])
    else ValidLike(p[1..])
  }

  // ---------------------------------------------------------------- the translation

  /** `s.replace(c, r)` for a single character `c`. */
  function Replace(s: string, c: char, r: string): string {
    if s == [] then [] else (if s[0] == c then r else [s[0]]) + Replace(s[1..], c, r)
  }

  /** `_glob_to_like_pattern` */
  function GlobToLike(glob: string): string {
    var p1 := Replace(glob, '\\', "\\\\");
    var p2 := Replace(p1, '%', "\\%");
    var p3 := Replace(p2, '_', "\\_");
    var p4 := Replace(p3, '*', "%");
    Replace(p4, '?', "_")
  }

  /** What the translation means for one character. */
  function LikeOf(c: char): string {
    if c == '\\' then "\\\\"
    else if c == '%' then "\\%"
    else if c == '_' then "\\_"
    else if c == '*' then "%"
    else if c == '?' then "_"
    else [c]
  }

  function CharByChar(g: string): string {
    if g == [] then [] else LikeOf(g[0]) + CharByChar(g[1..])
  }

  lemma {:induction false} ReplaceConcat(a: string, b: string, c: char, r: string)
    ensures Replace(a + b, c, r) == Replace(a, c, r) + Replace(b, c, r)
    decreases |a|
  {
    if a == [] {
      assert a + b == b;
    } else {
      ReplaceConcat(a[1..], b, c, r);
      assert (a + b)[1..] == a[1..] + b;
    }
  }

  lemma {:induction false} GlobToLikeConcat(a: string, b: string)
    ensures GlobToLike(a + b) == GlobToLike(a) + GlobToLike(b)
  {
    ReplaceConcat(a, b, '\\', "\\\\");
    var a1, b1 := Replace(a, '\\', "\\\\"), Replace(b, '\\', "\\\\");
    ReplaceConcat(a1, b1, '%', "\\%");
    var a2, b2 := Replace(a1, '%', "\\%"), Replace(b1, '%', "\\%");
    ReplaceConcat(a2, b2, '_', "\\_");
    var a3, b3 := Replace(a2, '_', "\\_"), Replace(b2, '_', "\\_");
    ReplaceConcat(a3, b3, '*', "%");
    ReplaceConcat(Replace(a3, '*', "%"), Replace(b3, '*', "%"), '?', "_");
  }

  lemma {:induction false} ReplaceOne(x: char, c: char, r: string)
    ensures Replace([x], c, r) == if x == c then r else [x]
  {
    assert Replace([x][1..], c, r) == [];
  }

  /** An escaped character that the later replacements do not touch. */
  lemma {:induction false} ReplaceEscaped(x: char, c: char, r: string)
    requires c != '\\' && x != c
    ensures Replace(['\\', x], c, r) == ['\\', x]
  {
    assert ['\\', x][1..] == [x];
    ReplaceOne(x, c, r);
  }

  lemma {:induction false} GlobToLikeOne(x: char)
    ensures GlobToLike([x]) == LikeOf(x)
  {
    ReplaceOne(x, '\\', "\\\\");
    ReplaceOne(x, '%', "\\%");
    ReplaceOne(x, '_', "\\_");
    ReplaceOne(x, '*', "%");
    ReplaceOne(x, '?', "_");
    ReplaceOne('%', '?', "_");
    if x == '\\' {
      ReplaceEscaped('\\', '%', "\\%");
    }
    if x == '\\' || x == '%' {
      ReplaceEscaped(x, '_', "\\_");
    }
    if x == '\\' || x == '%' || x == '_' {
      ReplaceEscaped(x, '*', "%");
      ReplaceEscaped(x, '?', "_");
    }
  }

  /** The five whole-string replacements, in their order, are one pass over the
      characters: none of them touches what an earlier one produced. */
  lemma {:induction false} FiveReplacementsAreOnePass(g: string)
    ensures GlobToLike(g) == CharByChar(g)
    decreases |g|
  {
    if g != [] {
      FiveReplacementsAreOnePass(g[1..]);
      GlobToLikeOne(g[0]);
      GlobToLikeConcat([g[0]], g[1..]);
      assert [g[0]] + g[1..] == g;
    }
  }

  // ---------------------------------------------------------------- meaning is kept

  lemma {:induction false} CharByCharKeepsMeaning(g: string, s: string, fold: char -> char)
    ensures LikeMatch(CharByChar(g), s, fold) <==> GlobMatch(g, s, fold)
    decreases |g|, |s|
  {
    if g != [] {
      var c, rest := g[0], CharByChar(g[1..]);
      var p := CharByChar(g);
      assert p == LikeOf(c) + rest;
      if c == '*' {
        assert p[1..] == rest;
        CharByCharKeepsMeaning(g[1..], s, fold);
        if s != [] {
          CharByCharKeepsMeaning(g, s[1..], fold);
        }
      } else {
        if s != [] {
          CharByCharKeepsMeaning(g[1..], s[1..], fold);
        }
        if c == '\\' || c == '%' || c == '_' {
          assert p[0] == '\\' && p[1] == c && p[2..] == rest;
        } else {
          assert p[1..] == rest;
        }
      }
    }
  }

  /** For every glob and every name, the translated LIKE pattern matches exactly
      when the glob does. */
  lemma {:induction false} TranslationKeepsMeaning(g: string, s: string, fold: char -> char)
    ensures LikeMatch(GlobToLike(g), s, fold) <==> GlobMatch(g, s, fold)
  {
    FiveReplacementsAreOnePass(g);
    CharByCharKeepsMeaning(g, s, fold);
  }

  lemma {:induction false} CharByCharIsValid(g: string)
    ensures ValidLike(CharByChar(g))
    decreases |g|
  {
    if g != [] {
      var p, rest := CharByChar(g), CharByChar(g[1..]);
      CharByCharIsValid(g[1..]);
      assert p == LikeOf(g[0]) + rest;
      if g[0] == '\\' || g[0] == '%' || g[0] == '_' {
        assert p[2..] == rest;
      } else {
        assert p[1..] == rest;
      }
    }
  }

  /** The database never sees an illegal escape. */
  lemma {:induction false} TranslationIsValid(g: string)
    ensures ValidLike(GlobToLike(g))
  {
    FiveReplacementsAreOnePass(g);
    CharByCharIsValid(g);
  }

  // ---------------------------------------------------------------- the search

  /** `search_files`: the filter is left out when the pattern is `%`. */
  function SearchFiles(names: seq<string>, glob: string, fold: char -> char): (r: seq<string>) {
    var pattern := GlobToLike(glob);
    if names == [] then []
    else
      var rest := SearchFiles(names[..|names| - 1], glob, fold);
      var name := names[|names| - 1];
      if pattern == "%" || LikeMatch(pattern, name, fold) then rest + [name] else rest
  }

  lemma {:induction false} StarMatchesAll(s: string, fold: char -> char)
    ensures GlobMatch("*", s, fold)
    decreases |s|
  {
    if s != [] {
      StarMatchesAll(s[1..], fold);
    } else {
      assert GlobMatch("*"[1..], s, fold);
    }
  }

  lemma {:induction false} LikeOfPercent(c: char)
    ensures LikeOf(c) == "%" <==> c == '*'
    ensures |LikeOf(c)| >= 1
  {
    assert c != '*' && c != '?' && c != '\\' && c != '%' && c != '_' ==> LikeOf(c)[0] != '%';
    assert c == '?' ==> LikeOf(c)[0] != '%';
  }

  /** The pattern is `%` only for the glob `*`, so leaving the filter out is sound. */
  lemma {:induction false} PercentIsStar(g: string)
    ensures GlobToLike(g) == "%" <==> g == "*"
  {
    FiveReplacementsAreOnePass(g);
    if |g| == 1 {
      assert g == [g[0]];
      assert CharByChar(g) == LikeOf(g[0]) + [] == LikeOf(g[0]);
      LikeOfPercent(g[0]);
      assert g == "*" <==> g[0] == '*';
    } else if |g| > 1 {
      LikeOfPercent(g[0]);
      LikeOfPercent(g[1]);
      assert CharByChar(g[1..]) == LikeOf(g[1]) + CharByChar(g[1..][1..]);
    }
  }

  /** The search returns exactly the names that the glob matches. */
  lemma {:induction false} SearchReturnsGlobMatches(names: seq<string>, glob: string, fold: char -> char)
    ensures forall name :: name in SearchFiles(names, glob, fold) <==> name in names && GlobMatch(glob, name, fold)
    decreases |names|
  {
    if names != [] {
      var front, name := names[..|names| - 1], names[|names| - 1];
      SearchReturnsGlobMatches(front, glob, fold);
      TranslationKeepsMeaning(glob, name, fold);
      PercentIsStar(glob);
      StarMatchesAll(name, fold);
      assert names == front + [name];
    }
  }
}
