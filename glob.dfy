/**
 * Python's `fnmatch.fnmatch(name, pat)` on POSIX (where `normcase` is the
 * identity): case-sensitive, `*` matches any run of characters including '/',
 * `?` any one character, `[...]` and `[!...]` a character class with `a-z`
 * ranges, and a `[` with no closing `]` is an ordinary character.
 * The pattern is first cut into tokens the way `fnmatch.translate` cuts it
 * into regular-expression atoms; the tokens are then matched against the
 * whole name.
 */
module Glob {

  datatype ClassItem = Single(c: char) | Span(lo: char, hi: char)

  datatype Token = Star | AnyChar | Lit(c: char) | CharClass(negated: bool, items: seq<ClassItem>)

  /** Index of the first ']' at or after `j`, or |pat| when there is none. */
  function CloseAt(pat: string, j: nat): (k: nat)
    requires j <= |pat|
    ensures j <= k <= |pat|
    ensures k < |pat| ==> pat[k] == ']'
    ensures forall m :: j <= m < k ==> pat[m] != ']'
    decreases |pat| - j
  {
    if j == |pat| || pat[j] == ']' then j else CloseAt(pat, j + 1)
  }

  /**
   * The members of a class body (after `[` or `[!`, before `]`): `x-y` is a
   * range unless the '-' is the last character; a '-' right after a range,
   * or first, stands for itself. A range with `x > y` holds nothing.
   */
  function ClassItems(body: string): seq<ClassItem>
    decreases |body|
  {
    if body == [] then []
    else if |body| >= 3 && body[1] == '-' then [Span(body[0], body[2])] + ClassItems(body[3..])
    else [Single(body[0])] + ClassItems(body[1..])
  }

  predicate ItemHas(item: ClassItem, c: char) {
    match item
    case Single(x) => c == x
    case Span(lo, hi) => lo <= c <= hi
  }

  predicate ClassHas(items: seq<ClassItem>, c: char) {
    exists i :: 0 <= i < |items| && ItemHas(items[i], c)
  }

  /** The tokens of `pat`, one per atom of the regular expression `fnmatch.translate` builds. */
  function Compile(pat: string): seq<Token>
    decreases |pat|
  {
    if pat == [] then []
    else if pat[0] == '*' then [Star] + Compile(pat[1..])
    else if pat[0] == '?' then [AnyChar] + Compile(pat[1..])
    else if pat[0] == '[' then
      var negated := |pat| > 1 && pat[1] == '!';
      var j := if negated then 2 else 1;
      var k := CloseAt(pat, if j < |pat| && pat[j] == ']' then j + 1 else j);
      if k == |pat| then [Lit('[')] + Compile(pat[1..])
      else [CharClass(negated, ClassItems(pat[j..k]))] + Compile(pat[k + 1..])
    else [Lit(pat[0])] + Compile(pat[1..])
  }

  /** Whether the whole of `s` is matched by `toks`. */
  predicate MatchTokens(s: string, toks: seq<Token>)
    decreases |s|, |toks|
  {
    if toks == [] then s == []
    else
      match toks[0]
      case Star => MatchTokens(s, toks[1..]) || (s != [] && MatchTokens(s[1..], toks))
      case AnyChar => s != [] && MatchTokens(s[1..], toks[1..])
      case Lit(c) => s != [] && s[0] == c && MatchTokens(s[1..], toks[1..])
      case CharClass(negated, items) =>
        s != [] && ClassHas(items, s[0]) != negated && MatchTokens(s[1..], toks[1..])
  }

  /** `fnmatch.fnmatch(name, pat)`. */
  predicate Fnmatch(name: string, pat: string) {
    MatchTokens(name, Compile(pat))
  }

  /** A pattern with none of `*`, `?`, `[`. */
  predicate IsLiteral(pat: string) {
    '*' !in pat && '?' !in pat && '[' !in pat
  }

  /** A leading `*` absorbs any prefix. */
  lemma {:induction false} StarAbsorbs(u: string, v: string, toks: seq<Token>)
    requires MatchTokens(v, toks)
    ensures MatchTokens(u + v, [Star] + toks)
    decreases |u|
  {
    assert ([Star] + toks)[1..] == toks;
    if u != [] {
      var s := u + v;
      assert s[1..] == u[1..] + v;
      StarAbsorbs(u[1..], v, toks);
      assert MatchTokens(s[1..], [Star] + toks);
    } else {
      assert u + v == v;
    }
  }

  lemma CompileUnderAnyDirectory(pat: string)
    ensures Compile("*/" + pat) == [Star, Lit('/')] + Compile(pat)
  {
    var p := "*/" + pat;
    assert p[1..] == "/" + pat;
    assert ("/" + pat)[1..] == pat;
  }

  // Prefixing a pattern with star-slash means matching it below some
  // directory: whatever `pat` matches is matched again under any directory.
  lemma MatchUnderDirectory(name: string, pat: string, dir: string)
    requires Fnmatch(name, pat)
    ensures Fnmatch(dir + "/" + name, "*/" + pat)
  {
    var toks := Compile(pat);
    var rest := [Lit('/')] + toks;
    assert MatchTokens("/" + name, rest) by {
      assert ("/" + name)[1..] == name;
      assert rest[1..] == toks;
    }
    assert MatchTokens(dir + ("/" + name), [Star] + rest) by {
      StarAbsorbs(dir, "/" + name, rest);
    }
    assert Compile("*/" + pat) == [Star] + rest by {
      CompileUnderAnyDirectory(pat);
      assert [Star] + rest == [Star, Lit('/')] + toks;
    }
    assert dir + ("/" + name) == dir + "/" + name;
  }

  /** A pattern without `[` matches its own text: `*` and `?` each match themselves. */
  lemma {:induction false} SelfMatch(pat: string)
    requires '[' !in pat
    ensures Fnmatch(pat, pat)
    decreases |pat|
  {
    if pat != [] {
      var rest := pat[1..];
      assert forall x :: x in rest ==> x in pat;
      SelfMatch(rest);
      var toks := Compile(pat);
      assert toks[1..] == Compile(rest);
      if pat[0] == '*' {
        assert MatchTokens(rest, toks[1..]);
        assert MatchTokens(rest, toks);
      }
    }
  }

  /** A literal pattern matches exactly its own text. */
  lemma {:induction false} LiteralMatch(name: string, pat: string)
    requires IsLiteral(pat)
    ensures Fnmatch(name, pat) <==> name == pat
    decreases |pat|
  {
    if pat != [] {
      assert pat[0] in pat;
      var rest := pat[1..];
      assert forall x :: x in rest ==> x in pat;
      var toks := Compile(pat);
      assert toks == [Lit(pat[0])] + Compile(rest);
      if name != [] {
        LiteralMatch(name[1..], rest);
        assert name == [name[0]] + name[1..];
        assert pat == [pat[0]] + rest;
      }
    }
  }
}
