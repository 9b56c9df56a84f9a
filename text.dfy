/**
 * The Python `str` operations the three modelled files lean on: `isspace`,
 * `strip`, `readlines`, `startswith`/`endswith`, the `in` substring test,
 * `split`/`join` on one separator and the case mappings (ASCII letters only).
 */
module Text {

  /** Python's `str.isspace()` for one character: what `strip()` and the regex class `\s` remove. */
  predicate IsSpace(c: char) {
    c == ' ' || ('\t' <= c <= '\r') || ('\U{1C}' <= c <= '\U{1F}') || c == '\U{85}' || c == '\U{A0}'
    || c == '\U{1680}' || ('\U{2000}' <= c <= '\U{200A}') || c == '\U{2028}' || c == '\U{2029}'
    || c == '\U{202F}' || c == '\U{205F}' || c == '\U{3000}'
  }

  /** `s.lstrip()`: the longest suffix of `s` that does not start with white space. */
  function StripLeft(s: string): (r: string)
    ensures |r| <= |s|
    ensures forall i :: 0 <= i < |s| - |r| ==> IsSpace(s[i])
    ensures r != [] ==> !IsSpace(r[0])
  {
    if s != [] && IsSpace(s[0]) then StripLeft(s[1..]) else s
  }

  /** What `lstrip()` keeps is a suffix. */
  lemma {:induction false} StripLeftSuffix(s: string)
    ensures StripLeft(s) == s[|s| - |StripLeft(s)|..]
  {
    if s != [] && IsSpace(s[0]) {
      StripLeftSuffix(s[1..]);
    }
  }

  /** `s.rstrip()`: the longest prefix of `s` that does not end with white space. */
  function StripRight(s: string): (r: string)
    ensures |r| <= |s|
    ensures forall i :: |r| <= i < |s| ==> IsSpace(s[i])
    ensures r != [] ==> !IsSpace(r[|r| - 1])
  {
    if s != [] && IsSpace(s[|s| - 1]) then StripRight(s[..|s| - 1]) else s
  }

  /** What `rstrip()` keeps is a prefix. */
  lemma {:induction false} StripRightPrefix(s: string)
    ensures StripRight(s) == s[..|StripRight(s)|]
  {
    if s != [] && IsSpace(s[|s| - 1]) {
      StripRightPrefix(s[..|s| - 1]);
    }
  }

  /** `s.strip()`. */
  function Strip(s: string): string {
    StripRight(StripLeft(s))
  }

  /** A string that `strip()` leaves as it is. */
  predicate IsStripped(s: string) {
    s == [] || (!IsSpace(s[0]) && !IsSpace(s[|s| - 1]))
  }

  lemma StripIsStripped(s: string)
    ensures IsStripped(Strip(s))
    ensures Strip(Strip(s)) == Strip(s)
  {
    var l := StripLeft(s);
    var r := StripRight(l);
    StripRightPrefix(l);
    if r != [] {
      assert r[0] == l[0];
    }
  }

  lemma StrippedFixed(s: string)
    requires IsStripped(s)
    ensures Strip(s) == s
  {
  }

  lemma {:induction false} StripLeftAppend(s: string, t: string)
    ensures StripLeft(s + t) == if StripLeft(s) == [] then StripLeft(t) else StripLeft(s) + t
    decreases |s|
  {
    if s == [] {
      assert s + t == t;
    } else if IsSpace(s[0]) {
      assert (s + t)[1..] == s[1..] + t;
      StripLeftAppend(s[1..], t);
    }
  }

  /** A line read with its terminating '\n' strips to the same text as without it. */
  lemma StripNewline(s: string)
    ensures Strip(s + "\n") == Strip(s)
  {
    StripLeftAppend(s, "\n");
    var l := StripLeft(s);
    if l == [] {
      assert StripLeft("\n") == StripLeft([]);
    } else {
      var t := l + "\n";
      assert IsSpace(t[|t| - 1]);
      assert t[..|t| - 1] == l;
      assert StripRight(t) == StripRight(l);
    }
  }

  predicate StartsWith(s: string, prefix: string) {
    |prefix| <= |s| && s[..|prefix|] == prefix
  }

  predicate EndsWith(s: string, suffix: string) {
    |suffix| <= |s| && s[|s| - |suffix|..] == suffix
  }

  /** Python's `sub in s`. */
  predicate Contains(s: string, sub: string)
    decreases |s|
  {
    StartsWith(s, sub) || (s != [] && Contains(s[1..], sub))
  }

  lemma {:induction false} ContainsAt(s: string, sub: string, i: nat)
    requires i + |sub| <= |s| && s[i..i + |sub|] == sub
    ensures Contains(s, sub)
    decreases i
  {
    if i > 0 {
      assert s[1..][i - 1..i - 1 + |sub|] == sub;
      ContainsAt(s[1..], sub, i - 1);
    }
  }

  lemma {:induction false} ContainsIndex(s: string, sub: string) returns (i: nat)
    requires Contains(s, sub)
    ensures i + |sub| <= |s| && s[i..i + |sub|] == sub
    decreases |s|
  {
    if StartsWith(s, sub) {
      i := 0;
    } else {
      var j := ContainsIndex(s[1..], sub);
      i := j + 1;
      assert s[i..i + |sub|] == s[1..][j..j + |sub|];
    }
  }

  /** The strings of `ss` written one after another (Python's `"".join(ss)`). */
  function Concat(ss: seq<string>): string {
    if ss == [] then [] else ss[0] + Concat(ss[1..])
  }

  lemma {:induction false} ConcatAppend(a: seq<string>, b: seq<string>)
    ensures Concat(a + b) == Concat(a) + Concat(b)
  {
    if a == [] {
      assert a + b == b;
    } else {
      assert (a + b)[1..] == a[1..] + b;
      ConcatAppend(a[1..], b);
    }
  }

  // ---- readlines ----

  /** Length of the first line of `t`, its '\n' included. */
  function LineLen(t: string): (k: nat)
    ensures k <= |t|
    ensures t != [] ==> 0 < k && (k == |t| || t[k - 1] == '\n')
    ensures forall i :: 0 <= i < k - 1 ==> t[i] != '\n'
  {
    if t == [] then 0 else if t[0] == '\n' then 1 else 1 + LineLen(t[1..])
  }

  /**
   * `readlines()` on a file whose text is `t`: every line keeps its '\n';
   * only the last may lack one. Writing the lines out again gives back `t`.
   */
  function ReadLines(t: string): (ls: seq<string>)
    ensures Concat(ls) == t
    ensures forall i :: 0 <= i < |ls| ==> ls[i] != []
    ensures forall i :: 0 <= i < |ls| - 1 ==> ls[i][|ls[i]| - 1] == '\n'
    decreases |t|
  {
    if t == [] then []
    else
      var k := LineLen(t);
      assert t[..k] + t[k..] == t;
      [t[..k]] + ReadLines(t[k..])
  }

  lemma {:induction false} LineLenPrefix(a: string, b: string)
    requires a != [] && a[|a| - 1] == '\n'
    ensures LineLen(a + b) == LineLen(a)
    decreases |a|
  {
    if a[0] != '\n' {
      assert (a + b)[1..] == a[1..] + b;
      LineLenPrefix(a[1..], b);
    }
  }

  lemma ReadLinesUnfold(t: string)
    requires t != []
    ensures ReadLines(t) == [t[..LineLen(t)]] + ReadLines(t[LineLen(t)..])
  {
  }

  lemma AppendAssoc<T>(x: seq<T>, y: seq<T>, z: seq<T>)
    ensures x + (y + z) == (x + y) + z
  {
  }

  lemma SplitAppend<T>(a: seq<T>, b: seq<T>, k: nat)
    requires k <= |a|
    ensures (a + b)[..k] == a[..k] && (a + b)[k..] == a[k..] + b
  {
  }

  lemma EndsLine(a: string, k: nat)
    requires a != [] && a[|a| - 1] == '\n' && k <= |a|
    ensures a[k..] == [] || a[k..][|a[k..]| - 1] == '\n'
  {
    if k < |a| {
      assert a[k..][|a[k..]| - 1] == a[|a| - 1];
    }
  }

  /** Text that ends a line can be read on its own: the lines of what follows are not merged into it. */
  lemma {:induction false} ReadLinesAppend(a: string, b: string)
    requires a == [] || a[|a| - 1] == '\n'
    ensures ReadLines(a + b) == ReadLines(a) + ReadLines(b)
    decreases |a|
  {
    if a == [] {
      assert a + b == b;
    } else {
      var k := LineLen(a);
      var ab := a + b;
      var x, y, z := [a[..k]], ReadLines(a[k..]), ReadLines(b);
      assert ReadLines(ab) == x + ReadLines(a[k..] + b) by {
        LineLenPrefix(a, b);
        ReadLinesUnfold(ab);
        SplitAppend(a, b, k);
      }
      assert ReadLines(a[k..] + b) == y + z by {
        EndsLine(a, k);
        ReadLinesAppend(a[k..], b);
      }
      assert ReadLines(a) == x + y by {
        ReadLinesUnfold(a);
      }
      AppendAssoc(x, y, z);
    }
  }

  lemma ReadOneLine(p: string)
    requires '\n' !in p
    ensures ReadLines(p + "\n") == [p + "\n"]
  {
    var t := p + "\n";
    var k := LineLen(t);
    forall i | 0 <= i < |p| ensures t[i] != '\n' {
      assert t[i] == p[i] && p[i] in p;
    }
    assert k == |t|;
    assert t[..k] == t;
    assert t[k..] == [];
  }

  lemma ReadUnterminated(v: string)
    requires v != [] && '\n' !in v
    ensures ReadLines(v) == [v]
  {
    var k := LineLen(v);
    forall i | 0 <= i < |v| ensures v[i] != '\n' {
      assert v[i] in v;
    }
    assert k == |v|;
    assert v[..k] == v;
    assert v[k..] == [];
  }

  /** One past the last `c` in `t` (`t.rfind(c) + 1`), so `t[..j]` ends at that `c`. */
  function AfterLast(t: string, c: char): (j: nat)
    ensures j <= |t|
    ensures j == 0 || t[j - 1] == c
    ensures forall i :: j <= i < |t| ==> t[i] != c
  {
    if t == [] then 0 else if t[|t| - 1] == c then |t| else AfterLast(t[..|t| - 1], c)
  }

  /** `s.rstrip(c)`. */
  function StripRightChar(s: string, c: char): (r: string)
    ensures |r| <= |s| && r == s[..|r|]
    ensures forall i :: |r| <= i < |s| ==> s[i] == c
    ensures r != [] ==> r[|r| - 1] != c
  {
    if s != [] && s[|s| - 1] == c then StripRightChar(s[..|s| - 1], c) else s
  }

  /** `[line.strip() for line in lines]`. */
  function StripAll(lines: seq<string>): (r: seq<string>)
    ensures |r| == |lines|
    ensures forall i :: 0 <= i < |lines| ==> r[i] == Strip(lines[i])
  {
    seq(|lines|, i requires 0 <= i < |lines| => Strip(lines[i]))
  }

  lemma StripAllAppend(a: seq<string>, b: seq<string>)
    ensures StripAll(a + b) == StripAll(a) + StripAll(b)
  {
  }

  lemma StripAllAppendOne(a: seq<string>, v: string)
    ensures StripAll(a + [v]) == StripAll(a) + [Strip(v)]
  {
    StripAllAppend(a, [v]);
    var one := StripAll([v]);
    assert |one| == 1 && one[0] == Strip([v][0]);
    assert one == [Strip(v)];
  }

  /** The stripped lines of `u` followed by one more, ended, line `v`. */
  lemma StrippedEndedLine(u: string, v: string)
    requires u == [] || u[|u| - 1] == '\n'
    requires '\n' !in v
    ensures StripAll(ReadLines(u + v + "\n")) == StripAll(ReadLines(u)) + [Strip(v)]
  {
    assert u + v + "\n" == u + (v + "\n");
    ReadLinesAppend(u, v + "\n");
    ReadOneLine(v);
    StripAllAppendOne(ReadLines(u), v + "\n");
    StripNewline(v);
  }

  /** The stripped lines of `u` followed by one more, unended, line `v`. */
  lemma StrippedUnendedLine(u: string, v: string)
    requires u == [] || u[|u| - 1] == '\n'
    requires v != [] && '\n' !in v
    ensures StripAll(ReadLines(u + v)) == StripAll(ReadLines(u)) + [Strip(v)]
  {
    ReadLinesAppend(u, v);
    ReadUnterminated(v);
    StripAllAppendOne(ReadLines(u), v);
  }

  /** Ending the last line of a file does not change the set of stripped lines it holds. */
  lemma StrippedLinesAfterNewline(t: string)
    ensures forall x :: x in StripAll(ReadLines(t)) ==> x in StripAll(ReadLines(t + "\n"))
  {
    var j := AfterLast(t, '\n');
    var u, v := t[..j], t[j..];
    assert t == u + v;
    assert t + "\n" == u + v + "\n";
    assert '\n' !in v by {
      forall i | 0 <= i < |v| ensures v[i] != '\n' {
        assert v[i] == t[j + i];
      }
    }
    var front := StripAll(ReadLines(u));
    var ended := StripAll(ReadLines(u + v + "\n"));
    StrippedEndedLine(u, v);
    assert ended == front + [Strip(v)];
    if v != [] {
      StrippedUnendedLine(u, v);
      assert StripAll(ReadLines(t)) == ended;
    } else {
      assert t == u;
    }
  }

  // ---- case mapping (ASCII letters only) ----

  function LowerChar(c: char): char {
    if 'A' <= c <= 'Z' then (c as int + 32) as char else c
  }

  function UpperChar(c: char): char {
    if 'a' <= c <= 'z' then (c as int - 32) as char else c
  }

  /** `s.lower()`. */
  function Lower(s: string): (r: string)
    ensures |r| == |s|
    ensures forall i :: 0 <= i < |s| ==> r[i] == LowerChar(s[i])
  {
    seq(|s|, i requires 0 <= i < |s| => LowerChar(s[i]))
  }

  /** `s.upper()`. */
  function Upper(s: string): (r: string)
    ensures |r| == |s|
    ensures forall i :: 0 <= i < |s| ==> r[i] == UpperChar(s[i])
  {
    seq(|s|, i requires 0 <= i < |s| => UpperChar(s[i]))
  }

  // ---- split and join on one character ----

  /** `s.split(c)`: always at least one part, none of which holds `c`. */
  function Split(s: string, c: char): (parts: seq<string>)
    ensures |parts| >= 1
    ensures forall i :: 0 <= i < |parts| ==> c !in parts[i]
    decreases |s|
  {
    if s == [] then [[]]
    else if s[0] == c then [[]] + Split(s[1..], c)
    else
      var rest := Split(s[1..], c);
      [[s[0]] + rest[0]] + rest[1..]
  }

  /** `c.join(parts)`. */
  function Join(parts: seq<string>, c: char): string {
    if parts == [] then []
    else if |parts| == 1 then parts[0]
    else parts[0] + [c] + Join(parts[1..], c)
  }

  /** Splitting what was joined gives the parts back, when no part holds the separator. */
  lemma {:induction false} SplitJoin(parts: seq<string>, c: char)
    requires parts != []
    requires forall i :: 0 <= i < |parts| ==> c !in parts[i]
    ensures Split(Join(parts, c), c) == parts
    decreases |parts|, |parts[0]|
  {
    var p := parts[0];
    if |parts| == 1 {
      SplitNoSeparator(p, c);
    } else if p == [] {
      assert Join(parts, c) == [c] + Join(parts[1..], c);
      assert (Join(parts, c))[1..] == Join(parts[1..], c);
      SplitJoin(parts[1..], c);
      assert [[]] + parts[1..] == parts;
    } else {
      var tail := [p[1..]] + parts[1..];
      assert tail[1..] == parts[1..];
      assert Join(parts, c) == [p[0]] + Join(tail, c);
      assert Join(parts, c)[1..] == Join(tail, c);
      assert p[0] in p;
      assert [p[0]] + p[1..] == p;
      SplitJoin(tail, c);
      assert [[p[0]] + tail[0]] + tail[1..] == parts;
    }
  }

  lemma {:induction false} SplitNoSeparator(s: string, c: char)
    requires c !in s
    ensures Split(s, c) == [s]
    decreases |s|
  {
    if s != [] {
      assert s[0] in s;
      assert forall x :: x in s[1..] ==> x in s;
      SplitNoSeparator(s[1..], c);
      assert [s[0]] + s[1..] == s;
    }
  }

  /** Python's `str(n)` for an integer. */
  function Decimal(n: int): (r: string)
    ensures r != []
    decreases if n < 0 then -n + 1 else n
  {
    if n < 0 then "-" + Decimal(-n)
    else if n < 10 then [('0' as int + n) as char]
    else Decimal(n / 10) + [('0' as int + n % 10) as char]
  }
}
