/**
 * The rules of the GitUp security advisor (gitup_security_advisor.py) that
 * decide, for each file a scanner flags, whether `.gitignore` or
 * `.gitupignore` already covers it, what to recommend, which pattern to
 * propose, how the user's answers become decisions, what the decisions
 * append to the two ignore files and how a session lands in the audit map
 * of `.gitupignore.meta`. The advisor object that drives these rules over
 * its files is in module SecurityAdvisor.
 */
module IgnorePolicy {
  import opened Wrappers
  import opened Text
  import opened Glob
  import opened Tally

  // ---- issues and recommendations ----

  /** One flagged file as the scanner reports it. */
  datatype Issue = Issue(filePath: string, severity: string, category: string, description: string)

  /** `'already_handled'`, `'add_to_gitupignore'`, `'add_to_gitignore'`. */
  datatype Action = AlreadyHandled | AddToGitupignore | AddToGitignore

  /** One entry of `analysis['recommendations']`. */
  datatype Recommendation = Recommendation(
    issue: Issue,
    gitignoreCovered: bool,
    gitupignoreCovered: bool,
    action: Action,
    pattern: string)

  // ---- reading an ignore file ----

  /** A line that becomes a pattern: not blank once stripped, and not starting with `#` as read. */
  predicate IsActiveLine(line: string) {
    Strip(line) != [] && !StartsWith(line, "#")
  }

  /** `[line.strip() for line in lines if line.strip() and not line.startswith('#')]`. */
  function ActivePatterns(lines: seq<string>): (ps: seq<string>)
    ensures |ps| <= |lines|
    ensures forall k :: 0 <= k < |ps| ==> ps[k] != [] && IsStripped(ps[k])
  {
    if lines == [] then []
    else
      var rest := ActivePatterns(lines[1..]);
      if IsActiveLine(lines[0]) then
        StripIsStripped(lines[0]);
        [Strip(lines[0])] + rest
      else rest
  }

  /** The active patterns are exactly the stripped forms of the active lines. */
  lemma {:induction false} ActivePatternsExactly(lines: seq<string>)
    ensures forall p :: p in ActivePatterns(lines) <==> exists i :: 0 <= i < |lines| && IsActiveLine(lines[i]) && Strip(lines[i]) == p
  {
    if lines != [] {
      var rest := ActivePatterns(lines[1..]);
      ActivePatternsExactly(lines[1..]);
      forall p | p in rest ensures exists i :: 1 <= i < |lines| && IsActiveLine(lines[i]) && Strip(lines[i]) == p {
        var j :| 0 <= j < |lines[1..]| && IsActiveLine(lines[1..][j]) && Strip(lines[1..][j]) == p;
        assert lines[j + 1] == lines[1..][j];
      }
      forall i | 1 <= i < |lines| && IsActiveLine(lines[i]) ensures Strip(lines[i]) in rest {
        assert lines[1..][i - 1] == lines[i];
      }
    }
  }

  /** The active patterns of an ignore file; a missing file has none. */
  function PatternsOf(file: Option<string>): seq<string> {
    match file
    case None => []
    case Some(text) => ActivePatterns(ReadLines(text))
  }

  /**
   * Only a `#` in the very first column makes a comment: a line indented with
   * white space is a pattern, even when its stripped text starts with `#`.
   */
  lemma IndentedLineIsPattern(lines: seq<string>, i: nat)
    requires i < |lines| && lines[i] != [] && IsSpace(lines[i][0]) && Strip(lines[i]) != []
    ensures Strip(lines[i]) in ActivePatterns(lines)
  {
    ActivePatternsExactly(lines);
    assert IsActiveLine(lines[i]);
  }

  // ---- coverage ----

  /** The three ways one pattern covers a path. */
  predicate CoveredBy(path: string, pattern: string) {
    Fnmatch(path, pattern)
    || Fnmatch(path, "*/" + pattern)
    || (EndsWith(pattern, "/") && StartsWith(path, pattern))
  }

  /** `_is_covered_by_patterns`: some pattern covers the path; no pattern, no coverage. */
  function IsCovered(path: string, patterns: seq<string>): (r: bool)
    ensures r <==> exists i :: 0 <= i < |patterns| && CoveredBy(path, patterns[i])
  {
    if patterns == [] then false
    else if CoveredBy(path, patterns[0]) then true
    else
      var r := IsCovered(path, patterns[1..]);
      assert r <==> exists i :: 1 <= i < |patterns| && CoveredBy(path, patterns[i]) by {
        if r {
          var j :| 0 <= j < |patterns[1..]| && CoveredBy(path, patterns[1..][j]);
          assert patterns[j + 1] == patterns[1..][j];
        }
        forall i | 1 <= i < |patterns| && CoveredBy(path, patterns[i]) ensures r {
          assert patterns[1..][i - 1] == patterns[i];
        }
      }
      r
  }

  /** A path listed verbatim is covered, provided it holds no `[` (which would start a class). */
  lemma ListedPathCovered(path: string, patterns: seq<string>)
    requires path in patterns && '[' !in path
    ensures IsCovered(path, patterns)
  {
    SelfMatch(path);
    var i :| 0 <= i < |patterns| && patterns[i] == path;
    assert CoveredBy(path, patterns[i]);
  }

  /** A path with `[` listed verbatim need not be covered: `[a]` is a class matching only `a`. */
  lemma BracketPathNotSelfCovered()
    ensures !IsCovered("[a]", ["[a]"])
  {
    var toks := Compile("[a]");
    assert toks == [CharClass(false, [Single('a')])] by {
      assert CloseAt("[a]", 1) == 2 by {
        assert CloseAt("[a]", 2) == 2;
      }
      assert ClassItems("a") == [Single('a')];
      assert "[a]"[1..2] == "a";
      assert "[a]"[3..] == [];
    }
    assert !MatchTokens("a]", []);
    NoSlashNoSubdirectoryMatch("[a]", "[a]");
  }

  // Whatever star-slash-pattern matches holds a slash.
  lemma {:induction false} StarSlashNeedsSlash(s: string, toks: seq<Token>)
    requires MatchTokens(s, [Star, Lit('/')] + toks)
    ensures '/' in s
    decreases |s|
  {
    var all := [Star, Lit('/')] + toks;
    assert all[1..] == [Lit('/')] + toks;
    if s != [] && s[0] != '/' {
      assert !MatchTokens(s, all[1..]);
      StarSlashNeedsSlash(s[1..], toks);
      assert s[1..][0] in s[1..];
      assert forall x :: x in s[1..] ==> x in s;
    } else if s != [] {
      assert s[0] in s;
    }
  }

  lemma NoSlashNoSubdirectoryMatch(path: string, pattern: string)
    requires '/' !in path
    ensures !Fnmatch(path, "*/" + pattern)
  {
    CompileUnderAnyDirectory(pattern);
    if Fnmatch(path, "*/" + pattern) {
      StarSlashNeedsSlash(path, Compile(pattern));
    }
  }

  /** A pattern that matches a file name also covers that name in any directory. */
  lemma CoveredInAnyDirectory(name: string, pattern: string, dir: string)
    requires Fnmatch(name, pattern)
    ensures IsCovered(dir + "/" + name, [pattern])
  {
    MatchUnderDirectory(name, pattern, dir);
    assert CoveredBy(dir + "/" + name, [pattern][0]);
  }

  // ---- recommendation table ----

  /**
   * `_get_recommended_action`: never propose a file that already covers the
   * path; with neither covering, only severity exactly `CRITICAL` goes to
   * `.gitignore` (so `FATAL` goes to `.gitupignore`).
   */
  function RecommendedAction(severity: string, inGitignore: bool, inGitupignore: bool): (a: Action)
    ensures a == AlreadyHandled <==> inGitignore && inGitupignore
    ensures a == AddToGitignore ==> !inGitignore
    ensures a == AddToGitupignore ==> !inGitupignore
    ensures !inGitignore && !inGitupignore ==> (a == AddToGitignore <==> severity == "CRITICAL")
  {
    if inGitignore && inGitupignore then AlreadyHandled
    else if inGitignore then AddToGitupignore
    else if inGitupignore then AddToGitignore
    else if severity == "CRITICAL" then AddToGitignore
    else AddToGitupignore
  }

  // ---- proposed pattern ----

  predicate AllSlashes(s: string) {
    forall i :: 0 <= i < |s| ==> s[i] == '/'
  }

  /** The part of `path` up to and including its last '/'. */
  function DirectoryPart(path: string): string {
    path[..AfterLast(path, '/')]
  }

  /** `os.path.dirname` on POSIX: the directory part without its trailing slashes, unless it is all slashes. */
  function Dirname(path: string): (d: string)
    ensures !AllSlashes(DirectoryPart(path)) ==> d != [] && StartsWith(path, d + "/")
  {
    var head := DirectoryPart(path);
    if head != [] && !AllSlashes(head) then
      var d := StripRightChar(head, '/');
      assert d != [] by {
        var i :| 0 <= i < |head| && head[i] != '/';
        assert i < |d|;
      }
      assert |d| < |head|;
      assert path[..|d| + 1] == d + "/";
      d
    else head
  }

  /** A `.db` file, or a `.json` file named as config or secret: always proposed by its exact path. */
  predicate ExactPathFile(path: string) {
    EndsWith(path, ".db") || (EndsWith(path, ".json") && (Contains(path, "config") || Contains(path, "secret")))
  }

  predicate MentionsCache(path: string) {
    Contains(path, "Cache") || Contains(path, "cache")
  }

  /**
   * `_generate_pattern_for_file`: the path itself, except a cache file's
   * directory. The exact-path rules are checked first, so they win over a
   * path that also mentions a cache.
   */
  function ProposedPattern(path: string): (p: string)
    ensures ExactPathFile(path) ==> p == path
    ensures !ExactPathFile(path) && MentionsCache(path) ==> p == Dirname(path) + "/"
    ensures !MentionsCache(path) ==> p == path
  {
    if EndsWith(path, ".db") then path
    else if EndsWith(path, ".json") && (Contains(path, "config") || Contains(path, "secret")) then path
    else if Contains(path, "Cache") || Contains(path, "cache") then Dirname(path) + "/"
    else path
  }

  /**
   * The proposed pattern covers the file it was proposed for, when the path
   * holds no `[` and, should it be a cache file, lies in a named directory.
   */
  lemma ProposedPatternCovers(path: string)
    requires '[' !in path
    requires !AllSlashes(DirectoryPart(path))
    ensures IsCovered(path, [ProposedPattern(path)])
  {
    var p := ProposedPattern(path);
    if p == path {
      SelfMatch(path);
      assert CoveredBy(path, [p][0]);
    } else {
      assert EndsWith(p, "/");
      assert CoveredBy(path, [p][0]);
    }
  }

  /** A cache file is proposed by its directory: `Data/Cache/tmp.bin` gives `Data/Cache/`. */
  lemma CacheFileProposesDirectory()
    ensures ProposedPattern("Data/Cache/tmp.bin") == "Data/Cache/"
  {
    var path := "Data/Cache/tmp.bin";
    assert path[10] == '/';
    assert AfterLast(path, '/') == 11;
    assert DirectoryPart(path) == "Data/Cache/";
    assert !AllSlashes(DirectoryPart(path)) by {
      assert DirectoryPart(path)[0] != '/';
    }
    assert StripRightChar("Data/Cache/", '/') == "Data/Cache";
    assert Contains(path, "Cache") by {
      ContainsAt(path, "Cache", 5);
    }
  }

  /** A `.db` file is proposed by its exact path even inside a cache directory. */
  lemma DbInCacheKeptExact()
    ensures ProposedPattern("Cache/app.db") == "Cache/app.db"
  {
    assert EndsWith("Cache/app.db", ".db");
  }

  /** A cache file at the top level is proposed `/`, which does not cover it. */
  lemma TopLevelCacheNotCovered()
    ensures ProposedPattern("cache.bin") == "/"
    ensures !IsCovered("cache.bin", [ProposedPattern("cache.bin")])
  {
    var path := "cache.bin";
    assert !EndsWith(path, ".db");
    assert !EndsWith(path, ".json");
    ContainsAt(path, "cache", 0);
    assert AfterLast(path, '/') == 0;
    assert DirectoryPart(path) == [];
    assert ProposedPattern(path) == "/";
    LiteralMatch(path, "/");
    NoSlashNoSubdirectoryMatch(path, "/");
    assert !StartsWith(path, "/");
    assert !CoveredBy(path, ["/"][0]);
  }

  /** The recommendation for one issue against the two pattern lists. */
  function Recommend(issue: Issue, gitignorePatterns: seq<string>, gitupignorePatterns: seq<string>): Recommendation {
    var inGi := IsCovered(issue.filePath, gitignorePatterns);
    var inGu := IsCovered(issue.filePath, gitupignorePatterns);
    Recommendation(issue, inGi, inGu, RecommendedAction(issue.severity, inGi, inGu), ProposedPattern(issue.filePath))
  }

  /** `analysis['recommendations']`: one recommendation per issue, in issue order. */
  function Analysis(issues: seq<Issue>, gitignorePatterns: seq<string>, gitupignorePatterns: seq<string>): (recs: seq<Recommendation>)
    ensures |recs| == |issues|
    ensures forall k :: 0 <= k < |issues| ==> recs[k] == Recommend(issues[k], gitignorePatterns, gitupignorePatterns)
  {
    seq(|issues|, k requires 0 <= k < |issues| => Recommend(issues[k], gitignorePatterns, gitupignorePatterns))
  }

  /** The recommended action of each recommendation, in order. */
  function ActionsOf(recs: seq<Recommendation>): (acts: seq<Action>)
    ensures |acts| == |recs|
    ensures forall k :: 0 <= k < |recs| ==> acts[k] == recs[k].action
  {
    seq(|recs|, k requires 0 <= k < |recs| => recs[k].action)
  }

  /** The diff report's action counts add up to the number of recommendations, each counting its own action. */
  lemma ActionCountsAddUp(recs: seq<Recommendation>)
    ensures Total(TallyOf(ActionsOf(recs))) == |recs|
    ensures forall a :: CountOf(TallyOf(ActionsOf(recs)), a) == Occurrences(ActionsOf(recs), a)
    ensures forall a :: a in Keys(TallyOf(ActionsOf(recs))) <==> exists k :: 0 <= k < |recs| && recs[k].action == a
  {
    var acts := ActionsOf(recs);
    TallyTotal(acts);
    forall a ensures CountOf(TallyOf(acts), a) == Occurrences(acts, a) {
      TallyCount(acts, a);
    }
    TallyKeys(acts);
    forall a | a in Keys(TallyOf(acts)) ensures exists k :: 0 <= k < |recs| && recs[k].action == a {
      var k :| 0 <= k < |acts| && acts[k] == a;
      assert recs[k].action == a;
    }
    forall a, k | 0 <= k < |recs| && recs[k].action == a ensures a in Keys(TallyOf(acts)) {
      assert acts[k] == a;
    }
  }

  // ---- the decision session ----

  /** The four answers `A`, `G`, `I`, `R`. */
  datatype Choice = Accept | GitUp | Ignore | Resolve

  function Letter(c: Choice): char {
    match c
    case Accept => 'A'
    case GitUp => 'G'
    case Ignore => 'I'
    case Resolve => 'R'
  }

  /** `user_choice_full`. */
  function FullName(c: Choice): string {
    match c
    case Accept => "accept_to_gitignore"
    case GitUp => "add_to_gitupignore"
    case Ignore => "ignore_keep_flagging"
    case Resolve => "resolve_issue"
  }

  /** `input(...).strip().upper()` checked against `['A', 'G', 'I', 'R']`. */
  function ParseChoice(input: string): (r: Option<Choice>)
    ensures r.Some? ==> Upper(Strip(input)) == [Letter(r.value)]
    ensures r.None? ==> forall c :: Upper(Strip(input)) != [Letter(c)]
  {
    var answer := Upper(Strip(input));
    if answer == "A" then Some(Accept)
    else if answer == "G" then Some(GitUp)
    else if answer == "I" then Some(Ignore)
    else if answer == "R" then Some(Resolve)
    else None
  }

  /** Lower case and surrounding white space are accepted. */
  lemma LowerCaseAccepted()
    ensures ParseChoice(" g\n") == Some(GitUp)
  {
    assert StripLeft(" g\n") == "g\n" by {
      assert StripLeft(" g\n"[1..]) == " g\n"[1..];
    }
    assert StripRight("g\n") == "g" by {
      assert "g\n"[..1] == "g";
    }
    assert Strip(" g\n") == "g";
    assert Upper("g") == "G";
  }

  /** The user is asked for a reason exactly when the answer departs from the recommendation. */
  predicate NeedsReason(c: Choice, recommended: Action) {
    (c == Accept && recommended != AddToGitignore) || (c == GitUp && recommended != AddToGitupignore)
  }

  /** One entry of `decisions['user_decisions']`. */
  datatype Decision = Decision(
    issueId: nat,
    filePath: string,
    severity: string,
    choice: Choice,
    recommended: Action,
    pattern: string,
    timestamp: string,
    reason: Option<string>)

  /** The dict `prompt_user_decisions` returns: its timestamp and the decisions. */
  datatype Batch = Batch(timestamp: string, decisions: seq<Decision>)

  /** `input()` ran out of lines (`EOFError`). */
  datatype SessionError = EndOfInput

  function MakeDecision(rec: Recommendation, id: nat, c: Choice, stamp: string, reason: Option<string>): Decision {
    Decision(id, rec.issue.filePath, rec.issue.severity, c, rec.action, rec.pattern, stamp, reason)
  }

  /** `ds` followed by whatever `r` holds, or `r`'s error. */
  function Then(ds: seq<Decision>, r: Result<seq<Decision>, SessionError>): Result<seq<Decision>, SessionError> {
    match r
    case Ok(rest) => Ok(ds + rest)
    case Err(e) => Err(e)
  }

  /**
   * The decisions for recommendations `i..` read from `inputs`: an unknown
   * answer is dropped and asked again; a departure from the recommendation
   * takes the next line, stripped, as its reason. `clock(id)` is the time
   * read when decision `id` is recorded.
   */
  function Decide(recs: seq<Recommendation>, i: nat, inputs: seq<string>, clock: nat -> string): Result<seq<Decision>, SessionError>
    requires i <= |recs|
    decreases |inputs|
  {
    if i == |recs| then Ok([])
    else if inputs == [] then Err(EndOfInput)
    else
      match ParseChoice(inputs[0])
      case None => Decide(recs, i, inputs[1..], clock)
      case Some(c) =>
        if NeedsReason(c, recs[i].action) then
          if |inputs| < 2 then Err(EndOfInput)
          else Then([MakeDecision(recs[i], i + 1, c, clock(i + 1), Some(Strip(inputs[1])))], Decide(recs, i + 1, inputs[2..], clock))
        else Then([MakeDecision(recs[i], i + 1, c, clock(i + 1), None)], Decide(recs, i + 1, inputs[1..], clock))
  }

  /** The whole session: the decisions for every recommendation, stamped with the batch time. */
  function Session(recs: seq<Recommendation>, inputs: seq<string>, batchTime: string, clock: nat -> string): Result<Batch, SessionError> {
    match Decide(recs, 0, inputs, clock)
    case Ok(ds) => Ok(Batch(batchTime, ds))
    case Err(e) => Err(e)
  }

  /** An unknown answer at `pos` is passed over. */
  lemma DecideSkips(recs: seq<Recommendation>, i: nat, inputs: seq<string>, pos: nat, clock: nat -> string)
    requires i < |recs| && pos < |inputs| && ParseChoice(inputs[pos]).None?
    ensures Decide(recs, i, inputs[pos..], clock) == Decide(recs, i, inputs[pos + 1..], clock)
  {
    assert inputs[pos..][1..] == inputs[pos + 1..];
  }

  /** A known answer at `pos` records the decision and moves past it and past its reason. */
  lemma DecideStep(recs: seq<Recommendation>, i: nat, inputs: seq<string>, pos: nat, clock: nat -> string, c: Choice)
    requires i < |recs| && pos < |inputs| && ParseChoice(inputs[pos]) == Some(c)
    requires NeedsReason(c, recs[i].action) ==> pos + 1 < |inputs|
    ensures var need := NeedsReason(c, recs[i].action);
      Decide(recs, i, inputs[pos..], clock)
      == Then([MakeDecision(recs[i], i + 1, c, clock(i + 1), if need then Some(Strip(inputs[pos + 1])) else None)],
              Decide(recs, i + 1, inputs[pos + (if need then 2 else 1)..], clock))
  {
    var rest := inputs[pos..];
    assert rest[1..] == inputs[pos + 1..];
    if NeedsReason(c, recs[i].action) {
      assert rest[1] == inputs[pos + 1];
      assert rest[2..] == inputs[pos + 2..];
    }
  }

  /** Input that runs out before an answer, or before the reason an answer needs, ends the session with an error. */
  lemma DecideRunsOut(recs: seq<Recommendation>, i: nat, inputs: seq<string>, pos: nat, clock: nat -> string)
    requires i < |recs| && pos <= |inputs|
    requires pos == |inputs| || (ParseChoice(inputs[pos]).Some? && NeedsReason(ParseChoice(inputs[pos]).value, recs[i].action) && pos + 1 == |inputs|)
    ensures Decide(recs, i, inputs[pos..], clock) == Err(EndOfInput)
  {
    if pos < |inputs| {
      assert |inputs[pos..]| == 1 && inputs[pos..][0] == inputs[pos];
    }
  }

  lemma ThenAppend(ds: seq<Decision>, d: Decision, r: Result<seq<Decision>, SessionError>)
    ensures Then(ds, Then([d], r)) == Then(ds + [d], r)
  {
    if r.Ok? {
      assert ds + ([d] + r.value) == (ds + [d]) + r.value;
    }
  }

  /** Decision `d` is the one recorded for `rec` under 1-based id `id`. */
  predicate RecordsIssue(d: Decision, rec: Recommendation, id: nat, clock: nat -> string) {
    d.issueId == id
    && d.filePath == rec.issue.filePath
    && d.severity == rec.issue.severity
    && d.recommended == rec.action
    && d.pattern == rec.pattern
    && d.timestamp == clock(id)
    && (d.reason.Some? <==> NeedsReason(d.choice, rec.action))
  }

  /** `ds` holds, in order, the decisions recorded for `recs[i..]`, with ids counted from `i + 1`. */
  predicate RecordsFrom(ds: seq<Decision>, recs: seq<Recommendation>, i: nat, clock: nat -> string)
    requires i <= |recs|
  {
    |ds| == |recs| - i
    && forall k :: 0 <= k < |recs| - i ==> RecordsIssue(ds[k], recs[i + k], i + k + 1, clock)
  }

  /** The record for `recs[i]` followed by the records for `recs[i + 1..]` are the records for `recs[i..]`. */
  lemma RecordsCons(ds: seq<Decision>, d: Decision, tail: seq<Decision>, recs: seq<Recommendation>, i: nat, clock: nat -> string)
    requires ds == [d] + tail && i < |recs|
    requires RecordsIssue(d, recs[i], i + 1, clock)
    requires RecordsFrom(tail, recs, i + 1, clock)
    ensures RecordsFrom(ds, recs, i, clock)
  {
    forall k | 0 <= k < |recs| - i ensures RecordsIssue(ds[k], recs[i + k], i + k + 1, clock) {
      if k > 0 {
        assert ds[k] == tail[k - 1];
        assert i + 1 + (k - 1) == i + k;
      }
    }
  }

  /**
   * A finished session records exactly one decision per recommendation, in
   * order, with 1-based ids, carrying a reason exactly when it departs from
   * the recommendation.
   */
  lemma {:induction false} DecideShape(recs: seq<Recommendation>, i: nat, inputs: seq<string>, clock: nat -> string)
    requires i <= |recs|
    requires Decide(recs, i, inputs, clock).Ok?
    ensures RecordsFrom(Decide(recs, i, inputs, clock).value, recs, i, clock)
    decreases |inputs|
  {
    if i < |recs| {
      match ParseChoice(inputs[0])
      case None =>
        DecideShape(recs, i, inputs[1..], clock);
      case Some(c) =>
        var need := NeedsReason(c, recs[i].action);
        assert need ==> |inputs| >= 2;
        var rest := if need then inputs[2..] else inputs[1..];
        var d := MakeDecision(recs[i], i + 1, c, clock(i + 1), if need then Some(Strip(inputs[1])) else None);
        var r := Decide(recs, i + 1, rest, clock);
        assert Decide(recs, i, inputs, clock) == Then([d], r) by {
          assert inputs[0..] == inputs;
          DecideStep(recs, i, inputs, 0, clock, c);
        }
        DecideShape(recs, i + 1, rest, clock);
        var ds := Decide(recs, i, inputs, clock).value;
        assert ds == [d] + r.value;
        RecordsCons(ds, d, r.value, recs, i, clock);
    }
  }

  /** Answers that are not A, G, I or R record nothing. */
  lemma {:induction false} UnknownAnswersIgnored(recs: seq<Recommendation>, i: nat, junk: seq<string>, inputs: seq<string>, clock: nat -> string)
    requires i < |recs|
    requires forall k :: 0 <= k < |junk| ==> ParseChoice(junk[k]).None?
    ensures Decide(recs, i, junk + inputs, clock) == Decide(recs, i, inputs, clock)
    decreases |junk|
  {
    if junk != [] {
      assert (junk + inputs)[0] == junk[0];
      assert (junk + inputs)[1..] == junk[1..] + inputs;
      UnknownAnswersIgnored(recs, i, junk[1..], inputs, clock);
    } else {
      assert junk + inputs == inputs;
    }
  }

  /** The first accepted answer decides the current issue, with the next line as its reason when one is asked. */
  lemma FirstAnswerDecides(recs: seq<Recommendation>, i: nat, inputs: seq<string>, clock: nat -> string, c: Choice)
    requires i < |recs| && inputs != [] && ParseChoice(inputs[0]) == Some(c)
    requires Decide(recs, i, inputs, clock).Ok?
    ensures Decide(recs, i, inputs, clock).value[0].choice == c
    ensures NeedsReason(c, recs[i].action) ==> Decide(recs, i, inputs, clock).value[0].reason == Some(Strip(inputs[1]))
  {
  }

  // ---- appending the decisions to an ignore file ----

  /** The provenance comment written above each added pattern. */
  function Provenance(note: string, d: Decision): string {
    "# " + note + ": " + d.filePath + " - " + d.severity + "\n"
  }

  /** The stripped lines of an ignore file as read; a missing file has none. */
  function ExistingLines(file: Option<string>): seq<string> {
    StripAll(ReadLines(file.GetOr("")))
  }

  /** The decisions of choice `target` whose pattern is not already a stripped line. */
  function Selected(ds: seq<Decision>, target: Choice, existing: seq<string>): seq<Decision> {
    if ds == [] then []
    else
      var d := ds[|ds| - 1];
      Selected(ds[..|ds| - 1], target, existing) + (if d.choice == target && d.pattern !in existing then [d] else [])
  }

  /** The lines one decision contributes to the additions. */
  function AdditionFor(d: Decision, target: Choice, note: string, existing: seq<string>): seq<string> {
    if d.choice == target && d.pattern !in existing then [Provenance(note, d), d.pattern + "\n"] else []
  }

  /** `gitignore_additions` / `gitupignore_additions` after the loop over `ds`. */
  function Additions(ds: seq<Decision>, target: Choice, note: string, existing: seq<string>): seq<string> {
    if ds == [] then []
    else Additions(ds[..|ds| - 1], target, note, existing) + AdditionFor(ds[|ds| - 1], target, note, existing)
  }

  predicate EndsWithNewline(s: string) {
    s != [] && s[|s| - 1] == '\n'
  }

  /**
   * The additions are the selected decisions in order, each as a provenance
   * comment followed by its pattern; a decision is selected exactly when it
   * has the target choice and its pattern is not already a line, so two
   * decisions of one batch with the same pattern are both added.
   */
  lemma {:induction false} AdditionsShape(ds: seq<Decision>, target: Choice, note: string, existing: seq<string>)
    ensures |Additions(ds, target, note, existing)| == 2 * |Selected(ds, target, existing)|
    ensures forall k :: 0 <= k < |Selected(ds, target, existing)| ==>
      Additions(ds, target, note, existing)[2 * k] == Provenance(note, Selected(ds, target, existing)[k])
      && Additions(ds, target, note, existing)[2 * k + 1] == Selected(ds, target, existing)[k].pattern + "\n"
    ensures forall d :: d in Selected(ds, target, existing) <==> d in ds && d.choice == target && d.pattern !in existing
    ensures forall l :: l in Additions(ds, target, note, existing) ==> EndsWithNewline(l)
  {
    AdditionsPairs(ds, target, note, existing);
    SelectedExactly(ds, target, existing);
    var adds := Additions(ds, target, note, existing);
    var sel := Selected(ds, target, existing);
    forall l | l in adds ensures EndsWithNewline(l) {
      var i :| 0 <= i < |adds| && adds[i] == l;
      var k := i / 2;
      if i == 2 * k {
        var pv := Provenance(note, sel[k]);
        assert pv[|pv| - 1] == '\n';
      } else {
        assert i == 2 * k + 1;
        var pl := sel[k].pattern + "\n";
        assert pl[|pl| - 1] == '\n';
      }
    }
  }

  /** The additions are two lines per selected decision: its provenance comment, then its pattern. */
  lemma {:induction false} AdditionsPairs(ds: seq<Decision>, target: Choice, note: string, existing: seq<string>)
    ensures |Additions(ds, target, note, existing)| == 2 * |Selected(ds, target, existing)|
    ensures forall k :: 0 <= k < |Selected(ds, target, existing)| ==>
      Additions(ds, target, note, existing)[2 * k] == Provenance(note, Selected(ds, target, existing)[k])
      && Additions(ds, target, note, existing)[2 * k + 1] == Selected(ds, target, existing)[k].pattern + "\n"
  {
    if ds != [] {
      var init := ds[..|ds| - 1];
      AdditionsPairs(init, target, note, existing);
      var adds := Additions(ds, target, note, existing);
      var sel := Selected(ds, target, existing);
      var adds0 := Additions(init, target, note, existing);
      var sel0 := Selected(init, target, existing);
      forall k | 0 <= k < |sel|
        ensures adds[2 * k] == Provenance(note, sel[k]) && adds[2 * k + 1] == sel[k].pattern + "\n"
      {
        if k < |sel0| {
          assert adds[2 * k] == adds0[2 * k] && adds[2 * k + 1] == adds0[2 * k + 1];
          assert sel[k] == sel0[k];
        }
      }
    }
  }

  /** A decision is selected exactly when it has the target choice and its pattern is not already a line. */
  lemma {:induction false} SelectedExactly(ds: seq<Decision>, target: Choice, existing: seq<string>)
    ensures forall d :: d in Selected(ds, target, existing) <==> d in ds && d.choice == target && d.pattern !in existing
  {
    if ds != [] {
      var init := ds[..|ds| - 1];
      SelectedExactly(init, target, existing);
      assert ds == init + [ds[|ds| - 1]];
    }
  }

  /** The two comment lines that open an appended block. */
  function BlockHeader(title: string, generated: string): (h: string)
    ensures EndsWithNewline(h)
  {
    "# " + title + "\n# Generated: " + generated + "\n"
  }

  /** The file with the block appended: a blank line, the header, the additions; no additions, no block. */
  function AppendBlock(file: Option<string>, title: string, generated: string, adds: seq<string>): Option<string> {
    if adds == [] then file
    else Some(file.GetOr("") + "\n" + BlockHeader(title, generated) + Concat(adds))
  }

  /** The ignore file after one batch of decisions of choice `target`. */
  function ApplyTo(file: Option<string>, ds: seq<Decision>, target: Choice, note: string, title: string, generated: string): Option<string> {
    AppendBlock(file, title, generated, Additions(ds, target, note, ExistingLines(file)))
  }

  /** The appended block leaves the old text, a blank line and the header in front. */
  lemma BlockExtends(before: string, header: string, body: string)
    ensures |before + "\n" + header + body| > |before|
    ensures StartsWith(before + "\n" + header + body, before + "\n" + header)
  {
    var head := before + "\n" + header;
    assert (head + body)[..|head|] == head;
  }

  /**
   * The file is written only when a decision is selected, and then the old
   * text stays a prefix, followed by a blank line and the block header.
   */
  lemma ApplyExtends(file: Option<string>, ds: seq<Decision>, target: Choice, note: string, title: string, generated: string)
    ensures ApplyTo(file, ds, target, note, title, generated) == file <==> Selected(ds, target, ExistingLines(file)) == []
    ensures Selected(ds, target, ExistingLines(file)) != [] ==>
      ApplyTo(file, ds, target, note, title, generated).Some?
      && StartsWith(ApplyTo(file, ds, target, note, title, generated).value, file.GetOr("") + "\n" + BlockHeader(title, generated))
  {
    var existing := ExistingLines(file);
    AdditionsShape(ds, target, note, existing);
    BlockExtends(file.GetOr(""), BlockHeader(title, generated), Concat(Additions(ds, target, note, existing)));
  }

  /** The concatenation of lines that each end in '\n' is empty or ends in '\n'. */
  lemma {:induction false} ConcatOfLines(ls: seq<string>)
    requires forall l :: l in ls ==> EndsWithNewline(l)
    ensures Concat(ls) == [] || EndsWithNewline(Concat(ls))
  {
    if ls != [] {
      assert ls[0] in ls;
      assert forall l :: l in ls[1..] ==> l in ls;
      ConcatOfLines(ls[1..]);
    }
  }

  /** A one-line element of a run of lines is read back as a line. */
  lemma {:induction false} LineOfConcat(ls: seq<string>, x: string)
    requires forall l :: l in ls ==> EndsWithNewline(l)
    requires x + "\n" in ls && '\n' !in x
    ensures x + "\n" in ReadLines(Concat(ls))
  {
    assert ls[0] in ls;
    assert forall l :: l in ls[1..] ==> l in ls;
    ReadLinesAppend(ls[0], Concat(ls[1..]));
    if ls[0] == x + "\n" {
      ReadOneLine(x);
    } else {
      LineOfConcat(ls[1..], x);
    }
  }

  /** A stripped one-line pattern written as a line is found again among the stripped lines. */
  lemma PatternReadBack(ls: seq<string>, x: string)
    requires forall l :: l in ls ==> EndsWithNewline(l)
    requires x + "\n" in ls && '\n' !in x && IsStripped(x)
    ensures x in StripAll(ReadLines(Concat(ls)))
  {
    LineOfConcat(ls, x);
    var rl := ReadLines(Concat(ls));
    var j :| 0 <= j < |rl| && rl[j] == x + "\n";
    StripNewline(x);
    StrippedFixed(x);
    assert StripAll(rl)[j] == x;
  }

  /** The stripped lines of a file after a block was appended: the old lines (now ended), the header, the body. */
  lemma ReadBackBlock(before: string, header: string, body: string)
    requires EndsWithNewline(header)
    ensures StripAll(ReadLines(before + "\n" + header + body))
      == StripAll(ReadLines(before + "\n")) + StripAll(ReadLines(header)) + StripAll(ReadLines(body))
  {
    var pre := before + "\n";
    var t := pre + header + body;
    var a, h, c := ReadLines(pre), ReadLines(header), ReadLines(body);
    assert ReadLines(header + body) == h + c by {
      ReadLinesAppend(header, body);
    }
    assert ReadLines(t) == a + (h + c) by {
      AppendAssoc(pre, header, body);
      ReadLinesAppend(pre, header + body);
    }
    var sa, sh, sc := StripAll(a), StripAll(h), StripAll(c);
    assert StripAll(h + c) == sh + sc by { StripAllAppend(h, c); }
    assert StripAll(a + (h + c)) == sa + (sh + sc) by { StripAllAppend(a, h + c); }
    AppendAssoc(sa, sh, sc);
  }

  /** With every pattern of choice `target` already a line, nothing is selected and nothing added. */
  lemma {:induction false} NothingSelected(ds: seq<Decision>, target: Choice, note: string, existing: seq<string>)
    requires forall d :: d in ds && d.choice == target ==> d.pattern in existing
    ensures Selected(ds, target, existing) == []
    ensures Additions(ds, target, note, existing) == []
  {
    if ds != [] {
      var init := ds[..|ds| - 1];
      assert forall d :: d in init ==> d in ds;
      assert ds[|ds| - 1] in ds;
      NothingSelected(init, target, note, existing);
    }
  }

  /**
   * Applying the same batch twice changes nothing the second time: the old
   * lines stay, and each pattern added the first time is then a line of its
   * own. This holds only for patterns without a line break and without
   * surrounding white space; the scanner's paths are not restricted so, and
   * `UnstrippedPatternReappended` shows what happens to the others.
   */
  lemma ApplyIdempotent(file: Option<string>, ds: seq<Decision>, target: Choice, note: string, title: string, g1: string, g2: string)
    requires forall d :: d in ds && d.choice == target ==> IsStripped(d.pattern) && '\n' !in d.pattern
    ensures ApplyTo(ApplyTo(file, ds, target, note, title, g1), ds, target, note, title, g2)
         == ApplyTo(file, ds, target, note, title, g1)
  {
    var existing := ExistingLines(file);
    var adds := Additions(ds, target, note, existing);
    var sel := Selected(ds, target, existing);
    var once := ApplyTo(file, ds, target, note, title, g1);
    AdditionsShape(ds, target, note, existing);
    if adds == [] {
      assert forall d :: d in ds && d.choice == target ==> d.pattern in existing;
      NothingSelected(ds, target, note, existing);
    } else {
      var before := file.GetOr("");
      var header := BlockHeader(title, g1);
      var existing2 := ExistingLines(once);
      var old2, body2 := StripAll(ReadLines(before + "\n")), StripAll(ReadLines(Concat(adds)));
      assert existing2 == old2 + StripAll(ReadLines(header)) + body2 by {
        assert once == Some(before + "\n" + header + Concat(adds));
        ReadBackBlock(before, header, Concat(adds));
      }
      forall d | d in ds && d.choice == target ensures d.pattern in existing2 {
        if d.pattern in existing {
          assert d.pattern in old2 by { StrippedLinesAfterNewline(before); }
        } else {
          assert d in sel;
          SelectedReadBack(ds, target, note, existing, d);
        }
      }
      NothingSelected(ds, target, note, existing2);
    }
  }

  /** The pattern of a selected decision is a line of the additions once they are read back. */
  lemma SelectedReadBack(ds: seq<Decision>, target: Choice, note: string, existing: seq<string>, d: Decision)
    requires d in Selected(ds, target, existing) && IsStripped(d.pattern) && '\n' !in d.pattern
    ensures d.pattern in StripAll(ReadLines(Concat(Additions(ds, target, note, existing))))
  {
    var adds := Additions(ds, target, note, existing);
    var sel := Selected(ds, target, existing);
    AdditionsShape(ds, target, note, existing);
    var k :| 0 <= k < |sel| && sel[k] == d;
    assert adds[2 * k + 1] == d.pattern + "\n";
    PatternReadBack(adds, d.pattern);
  }

  /** Every line read back from a file is stripped, so a pattern with surrounding white space is never found. */
  lemma ExistingLinesStripped(file: Option<string>, p: string)
    requires !IsStripped(p)
    ensures p !in ExistingLines(file)
  {
    var ls := ReadLines(file.GetOr(""));
    if p in ExistingLines(file) {
      var i :| 0 <= i < |ls| && ExistingLines(file)[i] == p;
      StripIsStripped(ls[i]);
    }
  }

  /**
   * A pattern with surrounding white space is appended again by every
   * application of the batch: the second application still changes the file,
   * and leaves the first one's text in front.
   */
  lemma UnstrippedPatternReappended(file: Option<string>, ds: seq<Decision>, target: Choice, note: string, title: string, g1: string, g2: string, d: Decision)
    requires d in ds && d.choice == target && !IsStripped(d.pattern)
    ensures var once := ApplyTo(file, ds, target, note, title, g1);
      var twice := ApplyTo(once, ds, target, note, title, g2);
      once.Some? && twice != once && StartsWith(twice.value, once.value + "\n" + BlockHeader(title, g2))
  {
    var once := ApplyTo(file, ds, target, note, title, g1);
    ExistingLinesStripped(file, d.pattern);
    AdditionsShape(ds, target, note, ExistingLines(file));
    ApplyExtends(file, ds, target, note, title, g1);
    ExistingLinesStripped(once, d.pattern);
    AdditionsShape(ds, target, note, ExistingLines(once));
    ApplyExtends(once, ds, target, note, title, g2);
  }


  /** Two decisions with the same pattern in one batch are both added. */
  lemma DuplicatesInBatchKept(d: Decision)
    requires d.choice == Accept
    ensures |Additions([d, d], Accept, "GitUp Security", ExistingLines(None))| == 4
  {
    assert ReadLines("") == [];
    assert StripAll([]) == [];
    assert [d, d][..1] == [d];
    assert [d][..0] == [];
    assert Additions([d], Accept, "GitUp Security", []) == AdditionFor(d, Accept, "GitUp Security", []);
  }

  // ---- the audit map ----

  /** The four counts of a session's `summary`. */
  datatype Summary = Summary(acceptToGitignore: nat, addToGitupignore: nat, ignoreKeepFlagging: nat, resolveIssue: nat)

  /** One session of `.gitupignore.meta`. */
  datatype AuditRecord = AuditRecord(
    timestamp: string,
    projectPath: string,
    totalIssues: nat,
    decisions: seq<Decision>,
    summary: Summary)

  /**
   * `.gitupignore.meta` as `json.load` sees it: missing, not JSON, a JSON
   * value that is not an object, or an object of sessions.
   */
  datatype MetaFile = NoMeta | Unparsable | NotAnObject | Meta(sessions: map<string, AuditRecord>)

  /** Item assignment on a JSON list, number, string or null (`TypeError`). */
  datatype MetaError = NotAMapping

  function ChoiceCount(ds: seq<Decision>, c: Choice): nat {
    if ds == [] then 0 else (if ds[0].choice == c then 1 else 0) + ChoiceCount(ds[1..], c)
  }

  lemma {:induction false} ChoiceCountsAddUp(ds: seq<Decision>)
    ensures ChoiceCount(ds, Accept) + ChoiceCount(ds, GitUp) + ChoiceCount(ds, Ignore) + ChoiceCount(ds, Resolve) == |ds|
  {
    if ds != [] {
      ChoiceCountsAddUp(ds[1..]);
    }
  }

  /** The record saved for a batch: the four summary counts add up to `total_issues`, the number of decisions. */
  function SessionRecord(batch: Batch, projectPath: string): (r: AuditRecord)
    ensures r.totalIssues == |batch.decisions| && r.decisions == batch.decisions
    ensures r.summary.acceptToGitignore + r.summary.addToGitupignore + r.summary.ignoreKeepFlagging + r.summary.resolveIssue == r.totalIssues
  {
    var ds := batch.decisions;
    ChoiceCountsAddUp(ds);
    AuditRecord(batch.timestamp, projectPath, |ds|,
      ds, Summary(ChoiceCount(ds, Accept), ChoiceCount(ds, GitUp), ChoiceCount(ds, Ignore), ChoiceCount(ds, Resolve)))
  }

  /**
   * The sessions after saving `rec` under `id`: a missing or unparsable file
   * starts from no sessions, other keys are kept, `id` is set (replacing a
   * session saved within the same second), and a non-object fails.
   */
  function SaveSession(meta: MetaFile, id: string, rec: AuditRecord): (r: Result<map<string, AuditRecord>, MetaError>)
    ensures r.Err? <==> meta.NotAnObject?
    ensures r.Ok? && meta.Meta? ==> r.value.Keys == meta.sessions.Keys + {id}
    ensures r.Ok? && !meta.Meta? ==> r.value.Keys == {id}
    ensures r.Ok? ==> r.value[id] == rec
    ensures r.Ok? && meta.Meta? ==> forall k :: k in meta.sessions && k != id ==> r.value[k] == meta.sessions[k]
  {
    match meta
    case NoMeta => Ok(map[id := rec])
    case Unparsable => Ok(map[id := rec])
    case NotAnObject => Err(NotAMapping)
    case Meta(sessions) => Ok(sessions[id := rec])
  }

  /** Two sessions saved under different ids are both kept. */
  lemma DistinctSessionsKept(meta: MetaFile, id1: string, r1: AuditRecord, id2: string, r2: AuditRecord)
    requires !meta.NotAnObject? && id1 != id2
    ensures SaveSession(meta, id1, r1).Ok?
    ensures var m := SaveSession(Meta(SaveSession(meta, id1, r1).value), id2, r2);
      m.Ok? && id1 in m.value && m.value[id1] == r1 && m.value[id2] == r2
  {
  }

  /** A second session saved within the same second replaces the first. */
  lemma SameSecondOverwrites(meta: MetaFile, id: string, r1: AuditRecord, r2: AuditRecord)
    requires !meta.NotAnObject?
    ensures SaveSession(Meta(SaveSession(meta, id, r1).value), id, r2) == SaveSession(meta, id, r2)
  {
    var before := if meta.Meta? then meta.sessions else map[];
    assert before[id := r1][id := r2] == before[id := r2];
  }

  /** A session is saved even for an empty batch, with all counts zero. */
  lemma EmptyBatchRecorded(meta: MetaFile, id: string, timestamp: string, projectPath: string)
    requires !meta.NotAnObject?
    ensures var rec := SessionRecord(Batch(timestamp, []), projectPath);
      SaveSession(meta, id, rec).Ok? && id in SaveSession(meta, id, rec).value
      && rec.totalIssues == 0 && rec.summary == Summary(0, 0, 0, 0)
  {
  }
}
