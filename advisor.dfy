/**
 * The `GitUpSecurityAdvisor` object of gitup_security_advisor.py: it holds
 * the project's two ignore files and its audit file as fields, loads the
 * scanner's issues, and runs the analysis, the diff-report counts, the
 * decision session and the application of a batch of decisions, each
 * proved against the rules of module IgnorePolicy.
 */
module SecurityAdvisor {
  import opened Wrappers
  import opened Text
  import opened Tally
  import opened IgnorePolicy

  /** What the scanner wrote to one stream: not a JSON object, or an object with or without `issues`. */
  datatype ScanJson = NotJson | Json(issues: Option<seq<Issue>>)

  /** How `gitguard scan` ended: it could not be run or timed out, or it exited with a code and two streams. */
  datatype ScanRun = Failed | Exited(returnCode: int, stdout: ScanJson, stderr: ScanJson)

  /**
   * The issues after `load_current_issues`: standard output is read on exit
   * code 0 and standard error otherwise; an object without `issues` gives
   * none, and a failed run or unreadable output keeps the issues held before.
   */
  function IssuesAfterScan(current: seq<Issue>, scan: ScanRun): seq<Issue> {
    match scan
    case Failed => current
    case Exited(code, out, err) =>
      match (if code == 0 then out else err)
      case NotJson => current
      case Json(issues) => issues.GetOr([])
  }

  /** The provenance labels and block titles of the two ignore files. */
  const GitignoreNote := "GitUp Security"
  const GitupignoreNote := "Security Exception"
  const GitignoreTitle := "GitUp Security Additions"
  const GitupignoreTitle := "GitUp Security Exceptions"

  /**
   * The loop of `apply_user_decisions` over the batch: each accepted pattern
   * not yet a line of `.gitignore`, and each GitUp pattern not yet a line of
   * `.gitupignore`, with its provenance comment.
   */
  method CollectAdditions(ds: seq<Decision>, existingGi: seq<string>, existingGu: seq<string>)
    returns (giAdds: seq<string>, guAdds: seq<string>)
    ensures giAdds == Additions(ds, Accept, GitignoreNote, existingGi)
    ensures guAdds == Additions(ds, GitUp, GitupignoreNote, existingGu)
  {
    giAdds, guAdds := [], [];
    for k := 0 to |ds|
      invariant giAdds == Additions(ds[..k], Accept, GitignoreNote, existingGi)
      invariant guAdds == Additions(ds[..k], GitUp, GitupignoreNote, existingGu)
    {
      var d := ds[k];
      assert ds[..k + 1][..k] == ds[..k] && ds[..k + 1][k] == d;
      if d.choice == Accept {
        if d.pattern !in existingGi {
          giAdds := giAdds + [Provenance(GitignoreNote, d), d.pattern + "\n"];
        }
      } else if d.choice == GitUp {
        if d.pattern !in existingGu {
          guAdds := guAdds + [Provenance(GitupignoreNote, d), d.pattern + "\n"];
        }
      }
    }
    assert ds[..|ds|] == ds;
  }

  /**
   * The re-prompt loop for recommendation `i`: answers from `pos` on that are
   * not A, G, I or R are passed over; the first that is decides, followed by
   * its reason when it departs from the recommendation. `None` when the
   * input runs out. On success, also the position after what was read.
   */
  method NextDecision(recs: seq<Recommendation>, i: nat, inputs: seq<string>, pos: nat, clock: nat -> string)
    returns (next: Option<(Decision, nat)>)
    requires i < |recs| && pos <= |inputs|
    ensures next.None? ==> Decide(recs, i, inputs[pos..], clock) == Err(EndOfInput)
    ensures next.Some? ==> pos < next.value.1 <= |inputs|
    ensures next.Some? ==>
      Decide(recs, i, inputs[pos..], clock) == Then([next.value.0], Decide(recs, i + 1, inputs[next.value.1..], clock))
  {
    var p := pos;
    while p < |inputs| && ParseChoice(inputs[p]).None?
      invariant pos <= p <= |inputs|
      invariant Decide(recs, i, inputs[pos..], clock) == Decide(recs, i, inputs[p..], clock)
    {
      DecideSkips(recs, i, inputs, p, clock);
      p := p + 1;
    }
    if p == |inputs| {
      DecideRunsOut(recs, i, inputs, p, clock);
      return None;
    }
    var c := ParseChoice(inputs[p]).value;
    var need := NeedsReason(c, recs[i].action);
    if need && p + 1 == |inputs| {
      DecideRunsOut(recs, i, inputs, p, clock);
      return None;
    }
    var reason: Option<string> := if need then Some(Strip(inputs[p + 1])) else None;
    var d := MakeDecision(recs[i], i + 1, c, clock(i + 1), reason);
    var after := if need then p + 2 else p + 1;
    assert pos < after <= |inputs|;
    assert Decide(recs, i, inputs[p..], clock) == Then([d], Decide(recs, i + 1, inputs[after..], clock)) by {
      DecideStep(recs, i, inputs, p, clock, c);
    }
    next := Some((d, after));
  }

  class Advisor {
    var projectPath: string
    /** `.gitignore`, `.gitupignore` and `.gitupignore.meta` of the project; `None` when the file does not exist. */
    var gitignore: Option<string>
    var gitupignore: Option<string>
    var meta: MetaFile
    var currentIssues: seq<Issue>

    constructor(projectPath: string, gitignore: Option<string>, gitupignore: Option<string>, meta: MetaFile, scan: ScanRun)
      ensures this.projectPath == projectPath && this.gitignore == gitignore && this.gitupignore == gitupignore
      ensures this.meta == meta
      ensures currentIssues == IssuesAfterScan([], scan)
    {
      this.projectPath := projectPath;
      this.gitignore := gitignore;
      this.gitupignore := gitupignore;
      this.meta := meta;
      currentIssues := [];
      new;
      LoadCurrentIssues(scan);
    }

    method LoadCurrentIssues(scan: ScanRun)
      modifies this`currentIssues
      ensures currentIssues == IssuesAfterScan(old(currentIssues), scan)
    {
      match scan
      case Failed =>
      case Exited(code, out, err) =>
        var json := if code == 0 then out else err;
        match json
        case NotJson =>
        case Json(issues) =>
          currentIssues := issues.GetOr([]);
    }

    /** The active patterns of both files and one recommendation per current issue, in order. */
    method AnalyzeGitignoreCoverage() returns (gitignorePatterns: seq<string>, gitupignorePatterns: seq<string>, recs: seq<Recommendation>)
      ensures gitignorePatterns == PatternsOf(gitignore) && gitupignorePatterns == PatternsOf(gitupignore)
      ensures recs == Analysis(currentIssues, gitignorePatterns, gitupignorePatterns)
      ensures forall k :: 0 <= k < |recs| ==>
        (recs[k].issue == currentIssues[k]
        && (recs[k].action == AddToGitignore ==> !IsCovered(currentIssues[k].filePath, gitignorePatterns))
        && (recs[k].action == AddToGitupignore ==> !IsCovered(currentIssues[k].filePath, gitupignorePatterns)))
    {
      gitignorePatterns := PatternsOf(gitignore);
      gitupignorePatterns := PatternsOf(gitupignore);
      recs := [];
      for k := 0 to |currentIssues|
        invariant |recs| == k
        invariant forall j :: 0 <= j < k ==> recs[j] == Recommend(currentIssues[j], gitignorePatterns, gitupignorePatterns)
      {
        recs := recs + [Recommend(currentIssues[k], gitignorePatterns, gitupignorePatterns)];
      }
    }

    /** The counts of the report's summary: one per recommended action, adding up to the number of issues. */
    method GenerateDiffReport() returns (recs: seq<Recommendation>, actionCounts: Counts<Action>)
      ensures recs == Analysis(currentIssues, PatternsOf(gitignore), PatternsOf(gitupignore))
      ensures actionCounts == TallyOf(ActionsOf(recs))
      ensures Total(actionCounts) == |currentIssues|
      ensures DistinctKeys(actionCounts)
      ensures forall a :: CountOf(actionCounts, a) == Occurrences(ActionsOf(recs), a)
    {
      var _, _, rs := AnalyzeGitignoreCoverage();
      recs := rs;
      var acts := ActionsOf(recs);
      actionCounts := [];
      for k := 0 to |recs|
        invariant actionCounts == TallyOf(acts[..k])
      {
        assert acts[..k + 1][..k] == acts[..k];
        actionCounts := Bump(actionCounts, recs[k].action);
      }
      assert acts[..|recs|] == acts;
      ActionCountsAddUp(recs);
      TallyKeys(acts);
    }

    /**
     * The decision session over the current recommendations, reading answers
     * from `inputs`; `clock(i)` is the time read for decision `i`.
     */
    method PromptUserDecisions(inputs: seq<string>, batchTime: string, clock: nat -> string) returns (r: Result<Batch, SessionError>)
      ensures r == Session(Analysis(currentIssues, PatternsOf(gitignore), PatternsOf(gitupignore)), inputs, batchTime, clock)
    {
      var _, _, recs := AnalyzeGitignoreCoverage();
      var ds: seq<Decision> := [];
      var pos := 0;
      assert inputs[0..] == inputs;
      assert forall t: seq<Decision> :: [] + t == t;
      for i := 0 to |recs|
        invariant pos <= |inputs|
        invariant Decide(recs, 0, inputs, clock) == Then(ds, Decide(recs, i, inputs[pos..], clock))
      {
        var next := NextDecision(recs, i, inputs, pos, clock);
        if next.None? {
          r := Err(EndOfInput);
          return;
        }
        var (d, after) := next.value;
        ThenAppend(ds, d, Decide(recs, i + 1, inputs[after..], clock));
        ds := ds + [d];
        pos := after;
      }
      assert ds + [] == ds;
      r := Ok(Batch(batchTime, ds));
    }

    /**
     * Appends the accepted patterns to `.gitignore` and the GitUp patterns to
     * `.gitupignore`, then saves the session under `sessionId`. The two
     * `Generated` stamps are read separately.
     */
    method ApplyUserDecisions(batch: Batch, generatedGitignore: string, generatedGitupignore: string, sessionId: string)
      returns (gitignoreAdded: nat, gitupignoreAdded: nat, saved: Result<map<string, AuditRecord>, MetaError>)
      modifies this`gitignore, this`gitupignore, this`meta
      ensures gitignore == ApplyTo(old(gitignore), batch.decisions, Accept, GitignoreNote, GitignoreTitle, generatedGitignore)
      ensures gitupignore == ApplyTo(old(gitupignore), batch.decisions, GitUp, GitupignoreNote, GitupignoreTitle, generatedGitupignore)
      ensures gitignoreAdded == 2 * |Selected(batch.decisions, Accept, ExistingLines(old(gitignore)))|
      ensures gitupignoreAdded == 2 * |Selected(batch.decisions, GitUp, ExistingLines(old(gitupignore)))|
      ensures saved == SaveSession(old(meta), sessionId, SessionRecord(batch, projectPath))
      ensures saved.Ok? ==> meta == Meta(saved.value)
      ensures saved.Err? ==> meta == old(meta)
    {
      var existingGi := ExistingLines(gitignore);
      var existingGu := ExistingLines(gitupignore);
      var giAdds, guAdds := CollectAdditions(batch.decisions, existingGi, existingGu);
      AdditionsShape(batch.decisions, Accept, GitignoreNote, existingGi);
      AdditionsShape(batch.decisions, GitUp, GitupignoreNote, existingGu);
      gitignore := AppendBlock(gitignore, GitignoreTitle, generatedGitignore, giAdds);
      gitupignore := AppendBlock(gitupignore, GitupignoreTitle, generatedGitupignore, guAdds);
      saved := SaveAuditMetadata(batch, sessionId);
      gitignoreAdded := |giAdds|;
      gitupignoreAdded := |guAdds|;
    }

    /** Adds the batch's record to the audit map under `sessionId` and rewrites the file. */
    method SaveAuditMetadata(batch: Batch, sessionId: string) returns (saved: Result<map<string, AuditRecord>, MetaError>)
      modifies this`meta
      ensures saved == SaveSession(old(meta), sessionId, SessionRecord(batch, projectPath))
      ensures saved.Ok? ==> meta == Meta(saved.value)
      ensures saved.Err? ==> meta == old(meta)
    {
      var sessions: map<string, AuditRecord>;
      match meta {
        case NotAnObject =>
          saved := Err(NotAMapping);
          return;
        case Meta(m) =>
          sessions := m;
        case NoMeta =>
          sessions := map[];
        case Unparsable =>
          sessions := map[];
      }
      sessions := sessions[sessionId := SessionRecord(batch, projectPath)];
      meta := Meta(sessions);
      saved := Ok(sessions);
    }
  }
}
