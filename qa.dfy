/**
 * The QA agent: it judges its own reply for issue words, records a failed or
 * completed result with the reply's issue lines as artifacts, and sends the
 * workflow back to coding or on to completion.
 */
module QaAgent {
  import opened Optional
  import opened Text
  import opened AgentState
  import opened AgentBase
  import opened Workflow
  import SisyphusAgent

  const AgentName := "qa"

  const IssueWords := ["버그", "오류", "에러", "문제", "수정 필요", "bug", "error", "issue", "fix"]
  const PassWords := ["통과", "성공", "완료", "문제 없", "pass", "success", "approved"]

  /** `_check_for_issues`: an explicit pass clears the verdict only when no issue word was seen. */
  function CheckForIssues(response: string): bool {
    var text := Lower(response);
    var hasIssues := ContainsAny(text, IssueWords);
    var isPassed := ContainsAny(text, PassWords);
    if isPassed && !hasIssues then false else hasIssues
  }

  /** The pass words never change the verdict: a reply has issues exactly when it holds an issue word. */
  lemma PassWordsNeverOverride(response: string)
    ensures CheckForIssues(response) <==> ContainsAny(Lower(response), IssueWords)
  {
  }

  /** The pass phrase "문제 없" ("no problem") holds the issue word "문제", so a reply using it always has issues. */
  lemma NoProblemCountsAsIssue(response: string)
    requires Contains(Lower(response), "문제 없")
    ensures CheckForIssues(response)
  {
    var text := Lower(response);
    var i :| OccursAt(text, "문제 없", i);
    assert text[i..i + 2] == text[i..i + 4][..2];
    assert OccursAt(text, "문제", i);
    assert Contains(text, IssueWords[3]);
  }

  // ---------------------------------------------------------------------------
  // Issue lines
  // ---------------------------------------------------------------------------

  /** The markers of an issue line, matched in the lower-cased stripped line. */
  const IssueMarks := ["버그:", "오류:", "issue:", "bug:", "문제:"]

  const Severity := "medium"

  /** A stripped line that, lower-cased, holds one of the markers. */
  predicate IsIssueLine(stripped: string) {
    ContainsAny(Lower(stripped), IssueMarks)
  }

  /** The issue one line of the reply yields, if any: the stripped line itself. */
  function IssueOf(line: string): Option<Artifact> {
    var stripped := Strip(line);
    if IsIssueLine(stripped) then Some(IssueArtifact(stripped, Severity)) else None
  }

  /** The issues `_extract_issues` returns: one per marked line, in the order of the lines. */
  function Issues(response: string): seq<Artifact> {
    Collect(SplitLines(response), IssueOf)
  }

  /** The issue `a` is the stripped `k`-th line for some `k`. */
  predicate IsStrippedLine(a: Artifact, lines: seq<string>) {
    a.IssueArtifact? && exists k :: 0 <= k < |lines| && a.description == Strip(lines[k])
  }

  /** Every issue is of medium severity, holds a marker, and is a stripped line of the reply. */
  lemma IssuesSound(response: string)
    ensures forall a :: a in Issues(response) ==>
              a.IssueArtifact? && a.severity == Severity && IsIssueLine(a.description)
              && IsStrippedLine(a, SplitLines(response))
  {
    var lines := SplitLines(response);
    CollectMembers(lines, IssueOf);
    forall a | a in Issues(response)
      ensures a.IssueArtifact? && a.severity == Severity && IsIssueLine(a.description) && IsStrippedLine(a, lines)
    {
      var k :| 0 <= k < |lines| && IssueOf(lines[k]) == Some(a);
      IssueOfSound(lines[k]);
      assert a.description == Strip(lines[k]);
    }
  }

  /** The issue of a line is the stripped line itself, marked, of medium severity. */
  lemma IssueOfSound(line: string)
    ensures var r := IssueOf(line);
            r.Some? ==> r.value.IssueArtifact? && r.value.severity == Severity
                        && r.value.description == Strip(line) && IsIssueLine(r.value.description)
  {
  }

  /** Every line holding a marker gives an issue. */
  lemma IssuesComplete(response: string)
    ensures var lines := SplitLines(response);
            forall k :: 0 <= k < |lines| && IsIssueLine(Strip(lines[k])) ==>
              IssueArtifact(Strip(lines[k]), Severity) in Issues(response)
  {
    var lines := SplitLines(response);
    CollectMembers(lines, IssueOf);
    forall k | 0 <= k < |lines| && IsIssueLine(Strip(lines[k]))
      ensures IssueArtifact(Strip(lines[k]), Severity) in Issues(response)
    {
      assert IssueOf(lines[k]) == Some(IssueArtifact(Strip(lines[k]), Severity));
    }
  }

  /** A reply of one line has at most one issue, and it has one exactly when the line is marked. */
  lemma SingleLineIssues(response: string)
    requires '\n' !in response
    ensures Issues(response) == (if IsIssueLine(Strip(response))
                                 then [IssueArtifact(Strip(response), Severity)] else [])
  {
    assert SplitLines(response) == [response];
    assert SplitLines(response)[..0] == [];
  }

  /** `_extract_issues`. */
  method ExtractIssues(response: string) returns (issues: seq<Artifact>)
    ensures issues == Issues(response)
  {
    var lines := SplitLines(response);
    issues := [];
    var k := 0;
    while k < |lines|
      invariant 0 <= k <= |lines|
      invariant issues == Collect(lines[..k], IssueOf)
    {
      var issue := IssueOf(lines[k]);
      if issue.Some? {
        issues := issues + [issue.value];
      }
      CollectStep(lines, k, IssueOf);
      k := k + 1;
    }
    assert lines[..|lines|] == lines;
  }

  /** The output a result keeps of a reply. */
  const OutputLimit := 500

  /** The stage QA leaves: back to coding on issues, else complete. */
  function NextStage(hasIssues: bool): (r: Stage)
    ensures r == Coding || r == Complete
  {
    if hasIssues then Coding else Complete
  }

  /** `_apply_response`. */
  method ApplyResponse(state: State, response: string)
    modifies state
    ensures state.Value() == old(state.Value()).(
              messages := old(state.messages) + [Message(Assistant, response, Some(AgentName))],
              currentAgent := AgentName,
              taskResults := old(state.taskResults)
                             + [TaskResult(AgentName, if CheckForIssues(response) then Failed else Completed,
                                           Some(Take(response, OutputLimit)), Issues(response))],
              workflowStage := Some(NextStage(CheckForIssues(response))))
  {
    AddMessage(state, AgentName, response);
    state.currentAgent := AgentName;
    var hasIssues := CheckForIssues(response);
    var issues := ExtractIssues(response);
    var taskResult := TaskResult(AgentName, if !hasIssues then Completed else Failed,
                                 Some(Take(response, OutputLimit)), issues);
    state.taskResults := state.taskResults + [taskResult];
    if hasIssues {
      state.workflowStage := Some(Coding);
    } else {
      state.workflowStage := Some(Complete);
    }
    assert state.workflowStage == Some(NextStage(hasIssues));
  }

  /**
   * After QA the graph ends the run exactly when the reply holds no issue word,
   * and otherwise returns the run to the manager (the stage QA wrote is
   * `coding`, but the manager overwrites it before the next route is taken).
   */
  lemma QaEndsRunIff(response: string)
    ensures var stage := Some(NextStage(CheckForIssues(response)));
            (RouteBack(stage) == End <==> !ContainsAny(Lower(response), IssueWords))
            && (RouteBack(stage) != End ==> RouteBack(stage) == ToNode(Sisyphus) && stage == Some(Coding))
  {
    PassWordsNeverOverride(response);
  }

  /**
   * The round after a failed QA: the manager writes the stage parsed from its
   * own reply, and the coder runs next exactly when that reply holds a coding
   * word and no design word, whatever the QA reply said.
   */
  lemma QaIssuesThenManager(qaReply: string, managerReply: string)
    requires ContainsAny(Lower(qaReply), IssueWords)
    ensures RouteBack(Some(NextStage(CheckForIssues(qaReply)))) == ToNode(Sisyphus)
    ensures var text := Lower(managerReply);
            RouteFromSisyphus(Some(SisyphusAgent.ParseNextStage(managerReply))) == ToNode(Coder) <==>
              !ContainsAny(text, SisyphusAgent.DesignWords) && ContainsAny(text, SisyphusAgent.CodingWords)
  {
    QaEndsRunIff(qaReply);
    SisyphusAgent.ParseNextStagePriority(managerReply);
  }
}
