/**
 * The project manager agent ("pm"): it reads the stage to move to from the
 * words of its own reply, and queues the bullet or numbered items of the
 * reply as tasks.
 */
module SisyphusAgent {
  import opened Optional
  import opened Text
  import opened AgentState
  import opened AgentBase
  import opened Workflow

  const AgentName := "pm"

  const DesignWords := ["설계를 시작", "architect", "설계 단계", "설계로 넘어"]
  const CodingWords := ["코딩을 시작", "coder", "개발 단계", "코딩으로"]
  const QaWords := ["qa를 시작", "테스트", "검증 단계", "qa로"]
  const CompleteWords := ["완료", "complete", "배포 준비"]

  /** `_parse_next_stage`: the first group, in this order, with a word in the lower-cased reply. */
  function ParseNextStage(response: string): (r: Stage)
    ensures r != Planning
  {
    var text := Lower(response);
    if ContainsAny(text, DesignWords) then Design
    else if ContainsAny(text, CodingWords) then Coding
    else if ContainsAny(text, QaWords) then Qa
    else if ContainsAny(text, CompleteWords) then Complete
    else Idle
  }

  /**
   * Earlier groups win: the reply yields a group's stage exactly when it holds
   * a word of that group and no word of any earlier group, and idle exactly
   * when it holds no word of any group.
   */
  lemma ParseNextStagePriority(response: string)
    ensures var text := Lower(response);
            var d, c, q, k := ContainsAny(text, DesignWords), ContainsAny(text, CodingWords),
                              ContainsAny(text, QaWords), ContainsAny(text, CompleteWords);
            var r := ParseNextStage(response);
            && (r == Design <==> d)
            && (r == Coding <==> !d && c)
            && (r == Qa <==> !d && !c && q)
            && (r == Complete <==> !d && !c && !q && k)
            && (r == Idle <==> !d && !c && !q && !k)
  {
  }

  /**
   * With the stage written back, the graph ends the run after the manager
   * exactly when its reply names none of the design, coding or QA words.
   */
  lemma ManagerEndsRunIff(response: string)
    ensures var text := Lower(response);
            RouteFromSisyphus(Some(ParseNextStage(response))) == End <==>
              !ContainsAny(text, DesignWords) && !ContainsAny(text, CodingWords) && !ContainsAny(text, QaWords)
  {
  }

  // ---------------------------------------------------------------------------
  // Tasks
  // ---------------------------------------------------------------------------

  predicate IsDigit(c: char) {
    '0' <= c <= '9'
  }

  /** The characters of `[-*\d.]`. */
  predicate IsTaskMark(c: char) {
    c == '-' || c == '*' || c == '.' || IsDigit(c)
  }

  /** `re.match(r"^\d+\.", line)`: one or more digits, then a dot. */
  predicate IsNumbered(line: string) {
    var rest := DropLeading(line, IsDigit);
    |rest| < |line| && rest != [] && rest[0] == '.'
  }

  /** A stripped line that is a bullet or numbered item. */
  predicate IsTaskLine(line: string) {
    StartsWith(line, "- ") || StartsWith(line, "* ") || IsNumbered(line)
  }

  /** `re.sub(r"^[-*\d.]+\s*", "", line)`: the leading marks and the blanks after them removed. */
  function TaskContent(line: string): string {
    DropLeading(DropLeading(line, IsTaskMark), IsPySpace)
  }

  /** The content is a suffix of the line that starts with no blank. */
  lemma TaskContentShape(line: string)
    ensures var r := TaskContent(line);
            |r| <= |line| && r == line[|line| - |r|..] && (r == [] || !IsPySpace(r[0]))
  {
    var b := DropLeading(line, IsTaskMark);
    DropLeadingShape(line, IsTaskMark);
    DropLeadingShape(b, IsPySpace);
    var r := TaskContent(line);
    assert line[|line| - |b|..][|b| - |r|..] == line[|line| - |r|..];
  }

  /** The task one line of the reply yields, if any. */
  function TaskOf(line: string): Option<Task> {
    var stripped := Strip(line);
    var content := TaskContent(stripped);
    if IsTaskLine(stripped) && |content| > 5 then Some(Task(content, Pending, None)) else None
  }

  /** Every task of the lines, in order. */
  function TasksOf(lines: seq<string>): seq<Task> {
    Collect(lines, TaskOf)
  }

  /** At most five tasks are kept. */
  const MaxTasks := 5

  /** The tasks `_parse_tasks` returns for a reply. */
  function Tasks(response: string): (r: seq<Task>)
    ensures |r| <= MaxTasks
  {
    var all := TasksOf(SplitLines(response));
    if |all| <= MaxTasks then all else all[..MaxTasks]
  }

  /** The tasks of a reply are the first five of those of its lines, in the order of the lines. */
  lemma TasksPrefix(response: string)
    ensures var all := TasksOf(SplitLines(response));
            Tasks(response) == all[..|Tasks(response)|]
            && (|all| <= MaxTasks ==> Tasks(response) == all)
  {
  }

  /** The tasks of two blocks of lines are those of the first followed by those of the second. */
  lemma TasksOfConcat(a: seq<string>, b: seq<string>)
    ensures TasksOf(a + b) == TasksOf(a) + TasksOf(b)
  {
    CollectConcat(a, b, TaskOf);
  }

  /** Every task is pending, unassigned, longer than five characters, a single line, and starts with no blank. */
  lemma TasksWellFormed(response: string)
    ensures forall t :: t in Tasks(response) ==>
              t.status == Pending && t.assignedTo.None? && |t.description| > 5
              && '\n' !in t.description && !IsPySpace(t.description[0])
  {
    var lines := SplitLines(response);
    SplitLinesJoin(response);
    CollectMembers(lines, TaskOf);
    forall t | t in Tasks(response)
      ensures t.status == Pending && t.assignedTo.None? && |t.description| > 5
              && '\n' !in t.description && !IsPySpace(t.description[0])
    {
      assert t in TasksOf(lines);
      var k :| 0 <= k < |lines| && TaskOf(lines[k]) == Some(t);
      TaskOfWellFormed(lines[k]);
    }
  }

  /** The task a line yields is pending, unassigned, longer than five characters, and starts with no blank. */
  lemma TaskOfWellFormed(line: string)
    requires '\n' !in line
    ensures var t := TaskOf(line);
            t.Some? ==> t.value.status == Pending && t.value.assignedTo.None? && |t.value.description| > 5
                        && '\n' !in t.value.description && !IsPySpace(t.value.description[0])
  {
    ContentWithinLine(line);
    TaskContentShape(Strip(line));
  }

  /** The content is a piece of the line, so a line without a newline gives content without one. */
  lemma ContentWithinLine(line: string)
    requires '\n' !in line
    ensures '\n' !in TaskContent(Strip(line))
  {
    var a := DropLeading(line, IsPySpace);
    DropLeadingShape(line, IsPySpace);
    SliceKeeps(line, |line| - |a|, |line|, '\n');
    var stripped := DropTrailing(a, IsPySpace);
    DropTrailingShape(a, IsPySpace);
    SliceKeeps(a, 0, |stripped|, '\n');
    TaskContentShape(stripped);
    var content := TaskContent(stripped);
    SliceKeeps(stripped, |stripped| - |content|, |stripped|, '\n');
  }

  lemma SliceKeeps(s: string, i: nat, j: nat, c: char)
    requires i <= j <= |s| && c !in s
    ensures c !in s[i..j]
  {
    assert forall k :: 0 <= k < j - i ==> s[i..j][k] == s[i + k];
  }

  /** `_parse_tasks`. */
  method ParseTasks(response: string) returns (tasks: seq<Task>)
    ensures tasks == Tasks(response)
  {
    var lines := SplitLines(response);
    var found: seq<Task> := [];
    var k := 0;
    while k < |lines|
      invariant 0 <= k <= |lines|
      invariant found == TasksOf(lines[..k])
    {
      var task := TaskOf(lines[k]);
      if task.Some? {
        found := found + [task.value];
      }
      CollectStep(lines, k, TaskOf);
      k := k + 1;
    }
    assert lines[..|lines|] == lines;
    tasks := if |found| <= MaxTasks then found else found[..MaxTasks];
  }

  /** `_apply_response`; the stage name is never empty, so the stage is always written. */
  method ApplyResponse(state: State, response: string)
    modifies state
    ensures state.Value() == old(state.Value()).(
              messages := old(state.messages) + [Message(Assistant, response, Some(AgentName))],
              workflowStage := Some(ParseNextStage(response)),
              currentAgent := "sisyphus",
              finalResponse := if ParseNextStage(response) == Complete then Some(response) else old(state.finalResponse),
              taskQueue := old(state.taskQueue) + Tasks(response))
  {
    AddMessage(state, AgentName, response);
    var nextStage := ParseNextStage(response);
    state.workflowStage := Some(nextStage);
    state.currentAgent := "sisyphus";
    if nextStage == Complete {
      state.finalResponse := Some(response);
    }
    var tasks := ParseTasks(response);
    if tasks != [] {
      state.taskQueue := state.taskQueue + tasks;
    } else {
      assert state.taskQueue + tasks == state.taskQueue;
    }
  }
}
