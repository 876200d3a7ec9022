/**
 * The architect agent: it records its reply as a completed result, turns the
 * node names it mentions ("노드: …" or "Node: …") into node-creation
 * operations, and moves the workflow to coding.
 *
 * The scan is Python's `re.findall` of `(?:노드|Node)[:\s]+([^\n,]+)` with
 * `re.IGNORECASE`: leftmost matches, not overlapping, the separator run and
 * the label greedy, the separator run giving back characters when nothing
 * can follow it.
 */
module ArchitectAgent {
  import opened Optional
  import opened Text
  import opened AgentState
  import opened AgentBase

  const AgentName := "architect"

  // ---------------------------------------------------------------------------
  // The pattern
  // ---------------------------------------------------------------------------

  /** `[:\s]`. */
  predicate IsSep(c: char) {
    c == ':' || IsPySpace(c)
  }

  /** `[^\n,]`. */
  predicate IsLabelChar(c: char) {
    c != '\n' && c != ','
  }

  /** `(?:노드|Node)` at `p`, letters of "Node" in either case: the index just after it. */
  function KeywordAt(s: string, p: nat): (r: Option<nat>)
    ensures r.Some? ==> p < r.value <= |s|
  {
    if p + 2 <= |s| && s[p] == '노' && s[p + 1] == '드' then Some(p + 2)
    else if p + 4 <= |s| && LowerChar(s[p]) == 'n' && LowerChar(s[p + 1]) == 'o'
            && LowerChar(s[p + 2]) == 'd' && LowerChar(s[p + 3]) == 'e' then Some(p + 4)
    else None
  }

  /** The end of the longest run of separators starting at `q`. */
  function RunEnd(s: string, q: nat): (e: nat)
    requires q <= |s|
    ensures q <= e <= |s|
    decreases |s| - q
  {
    if q < |s| && IsSep(s[q]) then RunEnd(s, q + 1) else q
  }

  lemma {:induction false} RunEndMaximal(s: string, q: nat)
    requires q <= |s|
    ensures forall k :: q <= k < RunEnd(s, q) ==> IsSep(s[k])
    ensures RunEnd(s, q) == |s| || !IsSep(s[RunEnd(s, q)])
    decreases |s| - q
  {
    if q < |s| && IsSep(s[q]) {
      RunEndMaximal(s, q + 1);
    }
  }

  /** The end of the longest run of label characters starting at `b`. */
  function LabelEnd(s: string, b: nat): (f: nat)
    requires b <= |s|
    ensures b <= f <= |s|
    decreases |s| - b
  {
    if b < |s| && IsLabelChar(s[b]) then LabelEnd(s, b + 1) else b
  }

  lemma {:induction false} LabelEndMaximal(s: string, b: nat)
    requires b <= |s|
    ensures forall k :: b <= k < LabelEnd(s, b) ==> IsLabelChar(s[k])
    ensures LabelEnd(s, b) == |s| || !IsLabelChar(s[LabelEnd(s, b)])
    decreases |s| - b
  {
    if b < |s| && IsLabelChar(s[b]) {
      LabelEndMaximal(s, b + 1);
    }
  }

  /** The last index in (q, e) whose character is not a newline, searching back from `e`. */
  function LastNonNewline(s: string, q: nat, e: nat): (r: Option<nat>)
    requires q <= e <= |s|
    ensures r.Some? ==> q < r.value < e
    decreases e
  {
    if e <= q + 1 then None
    else if s[e - 1] != '\n' then Some(e - 1)
    else LastNonNewline(s, q, e - 1)
  }

  lemma {:induction false} LastNonNewlineIsLast(s: string, q: nat, e: nat)
    requires q <= e <= |s|
    ensures var r := LastNonNewline(s, q, e);
            (r.Some? ==> s[r.value] != '\n' && forall k :: r.value < k < e ==> s[k] == '\n')
            && (r.None? ==> forall k :: q < k < e ==> s[k] == '\n')
    decreases e
  {
    if e > q + 1 && s[e - 1] == '\n' {
      LastNonNewlineIsLast(s, q, e - 1);
    }
  }

  /** Where the label group of a match starts and ends. */
  datatype Span = Span(start: nat, end: nat)

  /** The match starting at `p`, if the pattern matches there. */
  function MatchAt(s: string, p: nat): (r: Option<Span>)
    ensures r.Some? ==> p < r.value.start < r.value.end <= |s|
  {
    match KeywordAt(s, p)
    case None => None
    case Some(q) =>
      var e := RunEnd(s, q);
      if e == q then None
      else if e < |s| && IsLabelChar(s[e]) then Some(Span(e, LabelEnd(s, e)))
      else
        match LastNonNewline(s, q, e)
        case None => None
        case Some(b) => Some(Span(b, b + 1))
  }

  /** True when a label can start at `b` after the keyword ending at `q`: separators fill [q, b) and `s[b]` may begin a label. */
  predicate LabelCanStart(s: string, q: nat, b: nat) {
    q < b < |s| && (forall k :: q <= k < b ==> IsSep(s[k])) && IsLabelChar(s[b])
  }

  /**
   * A match is a keyword, at least one separator, then label characters up to
   * a character that cannot continue the label (or the end of the text).
   */
  lemma MatchAtSound(s: string, p: nat)
    ensures var r := MatchAt(s, p);
            r.Some? ==>
              KeywordAt(s, p).Some?
              && LabelCanStart(s, KeywordAt(s, p).value, r.value.start)
              && (forall k :: r.value.start <= k < r.value.end ==> IsLabelChar(s[k]))
              && (r.value.end == |s| || !IsLabelChar(s[r.value.end]))
  {
    if MatchAt(s, p).Some? {
      var q := KeywordAt(s, p).value;
      var e := RunEnd(s, q);
      RunEndMaximal(s, q);
      if e < |s| && IsLabelChar(s[e]) {
        LabelEndMaximal(s, e);
      } else {
        LastNonNewlineIsLast(s, q, e);
        var b := LastNonNewline(s, q, e).value;
        assert b + 1 == e || s[b + 1] == '\n';
      }
    }
  }

  /**
   * The pattern fails at `p` exactly when there is no keyword there, or no
   * label can start after a non-empty run of separators following it.
   */
  lemma MatchAtFails(s: string, p: nat)
    ensures MatchAt(s, p).None? <==>
              KeywordAt(s, p).None? || forall b :: !LabelCanStart(s, KeywordAt(s, p).value, b)
  {
    if KeywordAt(s, p).Some? {
      var q := KeywordAt(s, p).value;
      var e := RunEnd(s, q);
      if MatchAt(s, p).None? {
        RunEndMaximal(s, q);
        LastNonNewlineIsLast(s, q, e);
        forall b | q < b < |s| && (forall k :: q <= k < b ==> IsSep(s[k]))
          ensures !IsLabelChar(s[b])
        {
          if b < e {
            assert s[b] == '\n';
          }
        }
      } else {
        MatchAtSound(s, p);
      }
    }
  }

  /** `re.findall` from `p`: the label of every match, leftmost first, each search resuming where the last match ended. */
  function FindAll(s: string, p: nat): (r: seq<string>)
    decreases |s| - p
  {
    if p >= |s| then []
    else
      match MatchAt(s, p)
      case None => FindAll(s, p + 1)
      case Some(span) => [s[span.start..span.end]] + FindAll(s, span.end)
  }

  /** Every label is non-empty and holds neither a newline nor a comma. */
  lemma {:induction false} FindAllLabels(s: string, p: nat)
    ensures forall j :: 0 <= j < |FindAll(s, p)| ==>
              FindAll(s, p)[j] != [] && forall k :: 0 <= k < |FindAll(s, p)[j]| ==> IsLabelChar(FindAll(s, p)[j][k])
    decreases |s| - p
  {
    if p < |s| {
      match MatchAt(s, p)
      case None => FindAllLabels(s, p + 1);
      case Some(span) =>
        FindAllLabels(s, span.end);
        MatchAtSound(s, p);
        var nodeLabel := s[span.start..span.end];
        assert forall k :: 0 <= k < |nodeLabel| ==> nodeLabel[k] == s[span.start + k];
        assert forall j :: 1 <= j < |FindAll(s, p)| ==> FindAll(s, p)[j] == FindAll(s, span.end)[j - 1];
    }
  }

  /** A text with no keyword from `p` on yields no label. */
  lemma {:induction false} FindAllNeedsKeyword(s: string, p: nat)
    requires forall k :: p <= k < |s| ==> KeywordAt(s, k).None?
    ensures FindAll(s, p) == []
    decreases |s| - p
  {
    if p < |s| {
      FindAllNeedsKeyword(s, p + 1);
    }
  }

  // ---------------------------------------------------------------------------
  // Node operations
  // ---------------------------------------------------------------------------

  const DataWords := ["데이터", "db", "테이블", "저장"]
  const FunctionWords := ["함수", "처리", "검증", "api"]

  /** At most ten matches are used. */
  const MaxNodes := 10

  /** The node type a label suggests: data words first, then function words, else an action. */
  function NodeTypeFor(nodeLabel: string): (r: string)
    ensures r in {"data", "function", "action"}
  {
    var text := Lower(nodeLabel);
    if ContainsAny(text, DataWords) then "data"
    else if ContainsAny(text, FunctionWords) then "function"
    else "action"
  }

  /**
   * What one enumerated match contributes: a create operation for its
   * stripped label, numbered by its position, unless the label is blank.
   */
  function OperationAt(item: (string, nat)): (r: Option<NodeOperation>)
    ensures r.Some? ==> r.value.order == item.1
  {
    var nodeLabel := Strip(item.0);
    if nodeLabel != "" then Some(NodeOperation(Create, Some(NodeTypeFor(nodeLabel)), None, Some(nodeLabel), AgentName, item.1))
    else None
  }

  /** The first ten matches of a reply. */
  function Matches(response: string): (r: seq<string>)
    ensures |r| <= MaxNodes
  {
    var all := FindAll(response, 0);
    if |all| <= MaxNodes then all else all[..MaxNodes]
  }

  /** The operations for a list of matches. */
  function OperationsFor(matches: seq<string>): seq<NodeOperation> {
    Collect(Enumerate(matches), OperationAt)
  }

  /** The operations `_parse_node_operations` returns for a reply. */
  function Operations(response: string): seq<NodeOperation> {
    OperationsFor(Matches(response))
  }

  function OrderOf(op: NodeOperation): int {
    op.order
  }

  function PositionOf(item: (string, nat)): int {
    item.1
  }

  /** The operations keep the order of their matches: positions strictly increase. */
  lemma OperationsOrdered(matches: seq<string>)
    ensures var ops := OperationsFor(matches);
            forall j, k :: 0 <= j < k < |ops| ==> ops[j].order < ops[k].order
  {
    CollectKeysIncrease(Enumerate(matches), OperationAt, PositionOf, OrderOf);
  }

  /**
   * Every operation creates a node with a known type, a non-blank stripped
   * label, the architect as creator and the position of its match.
   */
  lemma OperationsShape(matches: seq<string>)
    ensures var ops := OperationsFor(matches);
            |ops| <= |matches|
            && (forall j :: 0 <= j < |ops| ==>
                  ops[j].operation == Create && ops[j].createdBy == AgentName && ops[j].nodeId.None?
                  && ops[j].order < |matches|
                  && ops[j].labelText == Some(Strip(matches[ops[j].order]))
                  && ops[j].labelText.value != ""
                  && ops[j].nodeType == Some(NodeTypeFor(ops[j].labelText.value)))
  {
    var items := Enumerate(matches);
    CollectMembers(items, OperationAt);
    var ops := OperationsFor(matches);
    forall j | 0 <= j < |ops|
      ensures ops[j].operation == Create && ops[j].createdBy == AgentName && ops[j].nodeId.None?
              && ops[j].order < |items|
              && ops[j].labelText == Some(Strip(items[ops[j].order].0))
              && ops[j].labelText.value != ""
              && ops[j].nodeType == Some(NodeTypeFor(ops[j].labelText.value))
    {
      assert ops[j] in ops;
      var k :| 0 <= k < |items| && OperationAt(items[k]) == Some(ops[j]);
    }
  }

  /** A match with a non-blank label is never dropped: an operation carries its position. */
  lemma OperationsComplete(matches: seq<string>, i: nat)
    requires i < |matches| && Strip(matches[i]) != ""
    ensures exists j :: 0 <= j < |OperationsFor(matches)| && OperationsFor(matches)[j].order == i
  {
    var items := Enumerate(matches);
    CollectMembers(items, OperationAt);
    var op := OperationAt(items[i]).value;
    assert op in OperationsFor(matches);
  }

  /** A reply yields at most ten operations. */
  lemma OperationsBounded(response: string)
    ensures |Operations(response)| <= MaxNodes
  {
    OperationsShape(Matches(response));
  }

  /** `_parse_node_operations`. */
  method ParseNodeOperations(response: string) returns (ops: seq<NodeOperation>)
    ensures ops == Operations(response)
  {
    var all := FindAll(response, 0);
    var matches := if |all| <= MaxNodes then all else all[..MaxNodes];
    ops := OperationsOf(matches);
  }

  /** The loop of `_parse_node_operations` over the enumerated matches; its body is `OperationAt`. */
  method OperationsOf(matches: seq<string>) returns (ops: seq<NodeOperation>)
    ensures ops == OperationsFor(matches)
  {
    var items := Enumerate(matches);
    ops := [];
    var i := 0;
    while i < |items|
      invariant 0 <= i <= |items|
      invariant ops == Collect(items[..i], OperationAt)
    {
      var op := OperationAt(items[i]);
      if op.Some? {
        ops := ops + [op.value];
      }
      CollectStep(items, i, OperationAt);
      i := i + 1;
    }
    assert items[..|items|] == items;
  }

  /** The output a result keeps of a reply. */
  const OutputLimit := 500

  /** `_apply_response`. */
  method ApplyResponse(state: State, response: string)
    modifies state
    ensures state.Value() == old(state.Value()).(
              messages := old(state.messages) + [Message(Assistant, response, Some(AgentName))],
              currentAgent := AgentName,
              taskResults := old(state.taskResults) + [TaskResult(AgentName, Completed, Some(Take(response, OutputLimit)), [])],
              nodeOperations := old(state.nodeOperations) + Operations(response),
              workflowStage := Some(Coding))
  {
    AddMessage(state, AgentName, response);
    state.currentAgent := AgentName;
    var taskResult := TaskResult(AgentName, Completed, Some(Take(response, OutputLimit)), []);
    state.taskResults := state.taskResults + [taskResult];
    var nodeOps := ParseNodeOperations(response);
    if nodeOps != [] {
      state.nodeOperations := state.nodeOperations + nodeOps;
    } else {
      assert state.nodeOperations + nodeOps == state.nodeOperations;
    }
    state.workflowStage := Some(Coding);
  }
}
