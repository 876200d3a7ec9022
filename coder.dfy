/**
 * The coder agent: it records its reply as a completed result carrying the
 * fenced code blocks of the reply as artifacts, and moves the workflow to QA.
 *
 * The scan is Python's `re.findall` of "```(\w+)?\n(.*?)```" with
 * `re.DOTALL`: an opening fence, an optional language word, a newline, then
 * the shortest text up to the next fence.
 */
module CoderAgent {
  import opened Optional
  import opened Text
  import opened AgentState
  import opened AgentBase

  const AgentName := "coder"

  /** `\w`, restricted to ASCII: letters, digits and the underscore. */
  predicate IsWordChar(c: char) {
    'a' <= c <= 'z' || 'A' <= c <= 'Z' || '0' <= c <= '9' || c == '_'
  }

  /** Three backticks start at `p`. */
  predicate FenceAt(s: string, p: nat) {
    p + 3 <= |s| && s[p] == '`' && s[p + 1] == '`' && s[p + 2] == '`'
  }

  /** The end of the longest run of word characters starting at `q`. */
  function WordEnd(s: string, q: nat): (w: nat)
    requires q <= |s|
    ensures q <= w <= |s|
    decreases |s| - q
  {
    if q < |s| && IsWordChar(s[q]) then WordEnd(s, q + 1) else q
  }

  lemma {:induction false} WordEndMaximal(s: string, q: nat)
    requires q <= |s|
    ensures forall k :: q <= k < WordEnd(s, q) ==> IsWordChar(s[k])
    ensures WordEnd(s, q) == |s| || !IsWordChar(s[WordEnd(s, q)])
    decreases |s| - q
  {
    if q < |s| && IsWordChar(s[q]) {
      WordEndMaximal(s, q + 1);
    }
  }

  /** The first fence starting at or after `c`. */
  function NextFence(s: string, c: nat): (r: Option<nat>)
    ensures r.Some? ==> c <= r.value && FenceAt(s, r.value)
    decreases |s| - c
  {
    if c + 3 > |s| then None
    else if FenceAt(s, c) then Some(c)
    else NextFence(s, c + 1)
  }

  lemma {:induction false} NextFenceFirst(s: string, c: nat)
    ensures var r := NextFence(s, c);
            (r.Some? ==> forall k :: c <= k < r.value ==> !FenceAt(s, k))
            && (r.None? ==> forall k :: c <= k ==> !FenceAt(s, k))
    decreases |s| - c
  {
    if c + 3 <= |s| && !FenceAt(s, c) {
      NextFenceFirst(s, c + 1);
    }
  }

  /** One match: the language group ("" when it did not take part), the code group, and where the match ends. */
  datatype Block = Block(language: string, code: string, end: nat)

  /** The match starting at `p`, if the pattern matches there. */
  function BlockAt(s: string, p: nat): (r: Option<Block>)
    ensures r.Some? ==> p < r.value.end <= |s|
  {
    if !FenceAt(s, p) then None
    else
      var w := WordEnd(s, p + 3);
      if w == |s| || s[w] != '\n' then None
      else
        match NextFence(s, w + 1)
        case None => None
        case Some(c) => Some(Block(s[p + 3..w], s[w + 1..c], c + 3))
  }

  /**
   * A match is a fence, a possibly empty word, a newline, and code that holds
   * no fence, closed by a fence.
   */
  lemma BlockAtSound(s: string, p: nat)
    ensures var r := BlockAt(s, p);
            r.Some? ==>
              FenceAt(s, p)
              && (forall k :: 0 <= k < |r.value.language| ==> IsWordChar(r.value.language[k]))
              && s[p + 3 + |r.value.language|] == '\n'
              && (forall i :: !OccursAt(r.value.code, "```", i))
              && FenceAt(s, r.value.end - 3)
  {
    if BlockAt(s, p).Some? {
      BlockAtLanguage(s, p);
      BlockAtCode(s, p);
    }
  }

  /** The language of a match is the word after the opening fence, followed by a newline. */
  lemma BlockAtLanguage(s: string, p: nat)
    requires BlockAt(s, p).Some?
    ensures var b := BlockAt(s, p).value;
            FenceAt(s, p)
            && (forall k :: 0 <= k < |b.language| ==> IsWordChar(b.language[k]))
            && s[p + 3 + |b.language|] == '\n'
  {
    var w := WordEnd(s, p + 3);
    WordEndMaximal(s, p + 3);
    var b := BlockAt(s, p).value;
    assert b.language == s[p + 3..w];
    assert forall k :: 0 <= k < |b.language| ==> b.language[k] == s[p + 3 + k];
  }

  /** The code of a match holds no fence, and the match ends with one. */
  lemma BlockAtCode(s: string, p: nat)
    requires BlockAt(s, p).Some?
    ensures var b := BlockAt(s, p).value;
            (forall i :: !OccursAt(b.code, "```", i)) && FenceAt(s, b.end - 3)
  {
    var w := WordEnd(s, p + 3);
    var c := NextFence(s, w + 1).value;
    NextFenceFirst(s, w + 1);
    var b := BlockAt(s, p).value;
    assert b.code == s[w + 1..c] && b.end == c + 3;
    forall i
      ensures !OccursAt(b.code, "```", i)
    {
      if 0 <= i && i + 3 <= |b.code| {
        assert !FenceAt(s, w + 1 + i);
        assert b.code[i] == s[w + 1 + i] && b.code[i + 1] == s[w + 2 + i] && b.code[i + 2] == s[w + 3 + i];
      }
    }
  }

  /** `re.findall` from `p`: the (language, code) pair of every match, leftmost first, not overlapping. */
  function FindBlocks(s: string, p: nat): (r: seq<(string, string)>)
    decreases |s| - p
  {
    if p >= |s| then []
    else
      match BlockAt(s, p)
      case None => FindBlocks(s, p + 1)
      case Some(b) => [(b.language, b.code)] + FindBlocks(s, b.end)
  }

  /** A reply without three backticks in a row has no code block. */
  lemma {:induction false} NoFenceNoBlocks(s: string, p: nat)
    requires forall k :: p <= k ==> !FenceAt(s, k)
    ensures FindBlocks(s, p) == []
    decreases |s| - p
  {
    if p < |s| {
      NoFenceNoBlocks(s, p + 1);
    }
  }

  /** Every block's language is a run of word characters and its code holds no fence. */
  lemma {:induction false} FindBlocksSound(s: string, p: nat)
    ensures forall j :: 0 <= j < |FindBlocks(s, p)| ==>
              (forall k :: 0 <= k < |FindBlocks(s, p)[j].0| ==> IsWordChar(FindBlocks(s, p)[j].0[k]))
              && (forall i :: !OccursAt(FindBlocks(s, p)[j].1, "```", i))
    decreases |s| - p
  {
    if p < |s| {
      match BlockAt(s, p)
      case None => FindBlocksSound(s, p + 1);
      case Some(b) =>
        FindBlocksSound(s, b.end);
        BlockAtSound(s, p);
        assert forall j :: 1 <= j < |FindBlocks(s, p)| ==> FindBlocks(s, p)[j] == FindBlocks(s, b.end)[j - 1];
    }
  }

  // ---------------------------------------------------------------------------
  // Artifacts
  // ---------------------------------------------------------------------------

  /** The artifact for the `i`-th block: a missing language reads as "text", the code is stripped. */
  function ArtifactFor(block: (string, string), i: nat): (r: Artifact)
    ensures r.CodeArtifact? && r.index == i && r.language != ""
    ensures block.0 != "" ==> r.language == block.0
  {
    CodeArtifact(if block.0 == "" then "text" else block.0, Strip(block.1), i)
  }

  /** The artifacts `_extract_code_blocks` returns: one per block of the reply, numbered from 0 in reply order. */
  function Artifacts(response: string): seq<Artifact>
  {
    Numbered(FindBlocks(response, 0), ArtifactFor)
  }

  /**
   * Every block becomes a code artifact, the k-th one numbered k, holding the
   * k-th block's code stripped, in the language "text" or a run of word characters.
   */
  lemma ArtifactsNumbered(response: string)
    ensures var arts := Artifacts(response);
            var blocks := FindBlocks(response, 0);
            |arts| == |blocks|
            && forall k :: 0 <= k < |arts| ==>
              arts[k].CodeArtifact? && arts[k].index == k && arts[k].content == Strip(blocks[k].1)
              && (arts[k].language == "text"
                  || forall j :: 0 <= j < |arts[k].language| ==> IsWordChar(arts[k].language[j]))
  {
    FindBlocksSound(response, 0);
    NumberedAt(FindBlocks(response, 0), ArtifactFor);
  }

  /** `_extract_code_blocks`. */
  method ExtractCodeBlocks(response: string) returns (artifacts: seq<Artifact>)
    ensures artifacts == Artifacts(response)
  {
    var matches := FindBlocks(response, 0);
    artifacts := ArtifactsLoop(matches);
  }

  /** The loop of `_extract_code_blocks` over the matches. */
  method ArtifactsLoop(matches: seq<(string, string)>) returns (artifacts: seq<Artifact>)
    ensures artifacts == Numbered(matches, ArtifactFor)
  {
    artifacts := [];
    var i := 0;
    while i < |matches|
      invariant 0 <= i <= |matches|
      invariant artifacts == Numbered(matches[..i], ArtifactFor)
    {
      NumberedStep(matches, i, ArtifactFor);
      artifacts := artifacts + [ArtifactFor(matches[i], i)];
      i := i + 1;
    }
    assert matches[..i] == matches;
  }

  /** The output a result keeps of a reply. */
  const OutputLimit := 500

  /** `_apply_response`. */
  method ApplyResponse(state: State, response: string)
    modifies state
    ensures state.Value() == old(state.Value()).(
              messages := old(state.messages) + [Message(Assistant, response, Some(AgentName))],
              currentAgent := AgentName,
              taskResults := old(state.taskResults)
                             + [TaskResult(AgentName, Completed, Some(Take(response, OutputLimit)), Artifacts(response))],
              workflowStage := Some(Qa))
  {
    var codeArtifacts := ExtractCodeBlocks(response);
    AddMessage(state, AgentName, response);
    state.currentAgent := AgentName;
    var taskResult := TaskResult(AgentName, Completed, Some(Take(response, OutputLimit)), codeArtifacts);
    state.taskResults := state.taskResults + [taskResult];
    state.workflowStage := Some(Qa);
  }
}
