/**
 * The state dictionary the agent pipeline threads through its graph. Each
 * agent writes its changes into the dictionary it is given and returns it;
 * the operations here describe that returned dictionary. The graph then
 * merges it into the state it keeps, adding the returned `messages` list to
 * the stored one, and that merge is not part of this model. A list-valued key
 * that is missing reads as the empty list, and a missing `user_request` as
 * the empty string, which is how every reader treats them.
 */
module AgentState {
  import opened Optional

  datatype Role = User | Assistant | System

  datatype Message = Message(role: Role, content: string, agentType: Option<string>)

  datatype Status = Pending | InProgress | Completed | Failed

  /** The status as it is written into text. */
  function StatusName(s: Status): string {
    match s
    case Pending => "pending"
    case InProgress => "in_progress"
    case Completed => "completed"
    case Failed => "failed"
  }

  datatype Stage = Idle | Planning | Design | Coding | Qa | Complete

  /** The dictionaries agents put in a result's `artifacts`. */
  datatype Artifact =
    | CodeArtifact(language: string, content: string, index: nat)
    | IssueArtifact(description: string, severity: string)

  datatype TaskResult = TaskResult(agent: string, status: Status, output: Option<string>, artifacts: seq<Artifact>)

  /** A queued task dictionary: `description`, `status`, `assigned_to`. */
  datatype Task = Task(description: string, status: Status, assignedTo: Option<string>)

  datatype OpKind = Create | Update | Delete

  /** A node operation; `createdBy` and `order` are the keys of its `data` dictionary. */
  datatype NodeOperation = NodeOperation(operation: OpKind, nodeType: Option<string>, nodeId: Option<string>,
                                         labelText: Option<string>, createdBy: string, order: nat)

  /** The whole state at one moment. */
  datatype StateValue = StateValue(
    messages: seq<Message>,
    currentAgent: string,
    taskQueue: seq<Task>,
    taskResults: seq<TaskResult>,
    workflowStage: Option<Stage>,
    nodeOperations: seq<NodeOperation>,
    userRequest: string,
    finalResponse: Option<string>)

  class State {
    var messages: seq<Message>
    var currentAgent: string
    var taskQueue: seq<Task>
    var taskResults: seq<TaskResult>
    var workflowStage: Option<Stage>
    var nodeOperations: seq<NodeOperation>
    var userRequest: string
    var finalResponse: Option<string>

    /** The state a chat request starts from: the request as the one user message, the manager active, planning. */
    constructor(userRequest: string)
      ensures Value() == StateValue([Message(User, userRequest, None)], "sisyphus", [], [], Some(Planning), [],
                                    userRequest, None)
    {
      messages := [Message(User, userRequest, None)];
      currentAgent := "sisyphus";
      taskQueue := [];
      taskResults := [];
      workflowStage := Some(Planning);
      nodeOperations := [];
      this.userRequest := userRequest;
      finalResponse := None;
    }

    function Value(): StateValue
      reads this
    {
      StateValue(messages, currentAgent, taskQueue, taskResults, workflowStage, nodeOperations, userRequest, finalResponse)
    }
  }
}
