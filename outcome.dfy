/**
 * What `run_multi_agent` does once the turn loop is over: it asks
 * `approval_in_history` about the last five messages, updates the workflow
 * status, and then either reports the safety stop, hands over for approval
 * (a status in Streamlit mode, a typed confirmation and deployment in
 * terminal mode), or reports an incomplete run.
 */
module Outcome {
  import opened PyStrings
  import opened Chat
  import opened Termination
  import opened Approval
  import opened Conversation

  datatype RunStatus = SafetyLimitReached | AwaitingApproval | Incomplete

  /**
   * The three statuses partition every pair of flags, the safety stop
   * taking precedence over a marker in the history.
   */
  function Classify(safetyLimitReached: bool, approvalInHistory: bool): (status: RunStatus)
    ensures status == SafetyLimitReached <==> safetyLimitReached
    ensures status == AwaitingApproval <==> !safetyLimitReached && approvalInHistory
    ensures status == Incomplete <==> !safetyLimitReached && !approvalInHistory
  {
    if safetyLimitReached then SafetyLimitReached
    else if approvalInHistory then AwaitingApproval
    else Incomplete
  }

  /** The `status` entry of the Streamlit result: a distinct name per status. */
  function StatusName(status: RunStatus): (name: string)
    ensures name == "safety_limit_reached" <==> status == SafetyLimitReached
    ensures name == "awaiting_approval" <==> status == AwaitingApproval
    ensures name == "incomplete" <==> status == Incomplete
  {
    assert "safety_limit_reached"[0] != "awaiting_approval"[0];
    assert "awaiting_approval"[0] != "incomplete"[0];
    assert "safety_limit_reached"[0] != "incomplete"[0];
    match status
    case SafetyLimitReached => "safety_limit_reached"
    case AwaitingApproval => "awaiting_approval"
    case Incomplete => "incomplete"
  }

  const SafetyLimitError: string :=
    "The conversation exceeded the safety limit of 20 messages. This usually happens when the agents get stuck in a loop or have unclear requirements."
  const NotApprovedError: string :=
    "The ProductOwner did not approve the solution. The agents may need clearer requirements or the task may be too complex."

  /** The `error_message` entry of the Streamlit result: present unless approval is awaited. */
  function ErrorMessage(status: RunStatus): (message: Option<string>)
    ensures message.None? <==> status == AwaitingApproval
  {
    match status
    case SafetyLimitReached => Some(SafetyLimitError)
    case AwaitingApproval => None
    case Incomplete => Some(NotApprovedError)
  }

  /** The `workflow_status` dictionary. */
  datatype WorkflowStatus = WorkflowStatus(
    completed: bool,
    safetyLimitReached: bool,
    approvalReady: bool,
    errorOccurred: bool,
    errorMessage: string)

  /**
   * `workflow_status` after the post-loop update: completed only with
   * approval ready, which the marker in the history also sets; the safety
   * flag is the loop's, and no error is recorded.
   */
  function FinalWorkflowStatus(final: TurnState): (status: WorkflowStatus)
    ensures status.completed <==> ReadyInRecent(final.history)
    ensures status.completed ==> status.approvalReady
    ensures final.approvalReady ==> status.approvalReady
    ensures status.safetyLimitReached == final.safetyLimitReached
    ensures !status.errorOccurred && status.errorMessage == ""
  {
    var approvalInHistory := ApprovalInHistory(final.history);
    WorkflowStatus(
      approvalInHistory,
      final.safetyLimitReached,
      final.approvalReady || approvalInHistory,
      false,
      "")
  }

  /**
   * The status of a finished run: the safety stop first, then awaiting
   * approval when the marker is among the last five messages.
   */
  function RunOutcome(final: TurnState): (status: RunStatus)
    ensures status == SafetyLimitReached <==> final.safetyLimitReached
    ensures status == AwaitingApproval <==> !final.safetyLimitReached && ReadyInRecent(final.history)
    ensures status == Incomplete <==> !final.safetyLimitReached && !ReadyInRecent(final.history)
  {
    Classify(FinalWorkflowStatus(final).safetyLimitReached, ApprovalInHistory(final.history))
  }

  /** The dictionary returned in Streamlit mode; `chatHistory` only when approval is awaited. */
  datatype StreamlitReply = StreamlitReply(
    messages: seq<Message>,
    status: string,
    errorMessage: Option<string>,
    chatHistory: Option<seq<Message>>)

  /**
   * A Streamlit reply always lists the whole history; it hands the history
   * over for approval exactly when it awaits approval, and then carries no
   * error message.
   */
  function Reply(history: seq<Message>, status: RunStatus): (reply: StreamlitReply)
    ensures reply.messages == history
    ensures reply.chatHistory.Some? <==> status == AwaitingApproval
    ensures reply.chatHistory.Some? ==> reply.chatHistory.value == history
    ensures reply.errorMessage.None? <==> status == AwaitingApproval
  {
    StreamlitReply(
      history,
      StatusName(status),
      ErrorMessage(status),
      if status == AwaitingApproval then Some(history) else None)
  }

  /**
   * The Streamlit-mode return value: the whole history, the run's status,
   * and the history for approval exactly when the marker was seen without
   * the safety stop.
   */
  function StreamlitResult(final: TurnState): (reply: StreamlitReply)
    ensures reply.messages == final.history
    ensures reply.status == StatusName(RunOutcome(final))
    ensures reply.chatHistory.Some? <==> !final.safetyLimitReached && ReadyInRecent(final.history)
  {
    Reply(final.history, RunOutcome(final))
  }

  /**
   * Terminal mode: after a ready run the typed line is stripped and must
   * upper-case to "APPROVED"; the page is then chosen, written and pushed
   * exactly as `handle_approval` would. So it writes and pushes only after
   * a run without the safety stop whose history holds the marker, a
   * confirmation that strips to the token, and a qualifying page; it
   * writes that page and then pushes.
   */
  function TerminalEffects(final: TurnState, typed: string, env: Deployment): (effects: seq<Effect>)
    ensures effects != [] <==>
      && !final.safetyLimitReached
      && ApprovalInHistory(final.history)
      && CallerApproves(typed)
      && SelectArtifact(final.history).Some?
    ensures effects != [] ==> effects == [WriteLocal(env.outputPath, SelectArtifact(final.history).value), PushToGitHub]
  {
    if RunOutcome(final) == AwaitingApproval then ApprovalEffects(final.history, Strip(typed), env) else []
  }

  /**
   * The Streamlit approval button: the stripped input must upper-case to
   * "APPROVED", and then `handle_approval` runs with the literal token. It
   * has the effects the terminal branch has for the same typed text.
   */
  function StreamlitDeployEffects(history: seq<Message>, typed: string, env: Deployment): (effects: seq<Effect>)
    ensures effects == ApprovalEffects(history, Strip(typed), env)
  {
    assert IsApproval(ApprovalToken);
    if CallerApproves(typed) then ApprovalEffects(history, ApprovalToken, env) else []
  }

  // ---------------------------------------------------------------------

  /**
   * On every run, the status names the way the loop ended: approval
   * awaited exactly when the loop saw the marker, the safety status exactly
   * at the safety stop, and incomplete exactly when the stream ran out; the
   * run counts as completed exactly when approval is ready.
   */
  lemma OutcomeOfRun(userInput: string, stream: seq<Message>)
    ensures var final := Run(Initial(userInput), stream);
      && (RunOutcome(final) == AwaitingApproval <==> final.approvalReady)
      && (RunOutcome(final) == SafetyLimitReached <==> final.safetyLimitReached)
      && (RunOutcome(final) == Incomplete <==> !Stopped(final))
      && FinalWorkflowStatus(final).completed == FinalWorkflowStatus(final).approvalReady
      && FinalWorkflowStatus(final).approvalReady == final.approvalReady
  {
    RunBounds(userInput, stream);
  }

  /**
   * The Streamlit front end asks for approval (status "awaiting_approval")
   * exactly after runs whose loop saw the ProductOwner's marker.
   */
  lemma StreamlitAwaitsExactlyWhenReady(userInput: string, stream: seq<Message>)
    ensures var final := Run(Initial(userInput), stream);
      StreamlitResult(final).status == "awaiting_approval" <==> final.approvalReady
  {
    OutcomeOfRun(userInput, stream);
  }
}
