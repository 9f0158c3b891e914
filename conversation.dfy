/**
 * The bookkeeping of the turn loop in `run_multi_agent`. The messages the
 * group chat streams are chosen by a language model, so they are an
 * arbitrary input sequence. The chat records each message in its history
 * before the loop body sees it. The loop body then:
 *  - skips a repeated BusinessAnalyst message;
 *  - counts the others;
 *  - stops on the ProductOwner's ready marker, or once more than 20
 *    messages were counted;
 *  - after a third analyst question, adds a closing analyst message of its
 *    own.
 */
module Conversation {
  import opened PyStrings
  import opened Chat
  import opened Termination

  /** The loop stops once more than this many messages were counted. */
  const SafetyLimit: nat := 20

  /** More analyst questions than this make the loop close the analysis. */
  const MaxAnalystQuestions: nat := 2

  /** The message the loop adds in the analyst's name to move on to development. */
  const CompletionNote: Message :=
    Message(Some(BusinessAnalyst), "Requirements are clear based on the initial request. Ready for development.")

  /**
   * The loop's variables: `message_count`, `ba_asked`,
   * `business_analyst_questions`, the `approval_ready` and
   * `safety_limit_reached` entries of `workflow_status`, and the chat history.
   */
  datatype TurnState = TurnState(
    messageCount: nat,
    baAsked: bool,
    baQuestions: nat,
    approvalReady: bool,
    safetyLimitReached: bool,
    history: seq<Message>)

  /** The loop has been left by a `break`. */
  predicate Stopped(s: TurnState) {
    s.approvalReady || s.safetyLimitReached
  }

  /** The state before the first message: the history holds the user's request only. */
  function Initial(userInput: string): TurnState {
    TurnState(0, false, 0, false, false, [UserRequest(userInput)])
  }

  /** The loop's own test for the marker: the content upper-cased, not stripped. */
  predicate MarksReady(m: Message) {
    SpokenBy(m, ProductOwner) && Contains(Upper(m.content), ReadyMarker)
  }

  /** The pass over `item` counts it: it is not a repeated analyst message. */
  predicate Counted(s: TurnState, item: Message) {
    !(SpokenBy(item, BusinessAnalyst) && s.baAsked)
  }

  /** The pass over `item` adds the closing note: a counted analyst message beyond the second, below the limit. */
  predicate AddsNote(s: TurnState, item: Message) {
    && Counted(s, item)
    && SpokenBy(item, BusinessAnalyst)
    && s.baQuestions + 1 > MaxAnalystQuestions
    && s.messageCount + 1 <= SafetyLimit
  }

  /**
   * One pass of the loop body over the streamed message `item`. The
   * history gains the item, and the closing note right after it exactly
   * when the pass adds one; a counted message raises the count by one; the
   * loop stops with approval exactly on a counted marker, and with the
   * safety flag exactly on a counted unmarked message beyond the limit.
   * `ba_asked` is set by an analyst message unless the pass adds the note,
   * cleared by a "User" message, and otherwise left as it was.
   */
  function Step(s: TurnState, item: Message): (t: TurnState)
    requires !Stopped(s)
    ensures |t.history| == |s.history| + (if AddsNote(s, item) then 2 else 1)
    ensures t.history[..|s.history| + 1] == s.history + [item]
    ensures AddsNote(s, item) ==> t.history[|s.history| + 1] == CompletionNote
    ensures t.messageCount == s.messageCount + (if Counted(s, item) then 1 else 0)
    ensures t.baQuestions == s.baQuestions + (if Counted(s, item) && SpokenBy(item, BusinessAnalyst) then 1 else 0)
    ensures t.approvalReady <==> Counted(s, item) && MarksReady(item)
    ensures t.safetyLimitReached <==> Counted(s, item) && !MarksReady(item) && t.messageCount > SafetyLimit
    ensures SpokenBy(item, BusinessAnalyst) ==> t.baAsked == !AddsNote(s, item)
    ensures !SpokenBy(item, BusinessAnalyst) ==> t.baAsked == (s.baAsked && !SpokenBy(item, User))
  {
    var history := s.history + [item];
    if SpokenBy(item, BusinessAnalyst) && s.baAsked then
      s.(history := history)
    else
      var asked := if SpokenBy(item, BusinessAnalyst) then true
                   else if SpokenBy(item, User) then false
                   else s.baAsked;
      var count := s.messageCount + 1;
      var questions := if SpokenBy(item, BusinessAnalyst) then s.baQuestions + 1 else s.baQuestions;
      if MarksReady(item) then
        TurnState(count, asked, questions, true, s.safetyLimitReached, history)
      else if count > SafetyLimit then
        TurnState(count, asked, questions, s.approvalReady, true, history)
      else if SpokenBy(item, BusinessAnalyst) && questions > MaxAnalystQuestions then
        assert (history + [CompletionNote])[..|s.history| + 1] == history;
        TurnState(count, false, questions, s.approvalReady, s.safetyLimitReached, history + [CompletionNote])
      else
        TurnState(count, asked, questions, s.approvalReady, s.safetyLimitReached, history)
  }

  /**
   * The loop over the remaining stream: it ends with the stream or at a
   * `break`. A stopped state is final, and each streamed message is
   * counted at most once.
   */
  function Run(s: TurnState, items: seq<Message>): (t: TurnState)
    ensures Stopped(s) ==> t == s
    ensures s.messageCount <= t.messageCount <= s.messageCount + |items|
    ensures !Stopped(t) ==> !Stopped(s)
    decreases |items|
  {
    if Stopped(s) || items == [] then s else Run(Step(s, items[0]), items[1..])
  }

  lemma RunUnfold(s: TurnState, stream: seq<Message>, i: nat)
    requires !Stopped(s) && i < |stream|
    ensures Run(s, stream[i..]) == Run(Step(s, stream[i]), stream[i + 1..])
  {
    assert stream[i..][0] == stream[i];
    assert stream[i..][1..] == stream[i + 1..];
  }

  /**
   * The turn loop of `run_multi_agent` over the streamed messages, with the
   * source's local variables; it computes exactly `Run` from the initial
   * state, and so keeps the bounds proved about `Run`.
   */
  method RunTurnLoop(userInput: string, stream: seq<Message>) returns (final: TurnState)
    ensures final == Run(Initial(userInput), stream)
    ensures final.messageCount <= SafetyLimit + 1
    ensures final.safetyLimitReached ==> final.messageCount == SafetyLimit + 1 && !final.approvalReady
    ensures final.approvalReady <==> ApprovalInHistory(final.history)
  {
    var history := [UserRequest(userInput)];
    var messageCount := 0;
    var baQuestions := 0;
    var readyForUserApproval := false;
    var safetyLimitReached := false;
    var baAsked := false;
    var i := 0;
    while i < |stream|
      invariant 0 <= i <= |stream|
      invariant !readyForUserApproval && !safetyLimitReached
      invariant Run(TurnState(messageCount, baAsked, baQuestions, false, false, history), stream[i..])
             == Run(Initial(userInput), stream)
    {
      var content := stream[i];
      ghost var before := TurnState(messageCount, baAsked, baQuestions, false, false, history);
      RunUnfold(before, stream, i);
      i := i + 1;
      // the chat has already recorded the message it yields
      history := history + [content];
      if SpokenBy(content, BusinessAnalyst) {
        if baAsked {
          assert TurnState(messageCount, baAsked, baQuestions, false, false, history) == Step(before, content);
          continue;
        }
        baAsked := true;
      }
      if SpokenBy(content, User) {
        baAsked := false;
      }
      messageCount := messageCount + 1;
      if SpokenBy(content, BusinessAnalyst) {
        baQuestions := baQuestions + 1;
      }
      if SpokenBy(content, ProductOwner) && Contains(Upper(content.content), ReadyMarker) {
        readyForUserApproval := true;
        assert TurnState(messageCount, baAsked, baQuestions, true, false, history) == Step(before, content);
        break;
      }
      if messageCount > SafetyLimit {
        safetyLimitReached := true;
        assert TurnState(messageCount, baAsked, baQuestions, false, true, history) == Step(before, content);
        break;
      }
      if SpokenBy(content, BusinessAnalyst) && baQuestions > MaxAnalystQuestions {
        history := history + [CompletionNote];
        baAsked := false;
      }
      assert TurnState(messageCount, baAsked, baQuestions, false, false, history) == Step(before, content);
    }
    final := TurnState(messageCount, baAsked, baQuestions, readyForUserApproval, safetyLimitReached, history);
    RunKeepsInvariant(Initial(userInput), stream);
    ReadyMeansApprovalInHistory(final);
  }

  // ---------------------------------------------------------------------
  // What every reachable state satisfies

  /** The marker test of the loop and of `approval_in_history` agree. */
  lemma MarksReadyIsUnstripped(m: Message)
    ensures MarksReady(m) <==> SaysReadyUnstripped(m)
  {
    if Contains(Upper(m.content), ReadyMarker) {
      assert |Upper(m.content)| >= |ReadyMarker|;
    }
  }

  /**
   * Reachable states: at most 21 messages counted, at most 20 while the
   * loop runs; the safety stop happens exactly at 21 and never together
   * with approval; without approval no message of the history carries the
   * marker, and with approval the newest one does.
   */
  ghost predicate Invariant(s: TurnState) {
    && s.messageCount <= SafetyLimit + 1
    && (!Stopped(s) ==> s.messageCount <= SafetyLimit)
    && (s.safetyLimitReached ==> s.messageCount == SafetyLimit + 1 && !s.approvalReady)
    && (!s.approvalReady ==> forall k :: 0 <= k < |s.history| ==> !SaysReadyUnstripped(s.history[k]))
    && (s.approvalReady ==> |s.history| > 0 && SaysReadyUnstripped(s.history[|s.history| - 1]))
  }

  lemma InitialInvariant(userInput: string)
    ensures Invariant(Initial(userInput))
  {
  }

  lemma StepKeepsInvariant(s: TurnState, item: Message)
    requires !Stopped(s) && Invariant(s)
    ensures Invariant(Step(s, item))
  {
    MarksReadyIsUnstripped(item);
    var t := Step(s, item);
    var history := s.history + [item];
    if !t.approvalReady {
      assert !SaysReadyUnstripped(item);
      assert !SaysReadyUnstripped(CompletionNote);
      forall k | 0 <= k < |t.history| ensures !SaysReadyUnstripped(t.history[k]) {
        if k < |s.history| {
          assert t.history[k] == s.history[k];
        } else if k == |s.history| {
          assert t.history[k] == item;
        } else {
          assert t.history[k] == CompletionNote;
        }
      }
    } else {
      assert t.history == history;
    }
  }

  lemma {:induction false} RunKeepsInvariant(s: TurnState, items: seq<Message>)
    requires Invariant(s)
    ensures Invariant(Run(s, items))
    decreases |items|
  {
    if !Stopped(s) && items != [] {
      StepKeepsInvariant(s, items[0]);
      RunKeepsInvariant(Step(s, items[0]), items[1..]);
    }
  }

  /** In a reachable final state the loop's flag and the post-loop check agree. */
  lemma ReadyMeansApprovalInHistory(s: TurnState)
    requires Invariant(s)
    ensures s.approvalReady <==> ApprovalInHistory(s.history)
  {
    if s.approvalReady {
      assert WindowStart(s.history) <= |s.history| - 1;
    }
  }

  /**
   * Whatever the agents say: the count never exceeds 21, the safety stop
   * means exactly 21 counted messages, safety and approval exclude each
   * other, and the approval flag is set exactly when `approval_in_history`
   * sees the marker.
   */
  lemma RunBounds(userInput: string, stream: seq<Message>)
    ensures var final := Run(Initial(userInput), stream);
      && final.messageCount <= SafetyLimit + 1
      && (final.safetyLimitReached ==> final.messageCount == SafetyLimit + 1 && !final.approvalReady)
      && (final.approvalReady <==> ApprovalInHistory(final.history))
  {
    RunKeepsInvariant(Initial(userInput), stream);
    ReadyMeansApprovalInHistory(Run(Initial(userInput), stream));
  }

  // ---------------------------------------------------------------------
  // Single steps

  /** A repeated analyst message is recorded by the chat but changes nothing else. */
  lemma RepeatedAnalystSkipped(s: TurnState, item: Message)
    requires !Stopped(s) && s.baAsked && SpokenBy(item, BusinessAnalyst)
    ensures Step(s, item).messageCount == s.messageCount
    ensures Step(s, item).baQuestions == s.baQuestions
    ensures Step(s, item).baAsked
    ensures Step(s, item).history == s.history + [item]
    ensures !Stopped(Step(s, item))
  {
  }

  /**
   * The marker is tested before the limit: a marked ProductOwner message
   * ends the loop with approval even when it is the 21st counted message.
   */
  lemma MarkerBeatsLimit(s: TurnState, item: Message)
    requires !Stopped(s) && Invariant(s) && MarksReady(item)
    ensures Step(s, item).approvalReady && !Step(s, item).safetyLimitReached
    ensures Step(s, item).messageCount == s.messageCount + 1
  {
  }

  /**
   * A counted analyst message that makes it the third or a later question,
   * below the limit, adds exactly one closing analyst message after it, and
   * clears `ba_asked`.
   */
  lemma ThirdQuestionInjectsNote(s: TurnState, item: Message)
    requires !Stopped(s) && !s.baAsked && SpokenBy(item, BusinessAnalyst)
    requires s.baQuestions >= MaxAnalystQuestions && s.messageCount < SafetyLimit
    ensures Step(s, item).history == s.history + [item, CompletionNote]
    ensures !Step(s, item).baAsked && !Stopped(Step(s, item))
    ensures Step(s, item).baQuestions == s.baQuestions + 1
  {
  }

  /**
   * Every other pass, including an analyst question counted as the 21st
   * message, appends only the streamed message.
   */
  lemma NoNoteOtherwise(s: TurnState, item: Message)
    requires !Stopped(s) && !AddsNote(s, item)
    ensures Step(s, item).history == s.history + [item]
  {
  }

  // ---------------------------------------------------------------------
  // Whole runs

  /** The loop only ever appends to the history. */
  lemma {:induction false} RunExtendsHistory(s: TurnState, items: seq<Message>)
    ensures |s.history| <= |Run(s, items).history|
    ensures Run(s, items).history[..|s.history|] == s.history
    decreases |items|
  {
    if !Stopped(s) && items != [] {
      var t := Step(s, items[0]);
      assert t.history[..|s.history|] == s.history;
      RunExtendsHistory(t, items[1..]);
      assert Run(s, items).history[..|s.history|] == Run(s, items).history[..|t.history|][..|s.history|];
    }
  }

  /** `business_analyst_questions` counts one exactly while `ba_asked` is set. */
  ghost predicate OneQuestionOpen(s: TurnState) {
    s.baQuestions == if s.baAsked then 1 else 0
  }

  /**
   * Without a "User" message `ba_asked` stays set once an analyst has
   * spoken, so no pass adds the closing note: the loop's history is its
   * start followed by a prefix of the stream.
   */
  lemma {:induction false} RunWithoutUser(s: TurnState, items: seq<Message>)
    requires OneQuestionOpen(s)
    requires forall k :: 0 <= k < |items| ==> !SpokenBy(items[k], User)
    ensures OneQuestionOpen(Run(s, items))
    ensures |s.history| <= |Run(s, items).history| <= |s.history| + |items|
    ensures Run(s, items).history == s.history + items[..|Run(s, items).history| - |s.history|]
    decreases |items|
  {
    if !Stopped(s) && items != [] {
      var t := Step(s, items[0]);
      assert !SpokenBy(items[0], User) && !AddsNote(s, items[0]);
      assert t.history == s.history + [items[0]];
      forall k | 0 <= k < |items[1..]| ensures !SpokenBy(items[1..][k], User) {
        assert items[1..][k] == items[k + 1];
      }
      RunWithoutUser(t, items[1..]);
      var n := |Run(t, items[1..]).history| - |t.history|;
      assert [items[0]] + items[1..][..n] == items[..n + 1];
    } else {
      assert s.history + items[..0] == s.history;
    }
  }

  /**
   * Only a "User" message clears `ba_asked` before the third question, so
   * without one at most one analyst message is ever counted and the loop
   * never adds its closing note: after the user's request the history
   * holds streamed messages only, in stream order.
   */
  lemma AtMostOneQuestionWithoutUser(userInput: string, stream: seq<Message>)
    requires forall k :: 0 <= k < |stream| ==> !SpokenBy(stream[k], User)
    ensures Run(Initial(userInput), stream).baQuestions <= 1
    ensures 1 <= |Run(Initial(userInput), stream).history| <= 1 + |stream|
    ensures Run(Initial(userInput), stream).history
         == [UserRequest(userInput)] + stream[..|Run(Initial(userInput), stream).history| - 1]
  {
    RunWithoutUser(Initial(userInput), stream);
  }

  /** The loop sees no analyst message and no marker. */
  predicate Plain(m: Message) {
    !SpokenBy(m, BusinessAnalyst) && !MarksReady(m)
  }

  lemma {:induction false} PlainRunCounts(s: TurnState, items: seq<Message>)
    requires !Stopped(s) && s.messageCount <= SafetyLimit
    requires forall k :: 0 <= k < |items| ==> Plain(items[k])
    ensures s.messageCount + |items| <= SafetyLimit ==>
      !Stopped(Run(s, items)) && Run(s, items).messageCount == s.messageCount + |items|
    ensures s.messageCount + |items| > SafetyLimit ==> Run(s, items).safetyLimitReached
    decreases |items|
  {
    if items != [] {
      assert Plain(items[0]);
      var t := Step(s, items[0]);
      if !Stopped(t) {
        forall k | 0 <= k < |items[1..]| ensures Plain(items[1..][k]) {
          assert items[1..][k] == items[k + 1];
        }
        PlainRunCounts(t, items[1..]);
      }
    }
  }

  /**
   * A stream of 21 messages with no analyst message and no marker ends at
   * the safety limit; a shorter one never reaches it.
   */
  lemma SafetyLimitReachedByPlainStream(userInput: string, stream: seq<Message>)
    requires forall k :: 0 <= k < |stream| ==> Plain(stream[k])
    ensures Run(Initial(userInput), stream).safetyLimitReached <==> |stream| > SafetyLimit
  {
    PlainRunCounts(Initial(userInput), stream);
  }
}
