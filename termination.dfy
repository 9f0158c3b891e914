/**
 * The completion test: the chat ends when one of the five most recent
 * messages is the ProductOwner's and says "READY FOR USER APPROVAL"
 * (`ApprovalTerminationStrategy.should_agent_terminate`). After the turn
 * loop, `approval_in_history` asks the same question without stripping.
 */
module Termination {
  import opened PyStrings
  import opened Chat

  const ReadyMarker: string := "READY FOR USER APPROVAL"

  /** How many of the newest messages are looked at. */
  const Window: nat := 5

  /** The index `history[-5:]` starts at. */
  function WindowStart(history: seq<Message>): (w: nat)
    ensures w <= |history|
    ensures |history| - w == if |history| < Window then |history| else Window
  {
    if |history| <= Window then 0 else |history| - Window
  }

  /**
   * The test applied to one message by `should_agent_terminate`: spoken by
   * the ProductOwner, non-empty, and the marker in the stripped, upper-cased
   * content.
   */
  predicate SaysReady(m: Message) {
    && SpokenBy(m, ProductOwner)
    && |m.content| > 0
    && Contains(Upper(Strip(m.content)), ReadyMarker)
  }

  /**
   * The same test as the post-loop `approval_in_history` writes it, without
   * the strip; the marker begins and ends with a letter, so stripping the
   * content first never changes the answer.
   */
  predicate SaysReadyUnstripped(m: Message)
    ensures SaysReadyUnstripped(m) <==> SaysReady(m)
  {
    StripKeepsPattern(m.content, ReadyMarker);
    && SpokenBy(m, ProductOwner)
    && |m.content| > 0
    && Contains(Upper(m.content), ReadyMarker)
  }

  /** Some message among the last five says it is ready. */
  predicate ReadyInRecent(history: seq<Message>) {
    exists i :: WindowStart(history) <= i < |history| && SaysReady(history[i])
  }

  /**
   * `approval_in_history`: `any(...)` over `chat.history[-5:]`. It agrees
   * with the termination strategy on every history.
   */
  predicate ApprovalInHistory(history: seq<Message>)
    ensures ApprovalInHistory(history) <==> ReadyInRecent(history)
  {
    exists i :: WindowStart(history) <= i < |history| && SaysReadyUnstripped(history[i])
  }

  /**
   * `should_agent_terminate`: walks `reversed(history[-5:])`, newest first,
   * and returns at the first message that says it is ready.
   */
  method ShouldAgentTerminate(history: seq<Message>) returns (terminate: bool)
    ensures terminate <==> ReadyInRecent(history)
  {
    var start := WindowStart(history);
    var i := |history|;
    while i > start
      invariant start <= i <= |history|
      invariant forall k :: i <= k < |history| ==> !SaysReady(history[k])
    {
      i := i - 1;
      var message := history[i];
      if SpokenBy(message, ProductOwner) && |message.content| > 0
         && Contains(Upper(Strip(message.content)), ReadyMarker)
      {
        return true;
      }
    }
    return false;
  }

  /** Messages older than the last five never matter. */
  lemma OnlyLastFiveMatter(older: seq<Message>, recent: seq<Message>)
    requires |recent| >= Window
    ensures ReadyInRecent(older + recent) <==> ReadyInRecent(recent)
  {
    var h := older + recent;
    forall i | WindowStart(h) <= i < |h| ensures h[i] == recent[i - |older|] && WindowStart(recent) <= i - |older| {
    }
    if ReadyInRecent(recent) {
      var i :| WindowStart(recent) <= i < |recent| && SaysReady(recent[i]);
      assert h[i + |older|] == recent[i];
    }
  }

  /**
   * Only ProductOwner messages matter: two histories of the same length
   * whose ProductOwner messages coincide give the same answer, whatever the
   * other speakers say.
   */
  lemma OnlyProductOwnerMatters(h1: seq<Message>, h2: seq<Message>)
    requires |h1| == |h2|
    requires forall i :: 0 <= i < |h1| && (SpokenBy(h1[i], ProductOwner) || SpokenBy(h2[i], ProductOwner)) ==> h1[i] == h2[i]
    ensures ReadyInRecent(h1) <==> ReadyInRecent(h2)
  {
    if ReadyInRecent(h1) {
      var i :| WindowStart(h1) <= i < |h1| && SaysReady(h1[i]);
      assert h1[i] == h2[i];
    }
    if ReadyInRecent(h2) {
      var i :| WindowStart(h2) <= i < |h2| && SaysReady(h2[i]);
      assert h1[i] == h2[i];
    }
  }
}
