/**
 * The reply rule of the chat relay: every inbound "chat message" is answered
 * with exactly one "bot reply", chosen from the outcome of the intent call.
 */
module Relay {
  import opened Wrappers

  /** The outcome of `detectIntent` as the handler sees it: a response whose
      `queryResult.fulfillmentText` is present or missing, or a failure
      (the call rejected, or the response had no `queryResult`). */
  datatype IntentOutcome = Answered(fulfillmentText: Option<string>) | Failed

  const NoReply: string := "(no reply)"
  const Apology: string := "Sorry, I had trouble understanding that."

  /** The reply to one message: the fulfillment text when it is present and
      non-empty (a JavaScript string is falsy exactly when empty), the
      no-reply marker otherwise, and the apology when the call failed. */
  function BotReply(o: IntentOutcome): (r: string)
    ensures o.Failed? ==> r == Apology
    ensures o.Answered? && o.fulfillmentText.Some? && o.fulfillmentText.value != [] ==>
      r == o.fulfillmentText.value
    ensures o.Answered? && (o.fulfillmentText.None? || o.fulfillmentText.value == []) ==> r == NoReply
    ensures r != []
  {
    match o
    case Failed => Apology
    case Answered(text) =>
      if text.Some? && text.value != [] then text.value else NoReply
  }

  /** The replies one connection emits for its inbound messages, whose intent
      calls ended in `outcomes`: one reply per message, each decided by that
      message's own outcome alone. */
  function SessionReplies(outcomes: seq<IntentOutcome>): (r: seq<string>)
    ensures |r| == |outcomes|
    ensures forall i :: 0 <= i < |outcomes| ==> r[i] == BotReply(outcomes[i])
  {
    if outcomes == [] then []
    else [BotReply(outcomes[0])] + SessionReplies(outcomes[1..])
  }

  /** A failed intent call affects no other message's reply: replacing the
      outcome of message `i` by a failure changes the reply to message `i`
      (to the apology) and no other. */
  lemma {:induction false} FailureIsContained(outcomes: seq<IntentOutcome>, i: nat)
    requires i < |outcomes|
    ensures var after := SessionReplies(outcomes[i := Failed]);
      && after[i] == Apology
      && forall j :: 0 <= j < |outcomes| && j != i ==> after[j] == SessionReplies(outcomes)[j]
  {
    var changed := outcomes[i := Failed];
    assert forall j :: 0 <= j < |outcomes| && j != i ==> changed[j] == outcomes[j];
  }
}
