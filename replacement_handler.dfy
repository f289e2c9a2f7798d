/** The Accept and Decline buttons under a replacement request: the custom id they carry, the reply and
    dmail they produce, and the disabling of the row they sit in. */
module ReplacementButtons {
  import opened Common
  import opened Components

  const AcceptAction := "accept-replacement"
  const DeclineAction := "decline-replacement"

  /** What a click produces, in order: the ephemeral reply, the dmail to the requester (attempted;
      a failed send is only logged), and the edit of the message's first row. */
  datatype ButtonEffect = Ephemeral(content: string) | Notify(toId: string, title: string, body: string) | EditRow

  /** `customId.split('_')` destructured into action, post id and target user id; a missing part
      is `undefined` and renders as such. */
  datatype CustomId = CustomId(action: string, postId: string, targetUserId: string)

  function ParseCustomId(customId: string): CustomId {
    var parts := Split(customId, '_');
    CustomId(Part(parts, 0), Part(parts, 1), Part(parts, 2))
  }

  /** A custom id of the shape the button router hands to this handler: the parts with `_` between them. */
  function MakeCustomId(action: string, postId: string, targetUserId: string): string {
    action + ['_'] + postId + ['_'] + targetUserId
  }

  /** Parts free of `_` come back out of the custom id unchanged. */
  lemma ParseMakeCustomId(action: string, postId: string, targetUserId: string)
    requires '_' !in action && '_' !in postId && '_' !in targetUserId
    ensures ParseCustomId(MakeCustomId(action, postId, targetUserId)) == CustomId(action, postId, targetUserId)
  {
    var rest := postId + ['_'] + targetUserId;
    assert MakeCustomId(action, postId, targetUserId) == action + ['_'] + rest;
    SplitAtFirst(action, '_', rest);
    SplitAtFirst(postId, '_', targetUserId);
    SplitWithoutSeparator(targetUserId, '_');
  }

  /** The reply and the dmail for each action; any other action produces neither. */
  function Reaction(id: CustomId): seq<ButtonEffect> {
    if id.action == AcceptAction then
      [Ephemeral("Replacement for post " + id.postId + " accepted. Informing user " + id.targetUserId + "."),
       Notify(id.targetUserId, "Replacement Request Approved",
              "Your replacement request for post #" + id.postId + " has been approved and will be processed shortly.")]
    else if id.action == DeclineAction then
      [Ephemeral("Replacement for post " + id.postId + " declined. Informing user " + id.targetUserId + "."),
       Notify(id.targetUserId, "Replacement Request Declined",
              "Your replacement request for post #" + id.postId + " has been declined.")]
    else []
  }

  /** Each recognised action first answers the clicker, naming the post and the requester, then
      dmails the requester, addressed to the third part of the id, with a title and a body that give
      the outcome and name the post by the second part; an unknown action sends neither. */
  lemma ReactionNotifies(id: CustomId)
    ensures |Reaction(id)| == (if id.action == AcceptAction || id.action == DeclineAction then 2 else 0)
    ensures |Reaction(id)| == 2 ==>
      Reaction(id)[0].Ephemeral? && Reaction(id)[1].Notify? && Reaction(id)[1].toId == id.targetUserId
    ensures id.action == AcceptAction ==>
      Reaction(id)[0].content == "Replacement for post " + id.postId + " accepted. Informing user " + id.targetUserId + "."
      && Reaction(id)[1].title == "Replacement Request Approved"
      && Reaction(id)[1].body == "Your replacement request for post #" + id.postId + " has been approved and will be processed shortly."
    ensures id.action == DeclineAction ==>
      Reaction(id)[0].content == "Replacement for post " + id.postId + " declined. Informing user " + id.targetUserId + "."
      && Reaction(id)[1].title == "Replacement Request Declined"
      && Reaction(id)[1].body == "Your replacement request for post #" + id.postId + " has been declined."
  {
  }

  /** The button router hands a click over exactly when the id starts with one of the two actions and `_`. */
  predicate Routed(customId: string) {
    (|customId| > |AcceptAction| && customId[..|AcceptAction| + 1] == AcceptAction + ['_'])
    || (|customId| > |DeclineAction| && customId[..|DeclineAction| + 1] == DeclineAction + ['_'])
  }

  /** A routed click always carries one of the two actions. */
  lemma RoutedHasAction(customId: string)
    requires Routed(customId)
    ensures ParseCustomId(customId).action in {AcceptAction, DeclineAction}
  {
    if |customId| > |AcceptAction| && customId[..|AcceptAction| + 1] == AcceptAction + ['_'] {
      ActionBeforeSeparator(customId, AcceptAction);
    } else {
      ActionBeforeSeparator(customId, DeclineAction);
    }
  }

  lemma ActionBeforeSeparator(customId: string, action: string)
    requires '_' !in action
    requires |customId| > |action| && customId[..|action| + 1] == action + ['_']
    ensures ParseCustomId(customId).action == action
  {
    var rest := customId[|action| + 1..];
    assert customId == action + ['_'] + rest;
    SplitAtFirst(action, '_', rest);
  }

  /** The handler: reply, dmail, then every button of the first row disabled in place, whatever the action. */
  method HandleReplacement(customId: string, row: array<Button>) returns (effects: seq<ButtonEffect>)
    modifies row
    ensures effects == Reaction(ParseCustomId(customId)) + [EditRow]
    ensures row[..] == AllDisabled(old(row[..]))
  {
    var id := ParseCustomId(customId);
    effects := Reaction(id);
    DisableAll(row);
    effects := effects + [EditRow];
  }
}
