/** The bot's e6ai inbox as the dmail poller and the dmail command handlers see it:
    the messages, the replies and notifications they produce, and the shared set of
    message ids already dealt with. */
module Inbox {
  import opened Common
  import PostEmbed

  /** A direct message ("dmail") as listed by `dmails.json`. */
  datatype Dmail = Dmail(
    id: nat,
    fromId: Option<nat>,
    title: Option<string>,
    body: Option<string>,
    isRead: bool)

  /** `String(dmail.from_id)`: the decimal id, or `undefined` when the sender is absent. */
  function SenderText(d: Dmail): (s: string)
    ensures d.fromId.None? ==> s == "undefined"
    ensures d.fromId.Some? ==> AllDigits(s) && s != []
  {
    if d.fromId.Some? then NatToString(d.fromId.value) else "undefined"
  }

  /** `if (dmail.from_id)`: present and not zero. */
  predicate HasSender(d: Dmail) {
    d.fromId.Some? && d.fromId.value != 0
  }

  /** Titles of the dmails the bot sends: a literal text, or the title produced by the
      invalid-command reply module from the original title. */
  datatype MailTitle = Titled(text: string) | InvalidCommandTitle(original: Option<string>)

  /** Bodies of the dmails the bot sends: the fixed texts of the two "invalid" replies. */
  datatype MailBody = InvalidCommandBody | InvalidReplacementBody

  /** The embed announcing a replacement request. */
  datatype RequestEmbed = RequestEmbed(description: string, postLink: string, imageLink: string, author: string)

  /** What a check of the inbox does to the outside world, in order. */
  datatype Effect =
    | FetchInbox
    | MarkRead(dmailId: nat)
    | SendDmail(to: Option<nat>, title: MailTitle, body: MailBody)
    | LookupUser(userId: nat)
    | ChannelEmbed(embed: RequestEmbed)
    | OwnerNotice(embed: RequestEmbed)
    | LookupPost(postId: string, authenticated: bool)
    | ChannelPost(message: PostEmbed.PostMessage)
    | ChannelText(text: string)
    | RunCommand(name: string, dmailId: nat)

  /** The `Set` of processed dmail ids, one object shared by the poller and the command handlers. */
  class IdSet {
    var ids: set<nat>

    constructor()
      ensures ids == {}
    {
      ids := {};
    }

    predicate Has(id: nat)
      reads this
    {
      id in ids
    }

    method Add(id: nat)
      modifies this
      ensures ids == old(ids) + {id}
    {
      ids := ids + {id};
    }

    method Clear()
      modifies this
      ensures ids == {}
    {
      ids := {};
    }
  }
}
