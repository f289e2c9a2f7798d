/** The /view command: the checks made before anything is fetched, and the reply to the post lookup. */
module ViewPost {
  import opened Common
  import PostEmbed
  import ApiMessages

  /** The post id option matches `^\d+$`: one or more ASCII digits and nothing else. */
  predicate ValidPostId(s: string) {
    s != [] && AllDigits(s)
  }

  /** Every post id the bot itself renders passes the check, and the check reads back the same number. */
  lemma RenderedIdsAreValid(n: nat)
    ensures ValidPostId(NatToString(n))
    ensures DigitsValue(NatToString(n)) == n
  {
    NatToStringValue(n);
  }

  /** Signs, white space and letters are refused. */
  lemma InvalidIdExamples(digits: string)
    requires AllDigits(digits)
    ensures !ValidPostId("")
    ensures !ValidPostId(['-'] + digits) && !ValidPostId([' '] + digits) && !ValidPostId(digits + ['a'])
  {
    assert (['-'] + digits)[0] == '-';
    assert ([' '] + digits)[0] == ' ';
    assert (digits + ['a'])[|digits|] == 'a';
  }

  /** The answer to `posts.json?tags=id:<id>`: the response with its status text, or the error thrown. */
  datatype Lookup = Answered(response: PostEmbed.PostsResponse, statusText: string) | Failed(error: ApiMessages.ApiError)

  datatype ViewEffect = Refuse(text: string) | Defer | ShowPost(message: PostEmbed.PostMessage) | EditText(text: string)

  const BadIdText := "Post ID must be a number."
  const NoUsernameText := "Bot owner has not configured E6AI_USERNAME in the .env file."

  /** The reply once the lookup is back: the post's message with its buttons, "not found" for a 200
      without posts, the status for any other status, and the error message when the lookup threw or
      the message could not be built; `neighbours` answers the message's neighbour lookups. */
  function ReplyTo(postId: string, lookup: Lookup, neighbours: PostEmbed.Neighbours): ViewEffect {
    match lookup
    case Failed(e) => EditText(ApiMessages.ErrorText(ApiMessages.ViewWording(), e))
    case Answered(r, statusText) =>
      if PostEmbed.HasPosts(r) then
        match PostEmbed.PostMessageOf(r.posts.value[0], Some(neighbours))
        case Generated(m) => ShowPost(m)
        case Rejected(e) => EditText(ApiMessages.ErrorText(ApiMessages.ViewWording(), e))
      else if r.status == 200 then EditText("Post with ID " + postId + " not found or no data returned.")
      else EditText("Failed to fetch post. Status: " + NatToString(r.status) + " - " + statusText)
  }

  /** The command: id check, then username check, then defer and look the post up. */
  function View(postId: string, username: Option<string>, lookup: Lookup, neighbours: PostEmbed.Neighbours): seq<ViewEffect> {
    if !ValidPostId(postId) then [Refuse(BadIdText)]
    else if !Truthy(username) then [Refuse(NoUsernameText)]
    else [Defer, ReplyTo(postId, lookup, neighbours)]
  }

  /** The checks come first and in order: an invalid id is refused whatever the configuration, and
      the reply is deferred (and the post looked up) exactly when both checks pass. */
  lemma ChecksBeforeLookup(postId: string, username: Option<string>, lookup: Lookup, neighbours: PostEmbed.Neighbours)
    ensures !ValidPostId(postId) ==> View(postId, username, lookup, neighbours) == [Refuse(BadIdText)]
    ensures (Defer in View(postId, username, lookup, neighbours)) <==> ValidPostId(postId) && Truthy(username)
    ensures (exists t :: t in View(postId, username, lookup, neighbours) && t.Refuse?) <==> !(ValidPostId(postId) && Truthy(username))
  {
    var v := View(postId, username, lookup, neighbours);
    if !(ValidPostId(postId) && Truthy(username)) {
      assert v[0] in v;
    }
  }

  /** A post is shown exactly when the lookup answered 200 with posts and the first one's message can
      be built: its extension is present and, unless it is deleted, both neighbour lookups answered.
      The shown message is that post's; a 200 without posts is "not found", never the status message;
      and a lookup or a message that throws ends in the error message. */
  lemma ReplyClassification(postId: string, lookup: Lookup, neighbours: PostEmbed.Neighbours)
    ensures ReplyTo(postId, lookup, neighbours).ShowPost? <==>
      lookup.Answered? && PostEmbed.HasPosts(lookup.response)
      && lookup.response.posts.value[0].ext.Some?
      && (PostEmbed.GetStatus(lookup.response.posts.value[0].flags) == PostEmbed.Deleted
          || (neighbours.before.Answered? && neighbours.after.Answered?))
    ensures ReplyTo(postId, lookup, neighbours).ShowPost? ==>
      ReplyTo(postId, lookup, neighbours).message.title == "Post #" + NatToString(lookup.response.posts.value[0].id)
    ensures lookup.Answered? && lookup.response.status == 200 && !PostEmbed.HasPosts(lookup.response) ==>
      ReplyTo(postId, lookup, neighbours) == EditText("Post with ID " + postId + " not found or no data returned.")
    ensures lookup.Failed? ==> ApiMessages.ViewWording().opening <= ReplyTo(postId, lookup, neighbours).text
    ensures lookup.Answered? && PostEmbed.HasPosts(lookup.response) && !ReplyTo(postId, lookup, neighbours).ShowPost? ==>
      ApiMessages.ViewWording().opening <= ReplyTo(postId, lookup, neighbours).text
  {
    if lookup.Answered? && PostEmbed.HasPosts(lookup.response) {
      var post := lookup.response.posts.value[0];
      PostEmbed.GenerateRejects(post, Some(neighbours));
      if PostEmbed.PostMessageOf(post, Some(neighbours)).Generated? {
        PostEmbed.MessageFields(post, Some(neighbours));
      }
    }
  }
}
