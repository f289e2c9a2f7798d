# e6aibot core, modelled in Dafny

e6aibot is a Discord bot that works with the e6ai.net REST API. This project models the parts of it
that make decisions. Every call to the API, to Discord or to the clock becomes a parameter: an abstract
answer, or a list of effects the model returns in order.

The modelled parts are:

- **The dmail poller** (`Poller`). This is a class whose state is the in-progress flag and the shared
  set of processed dmail ids (`Inbox.IdSet`). A check of the inbox:
  - reads the configuration guard;
  - filters the unread dmails;
  - skips dmails already processed and dmails the bot sent itself;
  - routes each remaining dmail by its lower-cased title through the registry built when the module
    loads;
  - falls back to the "invalid command" reply when the title names no command;
  - clears the set when nothing is unread.
- **The `replacement` dmail command** (`Replacement`):
  - the two line-anchored, case-insensitive matchers for `Post:` and `New Image:`, written by hand
    rather than as a regular-expression engine;
  - the invalid-request reply;
  - the author label of the announcement;
  - the public lookup, then the authenticated `status:any` retry;
  - the post's message or the not-found text in the channel, and the display-error text when any of
    that throws;
  - the channel-or-owner fallback.
- **Post presentation** (`PostEmbed`): status precedence, colour, the BBCode-to-Markdown rewriter, the
  inline-image test, and the button row with its disabled flags. Building the message can fail: a null
  file extension throws, and a rejected neighbour lookup rejects the whole message.
- **The button handlers and slash commands**:
  - `ReplacementButtons`: accept and decline;
  - `ViewPost`: `/view`;
  - `ReplacePost`: `/replace`;
  - `ReplaceCommand`: the older replace command;
  - `Navigation`: the prev, next and undelete buttons shared by `/view` and `/replace`;
  - `ApiMessages`: the failure and error messages;
  - `Components`: disabling buttons in place on an array.
- **The mention reply and the uptime line** (`Ping`).

The model keeps the source's own form. Code that mutates state becomes methods with `modifies` clauses:
the poller, the processed-id set, the button rows, the error-message builder and the uptime
decomposition. Each such method is proved against a specification function. The decision logic becomes
functions, and its properties are proved as lemmas.

Configuration values are parameters. The shipped `config.js` exports neither a bot id nor a janitor
list, although `modules/dmail.js` and `modules/Commands/ReplacePost.js` read both. The model keeps that
behaviour:
- `Poller.ShippedConfigIsNoop` shows that every check of the inbox then does nothing.
- `ReplacePost.ChecksFirst` shows that every `/replace` run ends in the generic error.

The `Post:` pattern accepts only links to e6ai.net. A link to another host, such as example.net, gives no
post field (`Replacement.OtherHostRejected`).

## Model

| member | source | states |
|---|---|---|
| Common.LowerString | modules/dmail.js:25 | `toLowerCase` keeps the length and lower-cases each ASCII letter, position by position |
| Common.Split | modules/interactions/replacementHandler.js:6 | `split` with a one-character separator yields at least one piece, and no piece contains the separator |
| Common.JoinSplit | modules/interactions/replacementHandler.js:6 | splitting loses nothing: joining the pieces with the separator gives back the original string |
| Common.SplitJoin | modules/Replacements/replaceCommand.js:8 | joining separator-free pieces and splitting again gives the same pieces |
| Common.SplitWithoutSeparator | modules/Commands/ViewPost.js:59 | a string without the separator splits into itself alone |
| Common.SplitAtFirst | modules/Commands/ReplacePost.js:13 | `a:b`, where `a` has no separator, splits into `a` followed by the pieces of `b` |
| Common.NatToString | modules/postEmbed.js:46 | `String(id)` is a non-empty run of digits, with a leading zero only for 0 |
| Common.NatToStringValue | modules/postEmbed.js:46 | reading the rendered digits back gives the number |
| Common.NatToStringInjective | modules/postEmbed.js:80 | distinct ids render as distinct custom ids |
| Common.Truncate | modules/Commands/ReplacePost.js:265 | `substring(0, n)` is a prefix of at most `n` characters, and the whole string when it is short enough |
| Components.AllDisabledShape | modules/interactions/replacementHandler.js:55-57 | disabling keeps every button's id and the button count, and leaves every button disabled |
| Components.AllDisabledIdempotent | modules/Commands/ViewPost.js:99 | disabling an already disabled row changes nothing |
| Components.DisableAll | modules/interactions/replacementHandler.js:55-57 | the in-place loop leaves the array equal to the disabled row of its old contents |
| Components.DisableAt | modules/Commands/ViewPost.js:84-85 | exactly the button at the index is disabled when the row has one there; otherwise nothing changes |
| Inbox.SenderText | modules/dmail.js:86 | `String(from_id)` is `undefined` for a missing sender and otherwise a non-empty digit string |
| Inbox.IdSet.Add | modules/dmail.js:126 | `add` puts exactly the id into the set |
| Inbox.IdSet.Clear | modules/dmail.js:131 | `clear` empties the set |
| Poller.BuildRegistry | modules/dmail.js:18-32 | the loading loop gives the registry of the modules in directory order, skipping a module that fails to load or lacks `name` or `execute` |
| Poller.RegistryEntries | modules/dmail.js:24-25 | a key is registered exactly when some module registers under it, and it holds the last such module's handler |
| Poller.RegistryKeysLower | modules/dmail.js:25 | every registry key is already lower-case |
| Poller.RouteIff | modules/dmail.js:90-93 | a title selects a registered command exactly when it equals the key up to ASCII case: no trimming and no prefix match |
| Poller.RepositoryRegistry | modules/dmail.js:19-25 | the repository's commands directory gives the single key `replacement` |
| Poller.RepositoryRouting | modules/dmail.js:90-93 | any capitalisation of `replacement` reaches the replacement handler; a trailing space or a missing title does not |
| Poller.RouteSingle | modules/dmail.js:90-93 | in a one-entry registry, a title routes to the entry exactly when it equals the key up to case |
| Poller.Unread | modules/dmail.js:81 | the unread filter keeps exactly the dmails with a falsy `is_read` and never lengthens the list |
| Poller.UnreadIdempotent | modules/dmail.js:81 | filtering twice is filtering once |
| Poller.DmailPoller.constructor | modules/dmail.js:12-32 | loading the module builds the registry, starts with an empty set and leaves the flag clear |
| Poller.DmailPoller.Process | modules/dmail.js:85-127 | one loop iteration has the effects and the new set of the `Step` function: skip, fallback, or handler |
| Poller.DmailPoller.Sweep | modules/dmail.js:84-129 | the loop over the unread dmails has the effects and the new set of `Loop`, in listing order |
| Poller.DmailPoller.CheckDmail | modules/dmail.js:53-139 | a check during another check does nothing and leaves the set alone; otherwise it does what `Tick` says and clears the flag on every exit |
| Poller.NoListingNoDispatch | modules/dmail.js:61-79 | without username, API key or bot id, or without a list, no handler runs and the set is unchanged |
| Poller.ShippedConfigIsNoop | modules/dmail.js:61-64 | with no bot id configured, a check has no effect at all |
| Poller.LoopOnlyAdds | modules/dmail.js:84-129 | the loop never removes an id, and adds only ids of dmails it was given |
| Poller.DispatchTouchesOnlyOwn | modules/dmail.js:90-127 | handling a dmail runs commands and read marks for that dmail only, and records at most its id |
| Poller.NoRedispatch | modules/dmail.js:85 | no id already in the set gets a command run or a read mark again |
| Poller.SkippedLeaveNoTrace | modules/dmail.js:85-88 | processed dmails and the bot's own dmails are passed over without any effect |
| Poller.ReadDmailsIgnored | modules/dmail.js:81 | a check of the listing equals the check of its unread part |
| Poller.ClearOnlyWhenNothingUnread | modules/dmail.js:83-132 | no unread dmail empties the set; otherwise the set only grows |
| Poller.UnknownTitleFallsBack | modules/dmail.js:99-127 | an unknown title gets the read mark and the reply, and the id is recorded whatever the send gives |
| Poller.Tick | modules/dmail.js:61-132 | one check: the configuration guard, the listing, the clear when nothing is unread, else the loop |
| Poller.Step | modules/dmail.js:85-127 | one unread dmail: skipped when processed or sent by the bot, dispatched otherwise |
| Poller.Dispatch | modules/dmail.js:90-127 | the routed command with the id recorded when it completes, or the fallback reply with the id recorded |
| Poller.RegistryPathLeavesRecording | modules/dmail.js:93-98 | on the registry path, the id is recorded exactly when the handler records it |
| Replacement.Run | modules/dmail_commands/replacement.js:11-12 | a greedy run takes the longest prefix whose characters all qualify |
| Replacement.SchemeLength | modules/dmail_commands/replacement.js:11-12 | `https?://` is recognised in any letter case, with its own length |
| Replacement.LinkStart | modules/dmail_commands/replacement.js:11-12 | the `\s*` after a tag ends inside the text |
| Replacement.MatchPostSound | modules/dmail_commands/replacement.js:11-18 | a post match has the tag, white space, an http(s) link that really occurs there, and the whole digit run as the id; nothing after the digits is checked |
| Replacement.MatchPostComplete | modules/dmail_commands/replacement.js:11-18 | every line of that shape, in any letter case, is recognised with exactly that link and id |
| Replacement.PostLinkSound | modules/dmail_commands/replacement.js:11 | the link part is a scheme, the post path and the whole digit run |
| Replacement.MatchImageSound | modules/dmail_commands/replacement.js:12-19 | an image match has the tag, white space, an http(s) link that occurs there, and the whole non-space run |
| Replacement.MatchImageComplete | modules/dmail_commands/replacement.js:12-19 | every image line of that shape is recognised with exactly that link |
| Replacement.ImageLinkSound | modules/dmail_commands/replacement.js:12 | the image link is a scheme followed by the maximal non-space run |
| Replacement.FirstLineMatch | modules/dmail_commands/replacement.js:14-15 | a match found by `String.match` with the m flag is at a line start |
| Replacement.FirstLineMatchIsFirst | modules/dmail_commands/replacement.js:14-15 | the match found is the leftmost line start that matches; when none is found, no line start matches |
| Replacement.SkipLine | modules/dmail_commands/replacement.js:14-15 | a first line that does not match is skipped, so line order does not matter |
| Replacement.NoMatchOneLine | modules/dmail_commands/replacement.js:14-15 | a one-line body without a match yields nothing |
| Replacement.Parse | modules/dmail_commands/replacement.js:14-21 | a request is well-formed exactly when both fields are found, and it carries both captures |
| Replacement.EmptyBodyIsMalformed | modules/dmail_commands/replacement.js:10-21 | the empty body has neither field |
| Replacement.MatchPostAfterTag | modules/dmail_commands/replacement.js:11 | after the tag and its white space, a post line is decided by its link alone |
| Replacement.MatchImageAfterTag | modules/dmail_commands/replacement.js:12 | after the tag and its white space, an image line is decided by its link alone |
| Replacement.PostLinkNeedsHost | modules/dmail_commands/replacement.js:11 | a link to another host is not a post link |
| Replacement.FieldAtStart | modules/dmail_commands/replacement.js:14-15 | a match at the start of the body is the field |
| Replacement.ParseTwoLines | modules/dmail_commands/replacement.js:11-19 | the usual two-line body gives the post id and the image link |
| Replacement.ParseImageFirst | modules/dmail_commands/replacement.js:11-19 | with the lines swapped, lower-case tags, `\s*` across a newline and text after the digits, the request is still parsed |
| Replacement.OtherHostRejected | modules/dmail_commands/replacement.js:11 | a `Post:` link to example.net gives no post field |
| Replacement.LookUpAuthor | modules/dmail_commands/replacement.js:81-103 | the sender is looked up only when `from_id` is truthy, and the label is the name, `User ID n`, the error variant or `Unknown Sender` |
| Replacement.Display | modules/dmail_commands/replacement.js:111-136 | the public lookup, the authenticated retry only after a 200 with no posts, then the post's message or the not-found text; when any of that throws, the display-error text follows, and the display throws on only when that send is rejected too |
| Replacement.Execute | modules/dmail_commands/replacement.js:9-147 | the handler's effects follow `Handle`, and the shared set gains the dmail's id exactly when the run completes |
| Replacement.MissingBodyIsMalformed | modules/dmail_commands/replacement.js:10-66 | a dmail without a body gets the read mark, the `Re: ` reply and is recorded |
| Replacement.RespondCompletes | modules/dmail_commands/replacement.js:65-146 | the id is recorded exactly when the request is invalid, or the channel notification goes out and the display does not end in a rejected error-text send, or there is no channel and the owner is missing or notified |
| Replacement.CompletedMarksRead | modules/dmail_commands/replacement.js:23-145 | a run completes exactly when it marks the dmail read, which is the last step for a valid request |
| Replacement.AuthRetryIff | modules/dmail_commands/replacement.js:108-123 | for a valid request, the authenticated lookup happens exactly when the channel notification went out and the public lookup answered 200 with missing or empty posts |
| Replacement.NoChannelGoesToOwner | modules/dmail_commands/replacement.js:106-142 | without a text channel nothing goes to a channel, and the owner is told exactly when the request is valid and the owner is found |
| Replacement.SenderLookedUpIff | modules/dmail_commands/replacement.js:81-87 | the sender is looked up exactly for a valid request with a truthy `from_id` |
| Replacement.DisplayTouchesNothing | modules/dmail_commands/replacement.js:111-136 | displaying the post, its catch included, neither marks read, nor runs a command, nor looks up a user |
| Replacement.DisplayCatches | modules/dmail_commands/replacement.js:111-136 | the try block throws exactly when the deciding lookup rejects, the post found has a null extension, or the channel message is rejected; the display-error text is sent exactly then; the display throws on exactly when that send is rejected as well |
| Replacement.FoundPostIsSent | modules/dmail_commands/replacement.js:126-129 | a post's message reaches the channel exactly when the deciding lookup found a post with an extension |
| Replacement.DisplayRetryIff | modules/dmail_commands/replacement.js:117-123 | the display makes the authenticated lookup exactly when the public one answered 200 with missing or empty posts |
| Replacement.ErrorTextDiffers | modules/dmail_commands/replacement.js:131-135 | the not-found text and the display-error text are different messages |
| Replacement.SendAbout | modules/dmail_commands/replacement.js:126-132 | building and sending the post's message, or sending the not-found text, gives the effects and the throw `ShowPost` describes |
| Replacement.ShowTouchesNothing | modules/dmail_commands/replacement.js:126-132 | the channel message sends nothing but the message itself: no lookup, read mark or command |
| Replacement.Announce | modules/dmail_commands/replacement.js:69-146 | a valid request's author lookup, notification, display and read mark give the effects and the completion `Respond` describes |
| Replacement.AuthorLabel | modules/dmail_commands/replacement.js:81-103 | the author line: the sender's name, `User ID n` for a nameless sender, the error variant for a failed lookup, `Unknown Sender` for a falsy `from_id` |
| Replacement.DisplayPost | modules/dmail_commands/replacement.js:111-136 | the try block of the display followed by its catch, which sends the display-error text |
| Replacement.Respond | modules/dmail_commands/replacement.js:23-146 | the invalid reply, or the announcement to the channel (then the display) or to the owner, and the read mark when nothing threw |
| Replacement.Handle | modules/dmail_commands/replacement.js:9-147 | one run of the handler: the body is parsed and the request answered as `Respond` says |
| Replacement.RespondTouchesOnlyOwn | modules/dmail_commands/replacement.js:23-145 | the handler marks only its own dmail read and runs no command |
| Replacement.HandleTouchesOnlyOwn | modules/dmail_commands/replacement.js:9-147 | whatever the body and the answers, only the handler's own dmail is marked read |
| PostEmbed.GetStatus | modules/postEmbed.js:16-20 | Deleted exactly when `deleted` is set; Pending exactly when pending and not deleted; otherwise Active |
| PostEmbed.FindCI | modules/postEmbed.js:25-28 | a case-insensitive search result lies inside the text |
| PostEmbed.FindCIFirst | modules/postEmbed.js:25-28 | the search finds an occurrence, and the first one; when it finds none there is none |
| PostEmbed.TagMatch | modules/postEmbed.js:25-28 | a non-greedy tag pair match ends inside the text |
| PostEmbed.TagMatchSound | modules/postEmbed.js:25-28 | the match has the opening tag at the start and the first closing tag right after the content |
| PostEmbed.ClosingOnLine | modules/postEmbed.js:29 | the lazy `\[.*?\]` closes at a `]` with no line terminator before it |
| PostEmbed.StripLeavesNoPair | modules/postEmbed.js:29 | after the last pass, no `[` is closed by a `]` on the same line |
| PostEmbed.StripKeepsBreaks | modules/postEmbed.js:29 | the last pass removes no line terminator |
| PostEmbed.RewriteKeepsBreaks | modules/postEmbed.js:25-28 | a tag pass with single-line tags keeps every line terminator, in order |
| PostEmbed.FormatDescriptionNoPair | modules/postEmbed.js:22-31 | the formatted description never holds a single-line `[...]` |
| PostEmbed.FormatDescriptionKeepsBreaks | modules/postEmbed.js:24-30 | formatting keeps every line break of the description, in order |
| PostEmbed.FormatDescriptionEmpty | modules/postEmbed.js:23 | a missing or empty description becomes `No description provided.` |
| PostEmbed.RewriteSkips | modules/postEmbed.js:25-28 | a text without `[` passes through a tag pass unchanged |
| PostEmbed.RewriteTagged | modules/postEmbed.js:25-28 | a tag pair in any letter case around `[`-free text becomes the wrapped text |
| PostEmbed.BoldItalicBecomesTripleStar | modules/postEmbed.js:25 | `[b][i]x[/i][/b]` becomes `***x***` |
| PostEmbed.BoldBecomesDoubleStar | modules/postEmbed.js:27 | `[B]x[/b]` becomes `**x**`; the earlier passes leave it alone |
| PostEmbed.ButtonsFor | modules/postEmbed.js:75-107 | a deleted post gets `undelete:<id>` alone; otherwise `view_prev` and `view_next`, each disabled exactly when its neighbour lookup found nothing |
| PostEmbed.GeneratePostMessage | modules/postEmbed.js:33-113 | the step-by-step construction settles as `PostMessageOf` describes: the message, or the rejection for a null extension or a rejected neighbour lookup |
| PostEmbed.GenerateRejects | modules/postEmbed.js:33-113 | the message is rejected exactly for a null extension, or for buttons on a post that is not deleted when a neighbour lookup rejects; a null extension gives its own error, and otherwise the first rejected lookup's error is passed on |
| PostEmbed.DeletedIgnoresNeighbours | modules/postEmbed.js:75-91 | a deleted post's message does not depend on the neighbour answers, because none is looked up |
| PostEmbed.PostMessageOf | modules/postEmbed.js:33-113 | `generatePostMessage`: colour, title, description, approver, attachment, inline image and the button row, or the rejection |
| PostEmbed.FormatDescription | modules/postEmbed.js:22-31 | the fallback text for a missing description, then the four tag passes and the bracket strip |
| PostEmbed.Rewrite | modules/postEmbed.js:25-28 | one global, case-insensitive tag-pair replacement with the shortest content |
| PostEmbed.StripBrackets | modules/postEmbed.js:29 | the removal of every `[...]` that closes on its own line |
| PostEmbed.ColourFollowsStatus | modules/postEmbed.js:34-42 | in a built message, red exactly for deleted posts, yellow exactly for pending ones that are not deleted, green otherwise |
| PostEmbed.MessageFields | modules/postEmbed.js:46-109 | in a built message, the title `Post #<id>`; components exactly when buttons were asked for; an approver field exactly for a truthy approver id; inline only for an attached png, jpg, jpeg or gif |
| PostEmbed.InlineExtensionExamples | modules/postEmbed.js:68 | the extension test ignores letter case |
| ReplacementButtons.ParseMakeCustomId | modules/interactions/replacementHandler.js:6 | the three `_`-free parts come back out of the custom id |
| ReplacementButtons.ReactionNotifies | modules/interactions/replacementHandler.js:8-48 | accept and decline each give the ephemeral reply naming the post and the requester, then a dmail to the third part with the Approved or Declined title and the body naming `#<postId>`, all with their exact texts; any other action gives neither |
| ReplacementButtons.Reaction | modules/interactions/replacementHandler.js:8-49 | the ephemeral reply and the dmail for accept and for decline, and nothing for another action |
| ReplacementButtons.ParseCustomId | modules/interactions/replacementHandler.js:6 | `customId.split('_')` read as action, post id and target user id, with `undefined` for a missing part |
| ReplacementButtons.RoutedHasAction | index.js:69-71 | a click the router hands over always carries one of the two actions |
| ReplacementButtons.ActionBeforeSeparator | modules/interactions/replacementHandler.js:6 | the action is the text before the first `_` |
| ReplacementButtons.HandleReplacement | modules/interactions/replacementHandler.js:5-62 | the reply and the dmail, then every button of the first row disabled in place, for any action |
| ApiMessages.FailureMessage | modules/Commands/ReplacePost.js:260-268 | every failure message begins with `Failed to replace post ID <id>.` |
| ApiMessages.ReasonFirst | modules/Commands/ReplacePost.js:260-261 | a reason decides the failure message whatever the message and the JSON |
| ApiMessages.MessageSecond | modules/Commands/ReplacePost.js:262-263 | without a reason, a message decides it whatever the JSON |
| ApiMessages.JsonBounded | modules/Commands/ReplacePost.js:264-265 | the JSON is quoted only without reason and message, and then at most 1500 characters of it, as a prefix |
| ApiMessages.ErrorText | modules/Commands/ReplacePost.js:272 | every error message begins with the command's opening sentence |
| ApiMessages.BuildErrorMessage | modules/Commands/ReplacePost.js:270-286 | the message built with `+=` is the one `ErrorText` describes |
| ApiMessages.ErrorReasonFirst | modules/Commands/ReplacePost.js:275-276 | in an error message, a reason is shown whatever the message and the details |
| ApiMessages.ErrorDetailsBounded | modules/Commands/ReplacePost.js:277-278 | the details quote at most 500 characters of the JSON |
| Navigation.ButtonIndexMatchesRow | modules/Commands/ViewPost.js:84 | the index disabled for a direction is where the post message puts that direction's button |
| Navigation.ClickPermissions | modules/Commands/ReplacePost.js:13-59 | navigation only for the invoker and only for `view_prev` or `view_next`; undelete exactly for a listed janitor |
| Navigation.OwnButtonNavigates | modules/Commands/ViewPost.js:59-67 | the invoker's click on the post's own button navigates from that post in the clicked direction |
| Navigation.Matching | modules/Commands/ViewPost.js:70 | the posts `id:>n` or `id:<n` selects are exactly those beyond `n`, still in ascending order |
| Navigation.NeighbourIsAdjacent | modules/Commands/ViewPost.js:65-70 | with `order:` the answer is the adjacent post in that direction, and there is none exactly when no post lies beyond |
| Navigation.AsWrittenPrevAgrees | modules/Commands/ReplacePost.js:68 | without an order, going back still finds the adjacent post |
| Navigation.AsWrittenNextSkips | modules/Commands/ReplacePost.js:68 | without an order, going forward from post 1 among 1, 2 and 3 lands on 3 |
| Navigation.OnNavigate | modules/Commands/ViewPost.js:77-91 | a found neighbour's message replaces the message when it can be built, and otherwise the follow-up is sent; none found disables only the clicked direction's button in place; a rejected lookup gets the follow-up; the row changes only in the none-found case |
| Navigation.FoundNeighbourShown | modules/Commands/ViewPost.js:77-80 | a found neighbour's message is built exactly when its extension is present and, unless it is deleted, its own neighbour lookups answered; it is that post's message, with buttons |
| Navigation.ViewClick | modules/Commands/ViewPost.js:53-67 | /view's collector: `not for you` for another user, nothing for another action, otherwise navigation from the clicked post |
| Navigation.ReplaceClick | modules/Commands/ReplacePost.js:12-65 | /replace's collector: undelete for the janitors first, then the invoker check, then prev and next |
| Navigation.Answer | modules/Commands/ViewPost.js:70 | the one post `limit=1` returns among those beyond the current id, in the requested order or newest first |
| Navigation.OnEnd | modules/Commands/ViewPost.js:94-101 | at the end, every button of the first row, if there is one, is disabled |
| ViewPost.RenderedIdsAreValid | modules/Commands/ViewPost.js:20 | every id the bot renders passes `^\d+$` and reads back as the same number |
| ViewPost.InvalidIdExamples | modules/Commands/ViewPost.js:20-23 | the empty id, a sign, a space or a letter is refused |
| ViewPost.ChecksBeforeLookup | modules/Commands/ViewPost.js:20-31 | an invalid id is refused whatever the configuration; the reply is deferred exactly when both checks pass |
| ViewPost.ReplyClassification | modules/Commands/ViewPost.js:43-132 | the first post is shown exactly for a 200 with posts whose message can be built (an extension, and both neighbour lookups answered unless the post is deleted), and it is that post's message; a 200 without posts gets the not-found text; a rejected lookup or message gets the error message |
| ViewPost.ReplyTo | modules/Commands/ViewPost.js:33-132 | the reply once the lookup is back: the post's message, not found, the status line, or the error message |
| ViewPost.View | modules/Commands/ViewPost.js:17-31 | the id check, the username check, then the deferred reply and the lookup |
| ReplacePost.ChecksFirst | modules/Commands/ReplacePost.js:142-170 | nothing is deferred before every check passes; a refusal is a single reply; a missing janitor list always gives the generic error |
| ReplacePost.CheckOrder | modules/Commands/ReplacePost.js:142-168 | authorisation, then the reason, then the type, then the credentials; an empty list admits everybody; all pass exactly when each holds |
| ReplacePost.NoUploadWithoutOldImage | modules/Commands/ReplacePost.js:183-188 | without the old image's URL the reply says so and nothing is uploaded |
| ReplacePost.UploadNeedsDownload | modules/Commands/ReplacePost.js:183-216 | the attachment is downloaded first; something is uploaded exactly when the download succeeds, and a failed download ends in the error message for its error |
| ReplacePost.SuccessAndUndelete | modules/Commands/ReplacePost.js:190-244 | the old image is shown exactly after a download and a successful upload, and the post is undeleted exactly then with the option set |
| ReplacePost.AfterSuccess | modules/Commands/ReplacePost.js:190-244 | after a download and a successful upload the old image is shown, and undeletion follows the option |
| ReplacePost.AfterNoSuccess | modules/Commands/ReplacePost.js:190-268 | after a failed download or a failed upload neither the old image nor undeletion happens |
| ReplacePost.RefetchNeverUndeletes | modules/Commands/ReplacePost.js:246-259 | the refetch neither undeletes nor shows the old image |
| ReplacePost.FailureReported | modules/Commands/ReplacePost.js:260-268 | a non-success answer ends with the failure message right after the download and the upload |
| ReplacePost.RefetchWithoutPostsThrows | modules/Commands/ReplacePost.js:251-286 | a 200 refetch without `posts` ends in the error message; a 200 with an empty list gets the could-not-refresh notice |
| ReplacePost.RefetchShown | modules/Commands/ReplacePost.js:251-256 | a refetched post is shown exactly when its message can be built, and as that post's message; otherwise the reply ends in the error message |
| ReplacePost.Check | modules/Commands/ReplacePost.js:142-168 | the checks in order: janitor list, reason length, file type, credentials |
| ReplacePost.RefetchSteps | modules/Commands/ReplacePost.js:246-259 | the refetch: the refreshed post's message, the could-not-refresh notice, or the error |
| ReplacePost.AfterDefer | modules/Commands/ReplacePost.js:172-286 | the old post's lookup, the download, the upload and what follows it, or the error message |
| ReplacePost.Replace | modules/Commands/ReplacePost.js:141-287 | one run: the generic error, a refusal, or the deferred reply and the rest |
| ReplaceCommand.AllowlistRoundTrip | modules/Replacements/replaceCommand.js:8-31 | ids joined with commas come back as the allowlist, which admits exactly them |
| ReplaceCommand.UnsetAdmitsEverybody | modules/Replacements/replaceCommand.js:8-28 | an unset or empty variable admits everybody |
| ReplaceCommand.ImageTypesNarrower | modules/Replacements/replaceCommand.js:42 | this command takes still images only, a subset of what `/replace` takes |
| ReplaceCommand.SuccessMessage | modules/Replacements/replaceCommand.js:81-89 | every success message begins with `Successfully submitted replacement for post ID <id>` |
| ReplaceCommand.SuccessPriority | modules/Replacements/replaceCommand.js:81-86 | a location decides the message whatever the other members; without one, `success: true` decides it whatever the id |
| ReplaceCommand.UploadOnlyAfterChecks | modules/Replacements/replaceCommand.js:28-78 | the image is downloaded exactly when every check passes, and uploaded exactly when in addition the download succeeds |
| ReplaceCommand.SubmitNeedsDownload | modules/Replacements/replaceCommand.js:55-78 | the submission starts with the download; the upload follows exactly when it succeeds, and a failed download ends in the command's error message |
| ReplaceCommand.Check | modules/Replacements/replaceCommand.js:28-51 | the checks in order: allowlist, reason length, image type, credentials |
| ReplaceCommand.Run | modules/Replacements/replaceCommand.js:26-99 | one run: a refusal, or the deferred reply, the download, the upload and the reply |
| ReplaceCommand.ReplyText | modules/Replacements/replaceCommand.js:80-98 | the success message for 200, 201 or 204, the failure message otherwise, the error message for a rejected upload |
| ReplaceCommand.ReplyFollowsStatus | modules/Replacements/replaceCommand.js:80-99 | an answered upload is reported as a success exactly when its status is 200, 201 or 204 |
| Ping.GetUptime | modules/ping.js:4-13 | the decomposition has hours below 24 and minutes and seconds below 60, recomposes to the whole seconds of uptime, and is rendered as `<d>d, <h>h, <m>m, <s>s` |
| Ping.DecompositionUnique | modules/ping.js:6-11 | only one decomposition satisfies those bounds, so the line is determined by the uptime |
| Ping.RepliesOnlyToMentions | modules/ping.js:37-48 | a reply is sent exactly to a mention by a non-bot, and it shows the main view |
| Ping.OnMessage | modules/ping.js:37-48 | the typing indicator and the greeting with the main view for a human's mention, nothing otherwise |
| Ping.OnInteraction | modules/ping.js:50-104 | the about view for `about`, the main view for `back_to_ping_main`, nothing for anything else |
| Ping.ButtonRouting | modules/ping.js:50-104 | only button interactions with `about` or `back_to_ping_main` act; `about` shows the about view and the back button restores the first reply's view |

## Left out

- Network, Discord and file-system calls are not modelled directly. Axios requests, FormData, the embed and button builders, channel and user fetches, collectors, and `require` of the command files are replaced by abstract answers and by effect lists.
- Timers and concurrency are not modelled: the 15-second interval, the 2-second sleeps, the one-hour collectors, and the concurrency of `Promise.all` for the neighbour lookups (their failures are modelled). The in-progress flag is modelled as a sequential guard.
- `formatBytes`, the `Date` timestamps and the `new URL` file-name extraction use floating point, dates and URL parsing, and are not part of this model.
- Ping.GetUptime: the source divides a floating-point uptime; the model counts whole milliseconds, which gives the same whole seconds.
- Ping.ButtonRouting: the contents of the about embed (version, fixed texts, link buttons) are not modelled; only which view is shown.
- `toLowerCase` and the `i` flag are modelled as ASCII case folding. This is exact for the regular expressions, but not for `String.toLowerCase` on non-ASCII titles and extensions.
- JavaScript string lengths and `substring` count UTF-16 code units; the model counts characters.
- A dmail command module whose `name` is not a string is not modelled.
- Commands other than `replacement` are opaque. Only whether they record the id is a parameter, because the command directory ships none.
- The invalid-command reply module is not part of this model. Its title and body are kept symbolic (`InvalidCommandTitle`, `InvalidCommandBody`).
- `JSON.stringify` of a response body is a parameter (`ApiData.json`).
- Logging is left out, including the lines that report a 406 answer as success; they change no effect.
- `markDmailAsRead` catches its own errors, so its outcome is left out. In the replacement handler, the channel notification, the post or not-found message and the display-error text can each be rejected; all three are modelled (`Env.notifyFails`, `Env.postSendFails`, `Env.errorSendFails`). A rejected display-error send ends the run before the read mark, so the id is not recorded. The owner's notice is modelled by `Env.notifyFails` too.
- Discord replies, edits and follow-ups that reject in /view, /replace, the navigation buttons and the accept and decline buttons are not modelled; each is taken to succeed.
- The undelete button's own request, wait, refetch and message replacement (modules/Commands/ReplacePost.js:20-51) are not modelled beyond who may press it.
- Navigation.OnNavigate and Navigation.OnEnd assume the message's first row is present, as the source does; a message edited to lose its row is not modelled.
- Axios rejects every status outside 2xx. Each lookup, download and upload is modelled as either an answer or a rejection (`LookupFailed`, `DownloadFailed`, `UploadFailed` and the like). An answer with a status outside 2xx is allowed by the model but never produced.
- When both neighbour lookups of a post message reject, `Promise.all` passes on whichever rejection settles first; the model passes on the `id:<` lookup's error.
- Other field accesses in `generatePostMessage` that can throw are assumed to succeed: a null `file`, a missing `score`, and a `file.url` that `new URL` refuses. Only a null `file.ext` is modelled.
- The command router in index.js is modelled only by its generic error reply and by the prefix test for the accept and decline buttons. Loading the commands, deploy-commands.js and ecosystem.config.js are plumbing.

## Findings

| source | as written | input that shows it | evidently intended | confidence | as-written member | corrected member |
|---|---|---|---|---|---|---|
| modules/Commands/ReplacePost.js:68 | the prev and next query of `/replace` asks for `id:>n` or `id:<n` with `limit=1` but no `order:`, so the server's default order (newest first) picks the post | posts 1, 2 and 3 exist; "next" from post 1 shows post 3 and skips post 2 | `order:id_asc` forward and `order:id_desc` back, as `/view` does at modules/Commands/ViewPost.js:70 | medium, not executed; depends on the server's default order | Navigation.AsWrittenNextSkips | Navigation.NeighbourIsAdjacent |

