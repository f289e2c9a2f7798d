/** The previous/next buttons under a post, shared by /view and /replace: who may click what,
    the neighbour query a click sends, and what happens to the row when there is no neighbour. */
module Navigation {
  import opened Common
  import opened Components
  import PostEmbed

  datatype Direction = Prev | Next

  datatype Order = IdAsc | IdDesc

  /** `view_next` goes forward; the only other action that gets here, `view_prev`, goes back. */
  function DirectionOf(action: string): Direction {
    if action == "view_next" then Next else Prev
  }

  /** The id comparison of the query, `>` forward and `<` back. */
  function OperatorOf(d: Direction): char {
    if d == Next then '>' else '<'
  }

  /** The order /view asks for: ascending ids forward, descending back. */
  function OrderOf(d: Direction): Order {
    if d == Next then IdAsc else IdDesc
  }

  /** The position in the row of the button for `d`. */
  function ButtonIndex(d: Direction): nat {
    if d == Next then 1 else 0
  }

  /** Each direction's button index is where the post message puts that direction's button. */
  lemma ButtonIndexMatchesRow(post: PostEmbed.Post, n: PostEmbed.Neighbours, d: Direction)
    requires PostEmbed.GetStatus(post.flags) != PostEmbed.Deleted
    ensures var row := PostEmbed.ButtonsFor(post, n);
      && ButtonIndex(d) < |row|
      && row[ButtonIndex(d)].customId == (if d == Next then "view_next:" else "view_prev:") + NatToString(post.id)
      && (row[ButtonIndex(d)].disabled <==> !PostEmbed.Found(if d == Next then n.after else n.before))
  {
  }

  // ---------------------------------------------------------------- clicks

  /** A click: who pressed the button and the button's custom id. */
  datatype Click = Click(userId: string, customId: string)

  /** What the collector does with a click. */
  datatype ClickResult =
    | NotForYou                                       // "These buttons are not for you."
    | NotAuthorized                                   // "You are not authorized to use this button."
    | Ignored                                         // an action that is neither prev nor next
    | Navigate(direction: Direction, currentPostId: string)
    | Undelete(postId: string)
    | ClickThrows                                     // the janitor list is undefined

  /** The action and the post id of `customId.split(':')`. */
  function ActionOf(customId: string): string {
    Part(Split(customId, ':'), 0)
  }

  function PostIdOf(customId: string): string {
    Part(Split(customId, ':'), 1)
  }

  /** /view's collector: only the user who ran the command, and only prev and next. */
  function ViewClick(invoker: string, c: Click): ClickResult {
    var action := ActionOf(c.customId);
    if c.userId != invoker then NotForYou
    else if action != "view_prev" && action != "view_next" then Ignored
    else Navigate(DirectionOf(action), PostIdOf(c.customId))
  }

  /** /replace's collector: `undelete` for the janitors (the list is undefined in the shipped
      configuration, which throws), prev and next for the user who ran the command. */
  function ReplaceClick(invoker: string, janitors: Option<seq<string>>, c: Click): ClickResult {
    var action := ActionOf(c.customId);
    if action == "undelete" then
      if janitors.None? then ClickThrows
      else if c.userId !in janitors.value then NotAuthorized
      else Undelete(PostIdOf(c.customId))
    else ViewClick(invoker, c)
  }

  /** Who may do what: navigation only for the invoker, undeletion only for a listed janitor. */
  lemma ClickPermissions(invoker: string, janitors: Option<seq<string>>, c: Click)
    ensures ViewClick(invoker, c).Navigate? ==>
      (c.userId == invoker && ActionOf(c.customId) in {"view_prev", "view_next"})
    ensures ReplaceClick(invoker, janitors, c).Navigate? ==> c.userId == invoker
    ensures ReplaceClick(invoker, janitors, c).Undelete? <==>
      ActionOf(c.customId) == "undelete" && janitors.Some? && c.userId in janitors.value
    ensures ReplaceClick(invoker, janitors, c).Navigate? ==> ReplaceClick(invoker, janitors, c) == ViewClick(invoker, c)
  {
  }

  /** The invoker's click on a button of the post's own row navigates from that post, in the direction
      whose button index is the one clicked. */
  lemma OwnButtonNavigates(invoker: string, post: PostEmbed.Post, n: PostEmbed.Neighbours, k: nat)
    requires PostEmbed.GetStatus(post.flags) != PostEmbed.Deleted
    requires k < 2
    ensures var c := Click(invoker, PostEmbed.ButtonsFor(post, n)[k].customId);
      && ViewClick(invoker, c).Navigate?
      && ButtonIndex(ViewClick(invoker, c).direction) == k
      && ViewClick(invoker, c).currentPostId == NatToString(post.id)
  {
    var id := NatToString(post.id);
    assert ':' !in id;
    if k == 0 {
      assert "view_prev:" + id == "view_prev" + [':'] + id;
      SplitAtFirst("view_prev", ':', id);
    } else {
      assert "view_next:" + id == "view_next" + [':'] + id;
      SplitAtFirst("view_next", ':', id);
    }
    SplitWithoutSeparator(id, ':');
  }

  // ---------------------------------------------------------------- the neighbour query

  /** The post ids on the server, in ascending order. */
  predicate Ascending(ids: seq<nat>) {
    forall i, j :: 0 <= i < j < |ids| ==> ids[i] < ids[j]
  }

  /** `x` satisfies the query's comparison `id:<op><cur>`, where `<op>` is `OperatorOf(d)`. */
  predicate Beyond(x: nat, d: Direction, cur: nat) {
    if OperatorOf(d) == '>' then x > cur else x < cur
  }

  /** The ids matching `id:>cur` (or `id:<cur`), in ascending order. */
  function Matching(ids: seq<nat>, d: Direction, cur: nat): (r: seq<nat>)
    ensures forall x :: x in r <==> x in ids && Beyond(x, d, cur)
    ensures Ascending(ids) ==> Ascending(r)
  {
    if ids == [] then []
    else if Beyond(ids[0], d, cur) then
      var rest := Matching(ids[1..], d, cur);
      assert Ascending(ids) ==> Ascending([ids[0]] + rest) by {
        if Ascending(ids) {
          forall x | x in rest
            ensures ids[0] < x
          {
            AscendingHead(ids, x);
          }
          AscendingCons(ids[0], rest);
        }
      }
      [ids[0]] + rest
    else Matching(ids[1..], d, cur)
  }

  lemma AscendingCons(h: nat, rest: seq<nat>)
    requires Ascending(rest) && forall x :: x in rest ==> h < x
    ensures Ascending([h] + rest)
  {
    forall i, j | 0 <= i < j < |[h] + rest|
      ensures ([h] + rest)[i] < ([h] + rest)[j]
    {
      assert rest[j - 1] in rest;
    }
  }

  lemma AscendingHead(ids: seq<nat>, x: nat)
    requires Ascending(ids) && ids != [] && x in ids[1..]
    ensures ids[0] < x
  {
    var k :| 0 <= k < |ids[1..]| && ids[1..][k] == x;
    assert ids[k + 1] == x;
  }

  /** The one post `limit=1` returns: the first in the requested order; the server's own order,
      when none is requested, is newest (highest id) first. */
  function Answer(ids: seq<nat>, d: Direction, cur: nat, order: Option<Order>): Option<nat> {
    var m := Matching(ids, d, cur);
    if m == [] then None
    else if order == Some(IdAsc) then Some(m[0])
    else Some(m[|m| - 1])
  }

  /** /view's query, with `order:id_asc` forward and `order:id_desc` back. */
  function ViewNeighbour(ids: seq<nat>, d: Direction, cur: nat): Option<nat> {
    Answer(ids, d, cur, Some(OrderOf(d)))
  }

  /** /replace's query as written: the same id comparison, but no order. */
  function ReplaceNeighbourAsWritten(ids: seq<nat>, d: Direction, cur: nat): Option<nat> {
    Answer(ids, d, cur, None)
  }

  /** /replace's query with the order /view uses. */
  function ReplaceNeighbour(ids: seq<nat>, d: Direction, cur: nat): Option<nat> {
    Answer(ids, d, cur, Some(OrderOf(d)))
  }

  /** With the order, the answer is the adjacent post in that direction, and there is none exactly
      when no post lies beyond the current one. */
  lemma NeighbourIsAdjacent(ids: seq<nat>, d: Direction, cur: nat)
    requires Ascending(ids)
    ensures ReplaceNeighbour(ids, d, cur).None? <==> forall x :: x in ids ==> !Beyond(x, d, cur)
    ensures ReplaceNeighbour(ids, d, cur).Some? ==>
      var n := ReplaceNeighbour(ids, d, cur).value;
      && n in ids && Beyond(n, d, cur)
      && forall x :: x in ids && Beyond(x, d, cur) ==> (if d == Next then n <= x else x <= n)
  {
    var m := Matching(ids, d, cur);
    if m != [] {
      assert m[0] in m && m[|m| - 1] in m;
      forall x | x in ids && Beyond(x, d, cur)
        ensures if d == Next then m[0] <= x else x <= m[|m| - 1]
      {
        var k :| 0 <= k < |m| && m[k] == x;
      }
    } else {
      forall x | x in ids
        ensures !Beyond(x, d, cur)
      {
      }
    }
  }

  /** As written, going back is unaffected: the server's own order is the one /view asks for. */
  lemma AsWrittenPrevAgrees(ids: seq<nat>, cur: nat)
    ensures ReplaceNeighbourAsWritten(ids, Prev, cur) == ReplaceNeighbour(ids, Prev, cur)
  {
  }

  /** As written, going forward from post 1 among posts 1, 2 and 3 lands on 3, skipping 2. */
  lemma AsWrittenNextSkips()
    ensures ReplaceNeighbourAsWritten([1, 2, 3], Next, 1) == Some(3)
    ensures ReplaceNeighbour([1, 2, 3], Next, 1) == Some(2)
  {
    assert Matching([1, 2, 3], Next, 1) == [2, 3] by {
      assert [1, 2, 3][1..] == [2, 3];
      assert [2, 3][1..] == [3];
      assert [3][1..] == [];
    }
  }

  // ---------------------------------------------------------------- the answer to a click

  datatype NavEffect = ShowPost(message: PostEmbed.PostMessage) | EditRow | FollowUp(text: string)

  const FetchErrorText := "An error occurred while fetching the post."

  /** After a navigation click: the neighbour's message, with its buttons, replaces the message, or the
      clicked direction's button alone is disabled in place. A lookup or a message that throws, or a
      row without that button, gets the follow-up. `neighbours` answers the new message's own
      neighbour lookups. */
  method OnNavigate(d: Direction, answer: PostEmbed.PostLookup, neighbours: PostEmbed.Neighbours, row: array<Button>)
    returns (e: NavEffect)
    modifies row
    ensures PostEmbed.Found(answer) ==> row[..] == old(row[..])
    ensures PostEmbed.Found(answer) ==>
      match PostEmbed.PostMessageOf(answer.response.posts.value[0], Some(neighbours))
      case Generated(m) => e == ShowPost(m)
      case Rejected(_) => e == FollowUp(FetchErrorText)
    ensures answer.LookupFailed? ==> e == FollowUp(FetchErrorText) && row[..] == old(row[..])
    ensures answer.Answered? && !PostEmbed.HasPosts(answer.response) ==>
      if ButtonIndex(d) < row.Length
      then e == EditRow && row[..] == old(row[..])[ButtonIndex(d) := old(row[ButtonIndex(d)]).(disabled := true)]
      else e == FollowUp(FetchErrorText) && row[..] == old(row[..])
  {
    if answer.LookupFailed? {
      return FollowUp(FetchErrorText);
    }
    var r := answer.response;
    if r.status == 200 && r.posts.Some? && |r.posts.value| > 0 {
      var g := PostEmbed.GeneratePostMessage(r.posts.value[0], Some(neighbours));
      if g.Rejected? {
        return FollowUp(FetchErrorText);
      }
      return ShowPost(g.message);
    }
    var ok := DisableAt(row, ButtonIndex(d));
    e := if ok then EditRow else FollowUp(FetchErrorText);
  }

  /** A found neighbour is shown exactly when its message can be built: its extension is present and,
      unless it is deleted, its own neighbour lookups answered; the shown message is that post's. */
  lemma FoundNeighbourShown(answer: PostEmbed.PostLookup, neighbours: PostEmbed.Neighbours)
    requires PostEmbed.Found(answer)
    ensures var post := answer.response.posts.value[0];
      var g := PostEmbed.PostMessageOf(post, Some(neighbours));
      && (g.Generated? <==>
            post.ext.Some?
            && (PostEmbed.GetStatus(post.flags) == PostEmbed.Deleted || (neighbours.before.Answered? && neighbours.after.Answered?)))
      && (g.Generated? ==> g.message.title == "Post #" + NatToString(post.id) && g.message.components.Some?)
  {
    var post := answer.response.posts.value[0];
    PostEmbed.GenerateRejects(post, Some(neighbours));
    if PostEmbed.PostMessageOf(post, Some(neighbours)).Generated? {
      PostEmbed.MessageFields(post, Some(neighbours));
    }
  }

  /** When the collector ends: every button of the message's first row, if it has one, is disabled. */
  method OnEnd(rows: seq<array<Button>>)
    modifies if |rows| > 0 then {rows[0]} else {}
    ensures |rows| > 0 ==> rows[0][..] == AllDisabled(old(rows[0][..]))
  {
    if |rows| > 0 {
      DisableAll(rows[0]);
    }
  }
}
