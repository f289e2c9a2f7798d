/** The mention reply and its two views, and the uptime line shown in the "about" view. */
module Ping {
  import opened Common

  /** Days, hours, minutes and seconds of uptime. */
  datatype Uptime = Uptime(days: nat, hours: nat, minutes: nat, seconds: nat)

  function UptimeText(u: Uptime): string {
    NatToString(u.days) + "d, " + NatToString(u.hours) + "h, " + NatToString(u.minutes) + "m, "
      + NatToString(u.seconds) + "s"
  }

  /** A well-formed decomposition of `total` seconds. */
  predicate Decomposes(u: Uptime, total: nat) {
    u.hours < 24 && u.minutes < 60 && u.seconds < 60
    && u.days * 86400 + u.hours * 3600 + u.minutes * 60 + u.seconds == total
  }

  /** Splits the uptime into whole days, hours, minutes and seconds, taking the remainder after each
      step as the source does; the uptime is counted here in whole milliseconds. */
  method GetUptime(uptimeMs: nat) returns (u: Uptime, text: string)
    ensures Decomposes(u, uptimeMs / 1000)
    ensures text == UptimeText(u)
  {
    var total := uptimeMs;
    var days := total / 86400000;
    total := total % 86400000;
    var hours := total / 3600000;
    total := total % 3600000;
    var minutes := total / 60000;
    var seconds := (total % 60000) / 1000;
    u := Uptime(days, hours, minutes, seconds);
    text := UptimeText(u);
    DecompositionSteps(uptimeMs, days, hours, minutes, seconds);
  }

  lemma DecompositionSteps(ms: nat, days: nat, hours: nat, minutes: nat, seconds: nat)
    requires days == ms / 86400000
    requires hours == (ms % 86400000) / 3600000
    requires minutes == ((ms % 86400000) % 3600000) / 60000
    requires seconds == (((ms % 86400000) % 3600000) % 60000) / 1000
    ensures Decomposes(Uptime(days, hours, minutes, seconds), ms / 1000)
  {
    var r1 := ms % 86400000;
    var r2 := r1 % 3600000;
    var r3 := r2 % 60000;
    assert ms == days * 86400000 + r1;
    assert r1 == hours * 3600000 + r2;
    assert r2 == minutes * 60000 + r3;
    assert r3 == seconds * 1000 + r3 % 1000;
    assert ms == (days * 86400 + hours * 3600 + minutes * 60 + seconds) * 1000 + r3 % 1000;
  }

  /** There is only one such decomposition, so the line is determined by the uptime. */
  lemma DecompositionUnique(u: Uptime, v: Uptime, total: nat)
    requires Decomposes(u, total) && Decomposes(v, total)
    ensures u == v
  {
    var a := u.hours * 3600 + u.minutes * 60 + u.seconds;
    var b := v.hours * 3600 + v.minutes * 60 + v.seconds;
    QuotientUnique(u.days, a, v.days, b, 86400);
    QuotientUnique(u.hours, u.minutes * 60 + u.seconds, v.hours, v.minutes * 60 + v.seconds, 3600);
    QuotientUnique(u.minutes, u.seconds, v.minutes, v.seconds, 60);
  }

  lemma QuotientUnique(q1: nat, r1: nat, q2: nat, r2: nat, n: nat)
    requires r1 < n && r2 < n && q1 * n + r1 == q2 * n + r2
    ensures q1 == q2 && r1 == r2
  {
    if q1 > q2 {
      StepApart(q1, q2, n);
      assert false;
    } else if q2 > q1 {
      StepApart(q2, q1, n);
      assert false;
    }
  }

  lemma StepApart(q1: nat, q2: nat, n: nat)
    requires q1 > q2
    ensures q1 * n >= q2 * n + n
  {
    var k: nat := q1 - q2 - 1;
    assert q1 * n == (q2 + k + 1) * n == q2 * n + k * n + n;
  }

  // ---------------------------------------------------------------- the handlers

  /** The two views of the reply: the greeting card, and the "about" card with the uptime line. */
  datatype View = MainView | AboutView(uptime: string)

  datatype PingEffect = Typing | Reply(content: string, view: View) | Update(view: View)

  /** A new message: from a bot, or mentioning this bot, by the author with this id. */
  datatype Message = Message(fromBot: bool, mentionsBot: bool, authorId: string)

  function OnMessage(m: Message): seq<PingEffect> {
    if m.fromBot then []
    else if m.mentionsBot then [Typing, Reply("Howdy <@" + m.authorId + ">! How can I help you?", MainView)]
    else []
  }

  /** Only a human's mention gets a reply, and it greets the author and shows the main view. */
  lemma RepliesOnlyToMentions(m: Message)
    ensures OnMessage(m) != [] <==> !m.fromBot && m.mentionsBot
    ensures OnMessage(m) != [] ==> OnMessage(m)[1].Reply? && OnMessage(m)[1].view == MainView
  {
  }

  /** An interaction: whether it is a button, and its custom id. */
  datatype Interaction = Interaction(isButton: bool, customId: string)

  /** The button handler; `uptime` is the line the about view shows at that moment. */
  function OnInteraction(i: Interaction, uptime: string): seq<PingEffect> {
    if !i.isButton then []
    else ((if i.customId == "about" then [Update(AboutView(uptime))] else [])
          + (if i.customId == "back_to_ping_main" then [Update(MainView)] else []))
  }

  /** Only the two buttons do anything: "about" switches to the about view and "back_to_ping_main"
      restores the main view, which is the one the reply first showed. */
  lemma ButtonRouting(i: Interaction, uptime: string)
    ensures OnInteraction(i, uptime) != [] <==> i.isButton && i.customId in {"about", "back_to_ping_main"}
    ensures i.isButton && i.customId == "about" ==> OnInteraction(i, uptime) == [Update(AboutView(uptime))]
    ensures i.isButton && i.customId == "back_to_ping_main" ==>
      OnInteraction(i, uptime) == [Update(OnMessage(Message(false, true, ""))[1].view)]
  {
    if i.customId == "back_to_ping_main" {
      assert i.customId != "about" by {
        assert |i.customId| != |"about"|;
      }
    }
  }
}
