/** How a post is presented in chat: its status and colour, the BBCode-to-Markdown
    rewriting of its description, whether its file is shown inline, and which
    navigation buttons it gets. */
module PostEmbed {
  import opened Common
  import Components
  import opened ApiMessages

  datatype Flags = Flags(deleted: bool, pending: bool)

  datatype Status = Active | Pending | Deleted

  /** The fields of a post record that the presentation decisions read. */
  datatype Post = Post(
    id: nat,
    flags: Flags,
    description: Option<string>,
    ext: Option<string>,
    fileUrl: Option<string>,
    approverId: Option<nat>)

  /** A `posts.json` answer as the bot inspects it: the HTTP status and the `posts` property, if any. */
  datatype PostsResponse = PostsResponse(status: nat, posts: Option<seq<Post>>)

  /** The test the bot applies before using `posts[0]`: status 200 and a non-empty `posts` list. */
  predicate HasPosts(r: PostsResponse) {
    r.status == 200 && r.posts.Some? && |r.posts.value| > 0
  }

  /** How a `posts.json` request ends: with an answer, or by rejecting with the error axios throws
      (no answer at all, or, under axios's default check, a status outside 2xx). */
  datatype PostLookup = Answered(response: PostsResponse) | LookupFailed(error: ApiError)

  /** A lookup that answered 200 with at least one post. */
  predicate Found(l: PostLookup) {
    l.Answered? && HasPosts(l.response)
  }

  // ---------------------------------------------------------------- status and colour

  /** Deletion wins over pending; a post that is neither is active. */
  function GetStatus(flags: Flags): (s: Status)
    ensures s == Deleted <==> flags.deleted
    ensures s == Pending <==> flags.pending && !flags.deleted
    ensures s == Active <==> !flags.deleted && !flags.pending
  {
    if flags.deleted then Deleted else if flags.pending then Pending else Active
  }

  function StatusText(s: Status): string {
    match s
    case Deleted => "Deleted"
    case Pending => "Pending"
    case Active => "Active"
  }

  const Red := "#FF0000"
  const Yellow := "#FFFF00"
  const Green := "#33cc33"

  // ---------------------------------------------------------------- description

  const NoDescription := "No description provided."

  /** The first index at which `pat` occurs in `t` up to ASCII case (see `FindCIFirst`). */
  function FindCI(t: string, pat: string): (r: Option<nat>)
    requires |pat| > 0
    ensures r.Some? ==> r.value + |pat| <= |t|
    decreases |t|
  {
    if |t| < |pat| then None
    else if StartsWithCI(t, pat) then Some(0)
    else
      var rest := FindCI(t[1..], pat);
      if rest.None? then None else Some(rest.value + 1)
  }

  /** `FindCI` finds an occurrence, and the first one; when it finds none there is none. */
  lemma {:induction false} FindCIFirst(t: string, pat: string)
    requires |pat| > 0
    ensures var r := FindCI(t, pat);
      && (r.Some? ==> StartsWithCI(t[r.value..], pat))
      && (r.Some? ==> forall j :: 0 <= j < r.value ==> !StartsWithCI(t[j..], pat))
      && (r.None? ==> forall j :: 0 <= j <= |t| ==> !StartsWithCI(t[j..], pat))
    decreases |t|
  {
    if |t| >= |pat| && !StartsWithCI(t, pat) {
      FindCIFirst(t[1..], pat);
      assert forall j :: 1 <= j <= |t| ==> t[j..] == t[1..][j - 1..];
    }
  }

  /** Where the content of a tag pair that opens at the start of `s` ends: the offset, after
      `open`, of the first `close` that follows (see `TagMatchSound`). */
  function TagMatch(s: string, open: string, close: string): (k: Option<nat>)
    requires |close| > 0
    ensures k.Some? ==> |open| + k.value + |close| <= |s|
  {
    if StartsWithCI(s, open) then FindCI(s[|open|..], close) else None
  }

  /** A tag match really has `open` at the start and `close` right after the content. */
  lemma TagMatchSound(s: string, open: string, close: string)
    requires |close| > 0 && TagMatch(s, open, close).Some?
    ensures StartsWithCI(s, open)
    ensures StartsWithCI(s[|open| + TagMatch(s, open, close).value..], close)
  {
    var k := TagMatch(s, open, close).value;
    FindCIFirst(s[|open|..], close);
    assert s[|open|..][k..] == s[|open| + k..];
  }

  /** One global, case-insensitive, non-greedy replacement `open(...)close -> wrap$1wrap`:
      scanning left to right, an `open` whose `close` occurs later is replaced together with
      the first such `close`, and scanning resumes after it; an `open` with no `close` stays. */
  function Rewrite(s: string, open: string, close: string, wrap: string): string
    requires |close| > 0
    decreases |s|
  {
    if s == [] then []
    else match TagMatch(s, open, close)
      case Some(k) =>
        wrap + s[|open|..|open| + k] + wrap + Rewrite(s[|open| + k + |close|..], open, close, wrap)
      case None => [s[0]] + Rewrite(s[1..], open, close, wrap)
  }

  /** Where the lazy `\[.*?\]` starting at a `[` ends: the first `]` of `t`, provided no line terminator comes before it. */
  function ClosingOnLine(t: string): (r: Option<nat>)
    ensures r.Some? ==> r.value < |t| && t[r.value] == ']'
    ensures r.Some? ==> forall j :: 0 <= j < r.value ==> !IsLineTerminator(t[j])
  {
    if t == [] then None
    else if t[0] == ']' then Some(0)
    else if IsLineTerminator(t[0]) then None
    else
      var rest := ClosingOnLine(t[1..]);
      if rest.None? then None else Some(rest.value + 1)
  }

  /** The final pass `replace(/\[.*?\]/g, '')`: every bracketed run within one line is deleted. */
  function StripBrackets(s: string): string
    decreases |s|
  {
    if s == [] then []
    else if s[0] == '[' && ClosingOnLine(s[1..]).Some? then
      StripBrackets(s[ClosingOnLine(s[1..]).value + 2..])
    else [s[0]] + StripBrackets(s[1..])
  }

  /** The description as Markdown: bold-italic pairs first (both nestings), then bold,
      then italic, then every remaining single-line `[...]` removed. */
  function FormatDescription(text: Option<string>): string {
    if !Truthy(text) then NoDescription
    else
      var t := text.value;
      var t1 := Rewrite(t, "[b][i]", "[/i][/b]", "***");
      var t2 := Rewrite(t1, "[i][b]", "[/b][/i]", "***");
      var t3 := Rewrite(t2, "[b]", "[/b]", "**");
      var t4 := Rewrite(t3, "[i]", "[/i]", "*");
      StripBrackets(t4)
  }

  /** No `[` of the text is followed by a `]` before the end of its line. */
  predicate NoBracketPairOnLine(r: string) {
    forall i :: 0 <= i < |r| && r[i] == '[' ==> ClosingOnLine(r[i + 1..]).None?
  }

  /** The line terminators of a text, in order. */
  function Breaks(s: string): string {
    if s == [] then [] else (if IsLineTerminator(s[0]) then [s[0]] else []) + Breaks(s[1..])
  }

  lemma {:induction false} BreaksAppend(a: string, b: string)
    ensures Breaks(a + b) == Breaks(a) + Breaks(b)
  {
    if a == [] {
      assert a + b == b;
    } else {
      var head := if IsLineTerminator(a[0]) then [a[0]] else [];
      assert (a + b)[0] == a[0];
      assert (a + b)[1..] == a[1..] + b;
      BreaksAppend(a[1..], b);
      calc {
        Breaks(a + b);
        head + Breaks(a[1..] + b);
        head + (Breaks(a[1..]) + Breaks(b));
        (head + Breaks(a[1..])) + Breaks(b);
      }
    }
  }

  lemma {:induction false} BreaksNone(a: string)
    requires forall j :: 0 <= j < |a| ==> !IsLineTerminator(a[j])
    ensures Breaks(a) == []
  {
    if a != [] {
      BreaksNone(a[1..]);
    }
  }

  /** Stripping cannot create a closing bracket before the first line break. */
  lemma {:induction false} StripKeepsLineOpen(t: string)
    requires ClosingOnLine(t).None?
    ensures ClosingOnLine(StripBrackets(t)).None?
  {
    if t != [] {
      assert t[0] != ']';
      if !IsLineTerminator(t[0]) {
        assert ClosingOnLine(t[1..]).None?;
        StripKeepsLineOpen(t[1..]);
        var r := StripBrackets(t);
        assert r == [t[0]] + StripBrackets(t[1..]);
        assert r[1..] == StripBrackets(t[1..]);
      }
    }
  }

  /** After the final pass no `[` is closed by a `]` on the same line. */
  lemma {:induction false} StripLeavesNoPair(s: string)
    ensures NoBracketPairOnLine(StripBrackets(s))
  {
    if s != [] {
      if s[0] == '[' && ClosingOnLine(s[1..]).Some? {
        StripLeavesNoPair(s[ClosingOnLine(s[1..]).value + 2..]);
      } else {
        var rest := StripBrackets(s[1..]);
        StripLeavesNoPair(s[1..]);
        var r := [s[0]] + rest;
        assert StripBrackets(s) == r;
        forall i | 0 <= i < |r| && r[i] == '['
          ensures ClosingOnLine(r[i + 1..]).None?
        {
          if i == 0 {
            StripKeepsLineOpen(s[1..]);
            assert r[1..] == rest;
          } else {
            assert r[i + 1..] == rest[i..];
            assert rest[i - 1] == '[';
          }
        }
      }
    }
  }

  /** The final pass deletes no line terminator. */
  lemma {:induction false} StripKeepsBreaks(s: string)
    ensures Breaks(StripBrackets(s)) == Breaks(s)
  {
    if s != [] {
      if s[0] == '[' && ClosingOnLine(s[1..]).Some? {
        var k := ClosingOnLine(s[1..]).value;
        StripKeepsBreaks(s[k + 2..]);
        assert s == s[..k + 2] + s[k + 2..];
        BreaksAppend(s[..k + 2], s[k + 2..]);
        var removed := s[..k + 2];
        forall j | 0 <= j < k + 2 ensures !IsLineTerminator(removed[j]) {
          if 1 <= j <= k { assert removed[j] == s[1..][j - 1]; }
        }
        BreaksNone(removed);
      } else {
        StripKeepsBreaks(s[1..]);
      }
    }
  }


  lemma CIKeepsOneLine(t: string, p: string)
    requires StartsWithCI(t, p) && OneLine(p)
    ensures OneLine(t[..|p|])
  {
    forall j | 0 <= j < |p| ensures !IsLineTerminator(t[..|p|][j]) {
      assert Lower(t[j]) == Lower(p[j]);
    }
  }

  lemma BreaksSplit(s: string, i: nat)
    requires i <= |s|
    ensures Breaks(s) == Breaks(s[..i]) + Breaks(s[i..])
  {
    assert s == s[..i] + s[i..];
    BreaksAppend(s[..i], s[i..]);
  }

  /** A single-line prefix holds no line terminator. */
  lemma BreaksAfterOneLine(s: string, p: string)
    requires StartsWithCI(s, p) && OneLine(p)
    ensures Breaks(s) == Breaks(s[|p|..])
  {
    CIKeepsOneLine(s, p);
    BreaksNone(s[..|p|]);
    BreaksSplit(s, |p|);
  }

  /** The text a matched tag pair spans holds the same line terminators as its content. */
  lemma MatchedPairBreaks(s: string, open: string, close: string, k: nat)
    requires OneLine(open) && OneLine(close) && |open| + k + |close| <= |s|
    requires StartsWithCI(s, open) && StartsWithCI(s[|open| + k..], close)
    ensures Breaks(s) == Breaks(s[|open|..|open| + k]) + Breaks(s[|open| + k + |close|..])
  {
    BreaksAfterOneLine(s, open);
    BreaksInside(s, |open|, |open| + k);
    BreaksAfterOneLineAt(s, close, |open| + k);
  }

  lemma BreaksInside(s: string, p: nat, q: nat)
    requires p <= q <= |s|
    ensures Breaks(s[p..]) == Breaks(s[p..q]) + Breaks(s[q..])
  {
    BreaksSplit(s[p..], q - p);
    assert s[p..][..q - p] == s[p..q];
    assert s[p..][q - p..] == s[q..];
  }

  lemma BreaksAfterOneLineAt(s: string, c: string, q: nat)
    requires q <= |s| && StartsWithCI(s[q..], c) && OneLine(c)
    ensures q + |c| <= |s| && Breaks(s[q..]) == Breaks(s[q + |c|..])
  {
    BreaksAfterOneLine(s[q..], c);
    assert s[q..][|c|..] == s[q + |c|..];
  }

  /** Wrapping a text in single-line markers keeps its line terminators. */
  lemma WrappedBreaks(wrap: string, mid: string, r: string)
    requires OneLine(wrap)
    ensures Breaks(wrap + mid + wrap + r) == Breaks(mid) + Breaks(r)
  {
    BreaksNone(wrap);
    BreaksAppend(wrap, mid);
    BreaksAppend(wrap + mid, wrap);
    BreaksAppend(wrap + mid + wrap, r);
  }

  /** One step of a pass at a matched tag pair. */
  lemma RewriteMatched(s: string, open: string, close: string, wrap: string, k: nat)
    requires |close| > 0 && TagMatch(s, open, close) == Some(k)
    ensures |open| + k + |close| <= |s|
    ensures Rewrite(s, open, close, wrap)
      == wrap + s[|open|..|open| + k] + wrap + Rewrite(s[|open| + k + |close|..], open, close, wrap)
  {
  }

  /** A rewriting pass whose tags and wrapper are single-line keeps every line terminator. */
  lemma {:induction false} RewriteKeepsBreaks(s: string, open: string, close: string, wrap: string)
    requires |close| > 0 && OneLine(open) && OneLine(close) && OneLine(wrap)
    ensures Breaks(Rewrite(s, open, close, wrap)) == Breaks(s)
    decreases |s|
  {
    if s != [] {
      var m := TagMatch(s, open, close);
      if m.Some? {
        var k := m.value;
        var mid, rest := s[|open|..|open| + k], s[|open| + k + |close|..];
        var r := Rewrite(rest, open, close, wrap);
        RewriteMatched(s, open, close, wrap, k);
        TagMatchSound(s, open, close);
        RewriteKeepsBreaks(rest, open, close, wrap);
        MatchedPairBreaks(s, open, close, k);
        WrappedBreaks(wrap, mid, r);
      } else {
        var r := Rewrite(s[1..], open, close, wrap);
        assert Rewrite(s, open, close, wrap) == [s[0]] + r;
        RewriteKeepsBreaks(s[1..], open, close, wrap);
        BreaksSplit([s[0]] + r, 1);
        assert ([s[0]] + r)[1..] == r;
        BreaksSplit(s, 1);
      }
    }
  }

  /** The formatted description never holds a single-line `[...]`. */
  lemma FormatDescriptionNoPair(text: Option<string>)
    ensures NoBracketPairOnLine(FormatDescription(text))
  {
    if !Truthy(text) {
      assert '[' !in NoDescription;
      StripSkips(NoDescription);
      StripLeavesNoPair(NoDescription);
    } else {
      var t := text.value;
      var t1 := Rewrite(t, "[b][i]", "[/i][/b]", "***");
      var t2 := Rewrite(t1, "[i][b]", "[/b][/i]", "***");
      var t3 := Rewrite(t2, "[b]", "[/b]", "**");
      var t4 := Rewrite(t3, "[i]", "[/i]", "*");
      StripLeavesNoPair(t4);
    }
  }

  /** The formatting passes keep every line break of the original text, in order. */
  lemma FormatDescriptionKeepsBreaks(t: string)
    requires t != ""
    ensures Breaks(FormatDescription(Some(t))) == Breaks(t)
  {
    TagsOneLine();
    var t1 := Rewrite(t, "[b][i]", "[/i][/b]", "***");
    var t2 := Rewrite(t1, "[i][b]", "[/b][/i]", "***");
    var t3 := Rewrite(t2, "[b]", "[/b]", "**");
    var t4 := Rewrite(t3, "[i]", "[/i]", "*");
    RewriteKeepsBreaks(t, "[b][i]", "[/i][/b]", "***");
    RewriteKeepsBreaks(t1, "[i][b]", "[/b][/i]", "***");
    RewriteKeepsBreaks(t2, "[b]", "[/b]", "**");
    RewriteKeepsBreaks(t3, "[i]", "[/i]", "*");
    StripKeepsBreaks(t4);
  }

  lemma TagsOneLine()
    ensures OneLine("[b][i]") && OneLine("[/i][/b]") && OneLine("[i][b]") && OneLine("[/b][/i]")
    ensures OneLine("[b]") && OneLine("[/b]") && OneLine("[i]") && OneLine("[/i]")
    ensures OneLine("***") && OneLine("**") && OneLine("*")
  {
  }

  /** A missing or empty description becomes the fixed placeholder text. */
  lemma FormatDescriptionEmpty(text: Option<string>)
    requires text.None? || text == Some("")
    ensures FormatDescription(text) == "No description provided."
  {
  }

  // ---------------------------------------------------------------- worked examples

  /** A text without `[` passes through a rewriting pass unchanged. */
  lemma {:induction false} RewriteSkips(a: string, b: string, open: string, close: string, wrap: string)
    requires |close| > 0 && |open| > 0 && open[0] == '[' && '[' !in a
    ensures Rewrite(a + b, open, close, wrap) == a + Rewrite(b, open, close, wrap)
    decreases |a|
  {
    if a != [] {
      var s := a + b;
      assert s[0] == a[0];
      assert a[0] != '[' by { assert a[0] in a; }
      assert !StartsWithCI(s, open) by { assert Lower(s[0]) != Lower(open[0]); }
      RewriteUnmatched(s, open, close, wrap);
      assert s[1..] == a[1..] + b;
      assert '[' !in a[1..];
      RewriteSkips(a[1..], b, open, close, wrap);
      var r := Rewrite(b, open, close, wrap);
      calc {
        Rewrite(s, open, close, wrap);
        [s[0]] + Rewrite(a[1..] + b, open, close, wrap);
        [a[0]] + (a[1..] + r);
        { assert [a[0]] + a[1..] == a; }
        a + r;
      }
    } else {
      assert a + b == b;
    }
  }

  /** One step of a pass at a position where no tag pair opens. */
  lemma RewriteUnmatched(s: string, open: string, close: string, wrap: string)
    requires |close| > 0 && s != [] && !StartsWithCI(s, open)
    ensures Rewrite(s, open, close, wrap) == [s[0]] + Rewrite(s[1..], open, close, wrap)
  {
    assert TagMatch(s, open, close).None?;
  }

  lemma {:induction false} StripSkips(a: string)
    requires '[' !in a
    ensures StripBrackets(a) == a
  {
    if a != [] {
      assert a[0] in a;
      assert '[' !in a[1..];
      StripSkips(a[1..]);
    }
  }

  /** `tag + x + close`, with `tag` equal to `open` up to case and no `[` in `x`, is rewritten to `wrap + x + wrap`. */
  lemma RewriteTagged(tag: string, x: string, open: string, close: string, wrap: string)
    requires |close| > 0 && close[0] == '[' && '[' !in x && EqualCI(tag, open)
    ensures Rewrite(tag + x + close, open, close, wrap) == wrap + x + wrap
  {
    var s := tag + x + close;
    assert StartsWithCI(s, open);
    var t := s[|open|..];
    assert t == x + close;
    assert StartsWithCI(t[|x|..], close);
    forall j | 0 <= j < |x| ensures !StartsWithCI(t[j..], close) {
      assert t[j] == x[j];
      assert Lower(t[j..][0]) != Lower(close[0]);
    }
    FindCIFirst(t, close);
    var k := FindCI(t, close);
    assert k == Some(|x|);
    assert TagMatch(s, open, close) == Some(|x|);
    assert s[|open|..|open| + |x|] == x;
    assert s[|open| + |x| + |close|..] == [];
  }

  /** A text that is `open + x + close` for one pass and contains no `[` besides the tags
      comes out as `wrap + x + wrap` from the whole description formatter. */
  lemma BoldItalicBecomesTripleStar(x: string)
    requires '[' !in x
    ensures FormatDescription(Some("[b][i]" + x + "[/i][/b]")) == "***" + x + "***"
  {
    var w := "***" + x + "***";
    RewriteTagged("[b][i]", x, "[b][i]", "[/i][/b]", "***");
    assert '[' !in w;
    RewriteSkips(w, [], "[i][b]", "[/b][/i]", "***");
    RewriteSkips(w, [], "[b]", "[/b]", "**");
    RewriteSkips(w, [], "[i]", "[/i]", "*");
    assert w + [] == w;
    StripSkips(w);
  }

  /** `[b]x[/b]` (in any letter case) becomes `**x**`. */
  lemma BoldBecomesDoubleStar(x: string)
    requires '[' !in x && ']' !in x
    ensures FormatDescription(Some("[B]" + x + "[/b]")) == "**" + x + "**"
  {
    var s := "[B]" + x + "[/b]";
    assert s[0] == '[';
    BoldPasses(x);
    var w := "**" + x + "**";
    FormatAfterPasses(s, w);
  }

  /** The first three passes over `[B]x[/b]`: only the bold pass finds its tags. */
  lemma BoldPasses(x: string)
    requires '[' !in x && ']' !in x
    ensures Rewrite(Rewrite(Rewrite("[B]" + x + "[/b]", "[b][i]", "[/i][/b]", "***"), "[i][b]", "[/b][/i]", "***"),
                    "[b]", "[/b]", "**") == "**" + x + "**"
  {
    NoOpenTagPass(x, "[b][i]", "[/i][/b]", "***");
    NoOpenTagPass(x, "[i][b]", "[/b][/i]", "***");
    RewriteTagged("[B]", x, "[b]", "[/b]", "**");
  }

  /** When the first three passes leave a text without `[`, the formatter returns that text. */
  lemma FormatAfterPasses(s: string, w: string)
    requires s != [] && '[' !in w
    requires Rewrite(Rewrite(Rewrite(s, "[b][i]", "[/i][/b]", "***"), "[i][b]", "[/b][/i]", "***"), "[b]", "[/b]", "**") == w
    ensures FormatDescription(Some(s)) == w
  {
    RewriteSkips(w, [], "[i]", "[/i]", "*");
    assert w + [] == w;
    StripSkips(w);
  }

  /** In `[B]x[/b]` the two-tag openings `[b][i]` and `[i][b]` occur nowhere. */
  lemma NoOpenTagPass(x: string, open: string, close: string, wrap: string)
    requires '[' !in x && ']' !in x
    requires open == "[b][i]" || open == "[i][b]"
    requires |close| > 0
    ensures Rewrite("[B]" + x + "[/b]", open, close, wrap) == "[B]" + x + "[/b]"
  {
    var s := "[B]" + x + "[/b]";
    NotTwoTagOpening(x, open);
    RewriteNoMatch(s, open, close, wrap);
    assert s[1..] == "B]" + x + "[/b]";
    RewriteSkips("B]" + x, "[/b]", open, close, wrap);
    ClosingTagKept(open, close, wrap);
    assert s == [s[0]] + ("B]" + x + "[/b]");
  }

  lemma NotTwoTagOpening(x: string, open: string)
    requires '[' !in x && ']' !in x
    requires open == "[b][i]" || open == "[i][b]"
    ensures !StartsWithCI("[B]" + x + "[/b]", open)
  {
    var s := "[B]" + x + "[/b]";
    if |x| > 0 { assert s[3] == x[0]; } else { assert s[3..5] == "[/"; }
    assert Lower(s[3]) != Lower(open[3]) || Lower(s[4]) != Lower(open[4]);
  }

  /** A pass that finds no opening tag at the start keeps the first character. */
  lemma RewriteNoMatch(s: string, open: string, close: string, wrap: string)
    requires |close| > 0 && s != [] && !StartsWithCI(s, open)
    ensures Rewrite(s, open, close, wrap) == [s[0]] + Rewrite(s[1..], open, close, wrap)
  {
  }

  /** A closing `[/b]` is kept by a two-tag pass. */
  lemma ClosingTagKept(open: string, close: string, wrap: string)
    requires open == "[b][i]" || open == "[i][b]"
    requires |close| > 0
    ensures Rewrite("[/b]", open, close, wrap) == "[/b]"
  {
    assert Lower("[/b]"[1]) != Lower(open[1]);
    RewriteNoMatch("[/b]", open, close, wrap);
    assert "[/b]"[1..] == "/b]";
    RewriteSkips("/b]", [], open, close, wrap);
    assert "/b]" + [] == "/b]";
  }

  // ---------------------------------------------------------------- the post message

  /** The extensions whose file is shown inline, compared after lower-casing. */
  predicate IsInlineExtension(ext: string) {
    LowerString(ext) in ["png", "jpg", "jpeg", "gif"]
  }

  /** What the bot sends for a post: colour, title, status, formatted description, optional
      approver field, inline image and attachment flags, and the optional row of buttons. */
  datatype PostMessage = PostMessage(
    title: string,
    color: string,
    status: Status,
    description: string,
    approver: Option<string>,
    attached: bool,
    inlineImage: bool,
    components: Option<seq<Components.Button>>)

  /** The answers to the two neighbour lookups a post with buttons needs, `id:<id order:id_desc` and
      `id:>id order:id_asc`, one post each. */
  datatype Neighbours = Neighbours(before: PostLookup, after: PostLookup)

  /** What `generatePostMessage` settles with: the message, or the error it rejects with. */
  datatype Generated = Generated(message: PostMessage) | Rejected(error: ApiError)

  /** What upper-casing a null `file.ext` throws. */
  const NullExtMessage := "Cannot read properties of null (reading 'toUpperCase')"

  /** The buttons for a post: `undelete` alone for a deleted post, otherwise `view_prev` and
      `view_next`, each disabled when the neighbour lookup in its direction found nothing. */
  function ButtonsFor(post: Post, n: Neighbours): (row: seq<Components.Button>)
    ensures GetStatus(post.flags) == Deleted ==>
      row == [Components.Button("undelete:" + NatToString(post.id), false)]
    ensures GetStatus(post.flags) != Deleted ==> (|row| == 2
      && row[0].customId == "view_prev:" + NatToString(post.id) && (row[0].disabled <==> !Found(n.before))
      && row[1].customId == "view_next:" + NatToString(post.id) && (row[1].disabled <==> !Found(n.after)))
  {
    var id := NatToString(post.id);
    if GetStatus(post.flags) == Deleted then [Components.Button("undelete:" + id, false)]
    else [Components.Button("view_prev:" + id, !Found(n.before)), Components.Button("view_next:" + id, !Found(n.after))]
  }

  /** `generatePostMessage(post, withButtons)`. `buttons` is `None` without buttons and otherwise holds
      the answers the neighbour lookups get; those lookups are sent only for a post that is not deleted.
      A null `file.ext` throws before anything is looked up. */
  function PostMessageOf(post: Post, buttons: Option<Neighbours>): Generated {
    var status := GetStatus(post.flags);
    var lookups := buttons.Some? && status != Deleted;
    if post.ext.None? then Rejected(OtherError(NullExtMessage))
    else if lookups && buttons.value.before.LookupFailed? then Rejected(buttons.value.before.error)
    else if lookups && buttons.value.after.LookupFailed? then Rejected(buttons.value.after.error)
    else Generated(PostMessage(
      "Post #" + NatToString(post.id),
      if status == Deleted then Red else if status == Pending then Yellow else Green,
      status,
      FormatDescription(post.description),
      if post.approverId.Some? && post.approverId.value != 0 then Some("ID: " + NatToString(post.approverId.value)) else None,
      Truthy(post.fileUrl),
      Truthy(post.fileUrl) && IsInlineExtension(post.ext.value),
      if buttons.Some? then Some(ButtonsFor(post, buttons.value)) else None))
  }

  /** Builds the message step by step: the colour is picked in branches, the attachment and the
      button row are filled in afterwards, and the neighbour lookups can still make it reject. */
  method GeneratePostMessage(post: Post, buttons: Option<Neighbours>) returns (g: Generated)
    ensures g == PostMessageOf(post, buttons)
  {
    var status := GetStatus(post.flags);
    var color;
    if status == Deleted {
      color := Red;
    } else if status == Pending {
      color := Yellow;
    } else {
      color := Green;
    }
    if post.ext.None? {
      return Rejected(OtherError(NullExtMessage));
    }
    var approver := None;
    if post.approverId.Some? && post.approverId.value != 0 {
      approver := Some("ID: " + NatToString(post.approverId.value));
    }
    var m := PostMessage("Post #" + NatToString(post.id), color, status, FormatDescription(post.description),
                         approver, false, false, None);
    if Truthy(post.fileUrl) {
      m := m.(attached := true, inlineImage := IsInlineExtension(post.ext.value));
    }
    if buttons.Some? {
      var row: seq<Components.Button>;
      var id := NatToString(post.id);
      if status == Deleted {
        row := [Components.Button("undelete:" + id, false)];
      } else {
        var n := buttons.value;
        if n.before.LookupFailed? {
          return Rejected(n.before.error);
        }
        if n.after.LookupFailed? {
          return Rejected(n.after.error);
        }
        var isFirst := !HasPosts(n.before.response);
        var isLast := !HasPosts(n.after.response);
        row := [Components.Button("view_prev:" + id, isFirst), Components.Button("view_next:" + id, isLast)];
      }
      m := m.(components := Some(row));
    }
    g := Generated(m);
  }

  /** The message fails exactly when `file.ext` is null, or when buttons are wanted for a post that is
      not deleted and a neighbour lookup rejects. A null extension wins, with its own error; otherwise
      the first rejected lookup's error is the one passed on. */
  lemma GenerateRejects(post: Post, buttons: Option<Neighbours>)
    ensures PostMessageOf(post, buttons).Rejected? <==>
      post.ext.None? || (buttons.Some? && GetStatus(post.flags) != Deleted
                          && (buttons.value.before.LookupFailed? || buttons.value.after.LookupFailed?))
    ensures post.ext.None? ==> PostMessageOf(post, buttons) == Rejected(OtherError(NullExtMessage))
    ensures post.ext.Some? && buttons.Some? && GetStatus(post.flags) != Deleted ==>
      (buttons.value.before.LookupFailed? ==> PostMessageOf(post, buttons) == Rejected(buttons.value.before.error))
      && (buttons.value.before.Answered? && buttons.value.after.LookupFailed? ==>
            PostMessageOf(post, buttons) == Rejected(buttons.value.after.error))
  {
  }

  /** No neighbour is looked up for a deleted post, so the answers make no difference to its message. */
  lemma DeletedIgnoresNeighbours(post: Post, n1: Neighbours, n2: Neighbours)
    requires GetStatus(post.flags) == Deleted
    ensures PostMessageOf(post, Some(n1)) == PostMessageOf(post, Some(n2))
  {
  }

  /** Red exactly for deleted posts, yellow exactly for pending ones that are not deleted, green otherwise. */
  lemma ColourFollowsStatus(post: Post, buttons: Option<Neighbours>)
    requires PostMessageOf(post, buttons).Generated?
    ensures var m := PostMessageOf(post, buttons).message;
      && (m.color == "#FF0000" <==> post.flags.deleted)
      && (m.color == "#FFFF00" <==> post.flags.pending && !post.flags.deleted)
      && (m.color == "#33cc33" <==> !post.flags.deleted && !post.flags.pending)
  {
  }

  /** Without buttons nothing is attached as components; the approver field appears exactly for a
      truthy approver id; the image is inline only for an attached png, jpg, jpeg or gif file. */
  lemma MessageFields(post: Post, buttons: Option<Neighbours>)
    requires PostMessageOf(post, buttons).Generated?
    ensures var m := PostMessageOf(post, buttons).message;
      && (m.components.None? <==> buttons.None?)
      && (m.approver.Some? <==> post.approverId.Some? && post.approverId.value != 0)
      && (m.inlineImage ==> m.attached)
      && (m.inlineImage <==> Truthy(post.fileUrl) && LowerString(post.ext.value) in ["png", "jpg", "jpeg", "gif"])
      && m.status == GetStatus(post.flags)
      && m.title == "Post #" + NatToString(post.id)
  {
  }

  /** The inline-image test ignores letter case: `PNG`, `Png` and `png` all qualify, `webp` does not. */
  lemma InlineExtensionExamples()
    ensures IsInlineExtension("PNG") && IsInlineExtension("Jpeg") && IsInlineExtension("gif")
    ensures !IsInlineExtension("webp") && !IsInlineExtension("mp4")
  {
    assert LowerString("PNG") == "png";
    assert LowerString("Jpeg") == "jpeg";
    assert LowerString("gif") == "gif";
    assert LowerString("webp") == "webp";
    assert LowerString("mp4") == "mp4";
  }
}
