/** The `replacement` dmail command: the two line-anchored field extractors of its body
    and the handler that either answers a malformed request or announces a well-formed
    one in the moderation channel (or to the owner) together with the post it names. */
module Replacement {
  import opened Common
  import opened Inbox
  import PostEmbed

  // ---------------------------------------------------------------- the two line matchers

  /** The length of the longest prefix of `t` whose characters all satisfy `p` (a greedy `p*`). */
  function Run(t: string, p: char -> bool): (n: nat)
    ensures n <= |t|
    ensures forall i :: 0 <= i < n ==> p(t[i])
    ensures n < |t| ==> !p(t[n])
  {
    if t != [] && p(t[0]) then 1 + Run(t[1..], p) else 0
  }

  predicate NotSpace(c: char) { !IsSpace(c) }

  /** The scheme of a link, `http://` or `https://` in any letter case: its length, or None. */
  function SchemeLength(t: string): (n: Option<nat>)
    ensures n == Some(8) <==> StartsWithCI(t, "https://")
    ensures n == Some(7) <==> StartsWithCI(t, "http://")
    ensures n.None? ==> !StartsWithCI(t, "https://") && !StartsWithCI(t, "http://")
  {
    if StartsWithCI(t, "https://") then Some(8)
    else if StartsWithCI(t, "http://") then
      assert !StartsWithCI(t, "https://") by { assert Lower(t[4]) == ':' && Lower("https://"[4]) == 's'; }
      Some(7)
    else None
  }

  const PostTag := "Post:"
  const PostHost := "e6ai.net/posts/"
  const ImageTag := "New Image:"

  /** What a post line yields: the whole link (first group) and its digits (second group). */
  datatype PostCapture = PostCapture(link: string, id: string)

  /** Where the link begins after a tag of length `n` and the white space that follows it. */
  function LinkStart(t: string, n: nat): (a: nat)
    requires n <= |t|
    ensures n <= a <= |t|
  {
    n + Run(t[n..], IsSpace)
  }

  /** The post-line pattern tried at the start of `t` (a line start), case-insensitively. */
  function MatchPost(t: string): Option<PostCapture>
  {
    if !StartsWithCI(t, PostTag) then None else PostLink(t[LinkStart(t, |PostTag|)..])
  }

  /** After the white space: a scheme, the post path of e6ai.net, and at least one digit (all of them taken). */
  function PostLink(u: string): Option<PostCapture>
  {
    match SchemeLength(u)
    case None => None
    case Some(n) =>
      if !StartsWithCI(u[n..], PostHost) then None
      else
        var d := Run(u[n + |PostHost|..], IsDigit);
        if d == 0 then None
        else Some(PostCapture(u[..n + |PostHost| + d], u[n + |PostHost|..n + |PostHost| + d]))
  }

  /** The image-line pattern tried at the start of `t` (a line start), case-insensitively. */
  function MatchImage(t: string): Option<string>
  {
    if !StartsWithCI(t, ImageTag) then None else ImageLink(t[LinkStart(t, |ImageTag|)..])
  }

  /** After the white space: a scheme and at least one non-space character (all of them taken). */
  function ImageLink(u: string): Option<string>
  {
    match SchemeLength(u)
    case None => None
    case Some(n) =>
      var r := Run(u[n..], NotSpace);
      if r == 0 then None else Some(u[..n + r])
  }

  /** A post line: tag, white space, an http(s) link to a post of e6ai.net, and the whole run of
      digits after it; nothing after the digits is looked at. */
  lemma MatchPostSound(t: string)
    requires MatchPost(t).Some?
    ensures var c := MatchPost(t).value; var a := LinkStart(t, |PostTag|);
      && StartsWithCI(t, PostTag)
      && (forall i :: |PostTag| <= i < a ==> IsSpace(t[i]))
      && a + |c.link| <= |t| && t[a..a + |c.link|] == c.link
      && (StartsWithCI(c.link, "http://") || StartsWithCI(c.link, "https://"))
      && c.id != [] && AllDigits(c.id) && |c.id| <= |c.link| && c.link[|c.link| - |c.id|..] == c.id
      && (a + |c.link| == |t| || !IsDigit(t[a + |c.link|]))
  {
    var c := MatchPost(t).value;
    var a := LinkStart(t, |PostTag|);
    var u := t[a..];
    PostLinkSound(u);
    LeadingSpaces(t, |PostTag|);
    SliceAt(t, a, |c.link|);
  }

  /** The white space the link start skips. */
  lemma LeadingSpaces(t: string, n: nat)
    requires n <= |t|
    ensures forall i :: n <= i < LinkStart(t, n) ==> IsSpace(t[i])
  {
    forall i | n <= i < LinkStart(t, n) ensures IsSpace(t[i]) {
      assert t[i] == t[n..][i - n];
    }
  }

  /** A prefix of `t[a..]` seen in `t`. */
  lemma SliceAt(t: string, a: nat, m: nat)
    requires a + m <= |t|
    ensures t[a..a + m] == t[a..][..m]
    ensures a + m < |t| ==> t[a + m] == t[a..][m]
  {
  }

  /** The link part of a post line: a scheme, the post path and the whole run of digits. */
  lemma PostLinkSound(u: string)
    requires PostLink(u).Some?
    ensures var c := PostLink(u).value;
      && |c.link| <= |u| && u[..|c.link|] == c.link
      && (StartsWithCI(c.link, "http://") || StartsWithCI(c.link, "https://"))
      && c.id != [] && AllDigits(c.id) && |c.id| <= |c.link| && c.link[|c.link| - |c.id|..] == c.id
      && (|c.link| == |u| || !IsDigit(u[|c.link|]))
  {
    var n := SchemeLength(u).value;
    var h := n + |PostHost|;
    var d := Run(u[h..], IsDigit);
    PostLinkOf(u, n, d);
    DigitRunSlice(u, h, d);
    CaptureShape(u, h, d);
  }

  /** The capture `u[..h + d]`, `u[h..h + d]` of a digit run that stops at `h + d`, after a scheme. */
  lemma CaptureShape(u: string, h: nat, d: nat)
    requires SchemeLength(u).Some? && SchemeLength(u).value <= h
    requires h + d <= |u| && d > 0 && AllDigits(u[h..h + d])
    requires h + d == |u| || !IsDigit(u[h + d])
    ensures var link, id := u[..h + d], u[h..h + d];
      && |link| <= |u| && u[..|link|] == link
      && (StartsWithCI(link, "http://") || StartsWithCI(link, "https://"))
      && id != [] && AllDigits(id) && |id| <= |link| && link[|link| - |id|..] == id
      && (|link| == |u| || !IsDigit(u[|link|]))
  {
    SchemeKept(u, h + d);
    SliceTail(u, h, h + d);
  }

  /** Any prefix of a link that covers its scheme still starts with that scheme. */
  lemma SchemeKept(u: string, m: nat)
    requires SchemeLength(u).Some? && SchemeLength(u).value <= m <= |u|
    ensures StartsWithCI(u[..m], "http://") || StartsWithCI(u[..m], "https://")
  {
    var lit := if SchemeLength(u) == Some(8) then "https://" else "http://";
    assert StartsWithCI(u, lit);
    forall i | 0 <= i < |lit| ensures Lower(u[..m][i]) == Lower(lit[i]) {
      assert u[..m][i] == u[i];
    }
  }

  /** The greedy digit run starting at `h`, seen in `u`. */
  lemma DigitRunSlice(u: string, h: nat, d: nat)
    requires h <= |u| && d == Run(u[h..], IsDigit)
    ensures h + d <= |u| && AllDigits(u[h..h + d])
    ensures h + d == |u| || !IsDigit(u[h + d])
  {
    var run := u[h..h + d];
    forall i | 0 <= i < d ensures IsDigit(run[i]) {
      assert run[i] == u[h..][i];
    }
    if h + d < |u| {
      assert u[h + d] == u[h..][d];
    }
  }

  lemma SliceTail(u: string, h: nat, m: nat)
    requires h <= m <= |u|
    ensures u[..m][h..] == u[h..m]
  {
  }

  /** Conversely every post line of that shape is recognised, with exactly that link and id,
      whatever the letter case of its fixed parts and whatever follows the digits. */
  lemma MatchPostComplete(tag: string, w: string, scheme: string, host: string, digits: string, rest: string)
    requires EqualCI(tag, PostTag) && EqualCI(host, PostHost)
    requires EqualCI(scheme, "http://") || EqualCI(scheme, "https://")
    requires forall i :: 0 <= i < |w| ==> IsSpace(w[i])
    requires digits != [] && AllDigits(digits)
    requires rest == [] || !IsDigit(rest[0])
    ensures MatchPost(tag + w + scheme + host + digits + rest)
      == Some(PostCapture(scheme + host + digits, digits))
  {
    var u := scheme + host + digits + rest;
    assert tag + w + scheme + host + digits + rest == tag + w + u;
    TaggedLine(tag, PostTag, w, u);
    PostLinkComplete(scheme, host, digits, rest);
  }

  lemma PostLinkComplete(scheme: string, host: string, digits: string, rest: string)
    requires EqualCI(host, PostHost)
    requires EqualCI(scheme, "http://") || EqualCI(scheme, "https://")
    requires digits != [] && AllDigits(digits)
    requires rest == [] || !IsDigit(rest[0])
    ensures PostLink(scheme + host + digits + rest) == Some(PostCapture(scheme + host + digits, digits))
  {
    var u := scheme + host + digits + rest;
    PostLinkParts(scheme, host, digits, rest);
    PostLinkOf(u, |scheme|, |digits|);
    PostLinkSlices(scheme, host, digits, rest);
  }

  lemma PostLinkParts(scheme: string, host: string, digits: string, rest: string)
    requires EqualCI(host, PostHost)
    requires EqualCI(scheme, "http://") || EqualCI(scheme, "https://")
    requires AllDigits(digits)
    requires rest == [] || !IsDigit(rest[0])
    ensures var u := scheme + host + digits + rest;
      && SchemeLength(u) == Some(|scheme|) && |scheme| <= |u| && StartsWithCI(u[|scheme|..], PostHost)
      && Run(u[|scheme| + |PostHost|..], IsDigit) == |digits|
  {
    SchemeOfLink(scheme, host, digits, rest);
    HostAfter(scheme, host, digits, rest);
    DigitsAfter(scheme + host, digits, rest);
  }

  lemma SchemeOfLink(scheme: string, host: string, digits: string, rest: string)
    requires EqualCI(scheme, "http://") || EqualCI(scheme, "https://")
    ensures SchemeLength(scheme + host + digits + rest) == Some(|scheme|)
  {
    assert scheme + host + digits + rest == scheme + (host + digits + rest);
    SchemeOf(scheme, host + digits + rest);
  }

  lemma HostAfter(scheme: string, host: string, digits: string, rest: string)
    requires EqualCI(host, PostHost)
    ensures StartsWithCI((scheme + host + digits + rest)[|scheme|..], PostHost)
  {
    assert (scheme + host + digits + rest)[|scheme|..] == host + (digits + rest);
    CIPrefix(host, PostHost, digits + rest);
  }

  lemma DigitsAfter(head: string, digits: string, rest: string)
    requires AllDigits(digits)
    requires rest == [] || !IsDigit(rest[0])
    ensures Run((head + digits + rest)[|head|..], IsDigit) == |digits|
  {
    assert (head + digits + rest)[|head|..] == digits + rest;
    RunOver(digits, rest, IsDigit);
  }

  lemma PostLinkSlices(scheme: string, host: string, digits: string, rest: string)
    requires |host| == |PostHost|
    ensures var u := scheme + host + digits + rest; var h := |scheme| + |PostHost|;
      && h + |digits| <= |u| && u[..h + |digits|] == scheme + host + digits && u[h..h + |digits|] == digits
  {
    var u := scheme + host + digits + rest;
    var h := |scheme| + |PostHost|;
    PrefixOfAppend(scheme + host + digits, rest);
    assert u[h..] == digits + rest;
    assert u[h..h + |digits|] == u[h..][..|digits|];
    PrefixOfAppend(digits, rest);
  }

  lemma PrefixOfAppend(a: string, b: string)
    ensures (a + b)[..|a|] == a
  {
  }

  /** The capture of a link whose scheme, host and digit run are known. */
  lemma PostLinkOf(u: string, n: nat, d: nat)
    requires SchemeLength(u) == Some(n) && n <= |u| && StartsWithCI(u[n..], PostHost)
    requires Run(u[n + |PostHost|..], IsDigit) == d && d > 0
    ensures n + |PostHost| + d <= |u|
    ensures PostLink(u) == Some(PostCapture(u[..n + |PostHost| + d], u[n + |PostHost|..n + |PostHost| + d]))
  {
  }

  /** A line that begins with `tag` (equal to `lit` up to case) and white space `w`: the tag is
      recognised and the link starts right after `w`. */
  lemma TaggedLine(tag: string, lit: string, w: string, u: string)
    requires EqualCI(tag, lit)
    requires forall i :: 0 <= i < |w| ==> IsSpace(w[i])
    requires u == [] || !IsSpace(u[0])
    ensures StartsWithCI(tag + w + u, lit)
    ensures LinkStart(tag + w + u, |lit|) == |tag| + |w|
    ensures (tag + w + u)[|tag| + |w|..] == u
  {
    var t := tag + w + u;
    assert t == tag + (w + u);
    CIPrefix(tag, lit, w + u);
    assert t[|lit|..] == w + u;
    RunOver(w, u, IsSpace);
  }

  /** An image line: tag, white space, an http(s) link, and the whole run of non-space characters after it. */
  lemma MatchImageSound(t: string)
    requires MatchImage(t).Some?
    ensures var link := MatchImage(t).value; var a := LinkStart(t, |ImageTag|);
      && StartsWithCI(t, ImageTag)
      && (forall i :: |ImageTag| <= i < a ==> IsSpace(t[i]))
      && a + |link| <= |t| && t[a..a + |link|] == link
      && (StartsWithCI(link, "http://") || StartsWithCI(link, "https://"))
      && (forall i :: 0 <= i < |link| ==> !IsSpace(link[i]))
      && (a + |link| == |t| || IsSpace(t[a + |link|]))
  {
    var link := MatchImage(t).value;
    var a := LinkStart(t, |ImageTag|);
    ImageLinkSound(t[a..]);
    LeadingSpaces(t, |ImageTag|);
    SliceAt(t, a, |link|);
  }

  /** The link part of an image line: a scheme and the whole run of non-space characters. */
  lemma ImageLinkSound(u: string)
    requires ImageLink(u).Some?
    ensures var link := ImageLink(u).value;
      && |link| <= |u| && u[..|link|] == link
      && (StartsWithCI(link, "http://") || StartsWithCI(link, "https://"))
      && (forall i :: 0 <= i < |link| ==> !IsSpace(link[i]))
      && (|link| == |u| || IsSpace(u[|link|]))
  {
    var link := ImageLink(u).value;
    var n := SchemeLength(u).value;
    var r := Run(u[n..], NotSpace);
    assert link == u[..n + r];
    SchemeHasNoSpace(u);
    forall i | 0 <= i < |link| ensures !IsSpace(link[i]) {
      if i >= n { assert link[i] == u[n..][i - n]; assert NotSpace(u[n..][i - n]); }
    }
    assert StartsWithCI(link, "http://") || StartsWithCI(link, "https://") by {
      forall i | 0 <= i < n ensures link[i] == u[i] { }
    }
    if n + r < |u| {
      assert u[n + r] == u[n..][r];
    }
  }

  /** Conversely every image line of that shape is recognised with exactly that link. */
  lemma MatchImageComplete(tag: string, w: string, scheme: string, path: string, rest: string)
    requires EqualCI(tag, ImageTag)
    requires EqualCI(scheme, "http://") || EqualCI(scheme, "https://")
    requires forall i :: 0 <= i < |w| ==> IsSpace(w[i])
    requires path != [] && forall i :: 0 <= i < |path| ==> !IsSpace(path[i])
    requires rest == [] || IsSpace(rest[0])
    ensures MatchImage(tag + w + scheme + path + rest) == Some(scheme + path)
  {
    var u := scheme + path + rest;
    assert tag + w + scheme + path + rest == tag + w + u;
    TaggedLine(tag, ImageTag, w, u);
    ImageLinkComplete(scheme, path, rest);
  }

  lemma ImageLinkComplete(scheme: string, path: string, rest: string)
    requires EqualCI(scheme, "http://") || EqualCI(scheme, "https://")
    requires path != [] && forall i :: 0 <= i < |path| ==> !IsSpace(path[i])
    requires rest == [] || IsSpace(rest[0])
    ensures ImageLink(scheme + path + rest) == Some(scheme + path)
  {
    var u := scheme + path + rest;
    assert u == scheme + (path + rest);
    SchemeOf(scheme, path + rest);
    var n := |scheme|;
    assert u[n..] == path + rest;
    forall i | 0 <= i < |path| ensures NotSpace(path[i]) { }
    RunOver(path, rest, NotSpace);
    assert u[..n + |path|] == scheme + path;
  }

  /** A greedy run stops exactly at the end of a prefix that satisfies `p` when the next character does not. */
  lemma {:induction false} RunOver(a: string, b: string, p: char -> bool)
    requires forall i :: 0 <= i < |a| ==> p(a[i])
    requires b == [] || !p(b[0])
    ensures Run(a + b, p) == |a|
    decreases |a|
  {
    if a == [] {
      assert a + b == b;
    } else {
      assert (a + b)[1..] == a[1..] + b;
      RunOver(a[1..], b, p);
    }
  }

  /** A scheme written in any letter case is recognised with its own length. */
  lemma SchemeOf(scheme: string, y: string)
    requires EqualCI(scheme, "http://") || EqualCI(scheme, "https://")
    ensures SchemeLength(scheme + y) == Some(|scheme|)
  {
    if EqualCI(scheme, "https://") {
      CIPrefix(scheme, "https://", y);
    } else {
      CIPrefix(scheme, "http://", y);
    }
  }

  /** No character of a recognised scheme is white space. */
  lemma SchemeHasNoSpace(u: string)
    requires SchemeLength(u).Some?
    ensures forall i :: 0 <= i < SchemeLength(u).value ==> !IsSpace(u[i])
  {
    var lit := if SchemeLength(u) == Some(8) then "https://" else "http://";
    assert StartsWithCI(u, lit);
    forall i | 0 <= i < |lit| ensures !IsSpace(u[i]) {
      assert Lower(u[i]) == Lower(lit[i]);
      assert !IsSpace(Lower(lit[i]));
    }
  }

  /** Whether `x + y` starts with `p` up to case, when `x` has the length of `p`, depends on `x` alone. */
  lemma CIPrefix(x: string, p: string, y: string)
    requires |x| == |p|
    ensures StartsWithCI(x + y, p) == EqualCI(x, p)
  {
    if EqualCI(x, p) {
      forall i | 0 <= i < |p| ensures Lower((x + y)[i]) == Lower(p[i]) { assert (x + y)[i] == x[i]; }
    }
    if StartsWithCI(x + y, p) {
      forall i | 0 <= i < |p| ensures Lower(x[i]) == Lower(p[i]) { assert (x + y)[i] == x[i]; }
    }
  }

  // ---------------------------------------------------------------- the first line that matches

  /** `^` with the m flag: position `p` of `s` starts a line when it is 0 (and the scan began at a
      line start) or follows a line terminator. */
  predicate StartsLine(s: string, p: nat, atStart: bool) {
    (p == 0 && atStart) || (0 < p <= |s| && IsLineTerminator(s[p - 1]))
  }

  /** The leftmost line start of `s` at which `m` matches, as `String.prototype.match` finds it. */
  function FirstLineMatch<T>(s: string, m: string -> Option<T>, atStart: bool): (p: Option<nat>)
    ensures p.Some? ==> p.value <= |s| && StartsLine(s, p.value, atStart) && m(s[p.value..]).Some?
    decreases |s|
  {
    if atStart && m(s).Some? then Some(0)
    else if s == [] then None
    else
      var rest := FirstLineMatch(s[1..], m, IsLineTerminator(s[0]));
      if rest.None? then None else
        assert s[1..][rest.value..] == s[rest.value + 1..];
        Some(rest.value + 1)
  }

  /** The match found is the first: no earlier line start matches; and when none is found, no line start matches. */
  lemma {:induction false} FirstLineMatchIsFirst<T>(s: string, m: string -> Option<T>, atStart: bool)
    ensures var p := FirstLineMatch(s, m, atStart);
      forall q :: 0 <= q <= |s| && (p.None? || q < p.value) && StartsLine(s, q, atStart) ==> m(s[q..]).None?
    decreases |s|
  {
    var p := FirstLineMatch(s, m, atStart);
    if !(atStart && m(s).Some?) && s != [] {
      FirstLineMatchIsFirst(s[1..], m, IsLineTerminator(s[0]));
      forall q | 0 <= q <= |s| && (p.None? || q < p.value) && StartsLine(s, q, atStart)
        ensures m(s[q..]).None?
      {
        if q > 0 {
          assert s[1..][q - 1..] == s[q..];
          assert StartsLine(s[1..], q - 1, IsLineTerminator(s[0]));
        }
      }
    }
  }

  /** The field a matcher extracts from a body: its capture at the first matching line start. */
  function Field<T>(body: string, m: string -> Option<T>): Option<T> {
    match FirstLineMatch(body, m, true)
    case None => None
    case Some(p) => m(body[p..])
  }

  /** A first line that holds no line terminator and does not match is skipped. */
  lemma SkipLine<T>(line: string, term: char, rest: string, m: string -> Option<T>)
    requires OneLine(line) && IsLineTerminator(term)
    requires m(line + [term] + rest).None?
    ensures Field(line + [term] + rest, m) == Field(rest, m)
  {
    var s := line + [term] + rest;
    InsideLine(line, term, rest, m);
    if line == [] {
      assert s[1..] == rest;
    } else {
      assert s[1..] == line[1..] + [term] + rest;
      InsideLine(line[1..], term, rest, m);
    }
    var p := FirstLineMatch(rest, m, true);
    if p.Some? {
      assert s[|line| + 1 + p.value..] == rest[p.value..];
    }
  }

  lemma {:induction false} InsideLine<T>(line: string, term: char, rest: string, m: string -> Option<T>)
    requires OneLine(line) && IsLineTerminator(term)
    ensures var p := FirstLineMatch(rest, m, true);
      FirstLineMatch(line + [term] + rest, m, false) == (if p.None? then None else Some(p.value + |line| + 1))
    decreases |line|
  {
    var s := line + [term] + rest;
    if line == [] {
      assert s[1..] == rest;
    } else {
      assert s[1..] == line[1..] + [term] + rest;
      InsideLine(line[1..], term, rest, m);
    }
  }

  // ---------------------------------------------------------------- a request body

  /** A body that is one line without a match yields nothing. */
  lemma NoMatchOneLine<T>(s: string, m: string -> Option<T>)
    requires OneLine(s) && m(s).None?
    ensures Field(s, m).None?
  {
    if s != [] {
      NoLineStartInside(s[1..], m);
    }
  }

  lemma {:induction false} NoLineStartInside<T>(s: string, m: string -> Option<T>)
    requires OneLine(s)
    ensures FirstLineMatch(s, m, false).None?
    decreases |s|
  {
    if s != [] {
      NoLineStartInside(s[1..], m);
    }
  }

  /** `dmail.body || ''`. */
  function BodyText(d: Dmail): string {
    if d.body.Some? then d.body.value else ""
  }

  /** A well-formed request: a post line and an image line were found. */
  datatype Request = Request(post: PostCapture, image: string)

  /** Both fields, each from the first line that carries it; None when either is missing. */
  function Parse(body: string): (r: Option<Request>)
    ensures r.Some? <==> Field(body, MatchPost).Some? && Field(body, MatchImage).Some?
    ensures r.Some? ==> r.value.post == Field(body, MatchPost).value && r.value.image == Field(body, MatchImage).value
  {
    var post := Field(body, MatchPost);
    var image := Field(body, MatchImage);
    if post.None? || image.None? then None else Some(Request(post.value, image.value))
  }

  /** The empty body has neither field. */
  lemma EmptyBodyIsMalformed()
    ensures Parse("").None?
  {
    assert MatchPost("").None?;
  }

  /** After a recognised tag and its white space, a post line is decided by its link part alone. */
  lemma MatchPostAfterTag(tag: string, w: string, u: string)
    requires EqualCI(tag, PostTag)
    requires forall i :: 0 <= i < |w| ==> IsSpace(w[i])
    requires u == [] || !IsSpace(u[0])
    ensures MatchPost(tag + w + u) == PostLink(u)
  {
    TaggedLine(tag, PostTag, w, u);
  }

  /** After a recognised tag and its white space, an image line is decided by its link part alone. */
  lemma MatchImageAfterTag(tag: string, w: string, u: string)
    requires EqualCI(tag, ImageTag)
    requires forall i :: 0 <= i < |w| ==> IsSpace(w[i])
    requires u == [] || !IsSpace(u[0])
    ensures MatchImage(tag + w + u) == ImageLink(u)
  {
    TaggedLine(tag, ImageTag, w, u);
  }

  /** A link whose host part is not the post path of e6ai.net is not a post link. */
  lemma PostLinkNeedsHost(scheme: string, v: string)
    requires EqualCI(scheme, "http://") || EqualCI(scheme, "https://")
    requires !StartsWithCI(v, PostHost)
    ensures PostLink(scheme + v).None?
  {
    SchemeOf(scheme, v);
    assert (scheme + v)[|scheme|..] == v;
  }

  /** A match at the very start of the body is the field. */
  lemma FieldAtStart<T>(s: string, m: string -> Option<T>)
    requires m(s).Some?
    ensures Field(s, m) == m(s)
  {
    assert s[0..] == s;
  }

  /** The two usual lines give the post id and the image link. */
  lemma ParseTwoLines(id: string, path: string)
    requires id != [] && AllDigits(id)
    requires path != [] && forall i :: 0 <= i < |path| ==> !IsSpace(path[i])
    ensures var line1 := "Post:" + " " + "https://" + "e6ai.net/posts/" + id;
      var line2 := "New Image:" + " " + "https://" + path + "";
      Parse(line1 + ['\n'] + line2)
        == Some(Request(PostCapture("https://" + "e6ai.net/posts/" + id, id), "https://" + path))
  {
    var line1 := "Post:" + " " + "https://" + "e6ai.net/posts/" + id;
    var line2 := "New Image:" + " " + "https://" + path + "";
    Assoc(line1, ['\n'], line2);
    UsualPostLine(id, ['\n'] + line2);
    FieldAtStart(line1 + (['\n'] + line2), MatchPost);
    UsualPostLineShape(id, ['\n'] + line2);
    SkipLine(line1, '\n', line2, MatchImage);
    UsualImageLine(path);
    FieldAtStart(line2, MatchImage);
  }

  lemma UsualPostLine(id: string, rest: string)
    requires id != [] && AllDigits(id)
    requires rest == [] || !IsDigit(rest[0])
    ensures MatchPost("Post:" + " " + "https://" + "e6ai.net/posts/" + id + rest)
      == Some(PostCapture("https://" + "e6ai.net/posts/" + id, id))
  {
    EqualCIRefl(PostTag);
    EqualCIRefl(PostHost);
    EqualCIRefl("https://");
    MatchPostComplete(PostTag, " ", "https://", PostHost, id, rest);
  }

  lemma UsualPostLineShape(id: string, rest: string)
    requires OneLine(id)
    ensures OneLine("Post:" + " " + "https://" + "e6ai.net/posts/" + id)
    ensures !StartsWithCI("Post:" + " " + "https://" + "e6ai.net/posts/" + id + rest, ImageTag)
  {
    var t := "Post:" + " " + "https://" + "e6ai.net/posts/" + id + rest;
    assert t[0] == 'P';
    NotPrefixAt(t, ImageTag, 0);
    OneLineAppend("Post:" + " " + "https://" + "e6ai.net/posts/", id);
  }

  lemma UsualImageLine(path: string)
    requires path != [] && forall i :: 0 <= i < |path| ==> !IsSpace(path[i])
    ensures MatchImage("New Image:" + " " + "https://" + path + "") == Some("https://" + path)
  {
    EqualCIRefl(ImageTag);
    EqualCIRefl("https://");
    MatchImageComplete(ImageTag, " ", "https://", path, "");
  }

  /** Line order does not matter, a tag may be in any letter case, the white space after it may
      run onto the next line, and nothing after the digits is looked at. */
  lemma ParseImageFirst(path: string, id: string, tail: string)
    requires id != [] && AllDigits(id)
    requires path != [] && forall i :: 0 <= i < |path| ==> !IsSpace(path[i])
    requires OneLine(path)
    requires tail == [] || !IsDigit(tail[0])
    ensures var line2 := "post:" + "  " + "HTTP://" + "E6AI.NET/POSTS/" + id + tail;
      Parse("new image:" + ['\n'] + ("http://" + path + ['\n'] + line2))
        == Some(Request(PostCapture("HTTP://" + "E6AI.NET/POSTS/" + id, id), "http://" + path))
  {
    var line2 := "post:" + "  " + "HTTP://" + "E6AI.NET/POSTS/" + id + tail;
    var rest := "http://" + path + ['\n'] + line2;
    ImageFirstImage(path, line2);
    ImageFirstShape(path, line2);
    SkipLine("new image:", '\n', rest, MatchPost);
    SkipLine("http://" + path, '\n', line2, MatchPost);
    UpperPostLine(id, tail);
    FieldAtStart(line2, MatchPost);
  }

  lemma ImageFirstImage(path: string, line2: string)
    requires path != [] && forall i :: 0 <= i < |path| ==> !IsSpace(path[i])
    ensures Field("new image:" + ['\n'] + ("http://" + path + ['\n'] + line2), MatchImage) == Some("http://" + path)
  {
    var body := "new image:" + ['\n'] + ("http://" + path + ['\n'] + line2);
    assert body == "new image:" + "\n" + "http://" + path + (['\n'] + line2);
    LowerImageLine(path, ['\n'] + line2);
    FieldAtStart(body, MatchImage);
  }

  lemma LowerImageLine(path: string, rest: string)
    requires path != [] && forall i :: 0 <= i < |path| ==> !IsSpace(path[i])
    requires rest == [] || IsSpace(rest[0])
    ensures MatchImage("new image:" + "\n" + "http://" + path + rest) == Some("http://" + path)
  {
    assert EqualCI("new image:", ImageTag) by {
      forall i | 0 <= i < |ImageTag| ensures Lower("new image:"[i]) == Lower(ImageTag[i]) { }
    }
    EqualCIRefl("http://");
    MatchImageComplete("new image:", "\n", "http://", path, rest);
  }

  lemma UpperPostLine(id: string, tail: string)
    requires id != [] && AllDigits(id)
    requires tail == [] || !IsDigit(tail[0])
    ensures MatchPost("post:" + "  " + "HTTP://" + "E6AI.NET/POSTS/" + id + tail)
      == Some(PostCapture("HTTP://" + "E6AI.NET/POSTS/" + id, id))
  {
    assert EqualCI("post:", PostTag) by {
      forall i | 0 <= i < |PostTag| ensures Lower("post:"[i]) == Lower(PostTag[i]) { }
    }
    assert EqualCI("HTTP://", "http://") by {
      forall i | 0 <= i < 7 ensures Lower("HTTP://"[i]) == Lower("http://"[i]) { }
    }
    assert EqualCI("E6AI.NET/POSTS/", PostHost) by {
      forall i | 0 <= i < |PostHost| ensures Lower("E6AI.NET/POSTS/"[i]) == Lower(PostHost[i]) { }
    }
    MatchPostComplete("post:", "  ", "HTTP://", "E6AI.NET/POSTS/", id, tail);
  }

  lemma ImageFirstShape(path: string, line2: string)
    requires OneLine(path)
    ensures OneLine("new image:") && OneLine("http://" + path)
    ensures !StartsWithCI("new image:" + ['\n'] + ("http://" + path + ['\n'] + line2), PostTag)
    ensures !StartsWithCI("http://" + path + ['\n'] + line2, PostTag)
  {
    var rest := "http://" + path + ['\n'] + line2;
    assert rest[0] == 'h';
    NotPrefixAt(rest, PostTag, 0);
    assert ("new image:" + ['\n'] + rest)[0] == 'n';
    NotPrefixAt("new image:" + ['\n'] + rest, PostTag, 0);
    OneLineAppend("http://", path);
  }

  /** A link to any host other than e6ai.net is not a post line. */
  lemma OtherHostRejected(id: string)
    requires OneLine(id)
    ensures Field("Post:" + " " + ("https://" + ("example.net/posts/" + id)), MatchPost).None?
  {
    var t := "Post:" + " " + ("https://" + ("example.net/posts/" + id));
    OtherHostLine(id);
    OtherHostOneLine(id);
    NoMatchOneLine(t, MatchPost);
  }

  lemma OtherHostLine(id: string)
    ensures MatchPost("Post:" + " " + ("https://" + ("example.net/posts/" + id))).None?
  {
    var v := "example.net/posts/" + id;
    OtherHost(id);
    TaggedHttpsNeedsHost(v);
  }

  lemma OtherHost(id: string)
    ensures !StartsWithCI("example.net/posts/" + id, PostHost)
  {
    var v := "example.net/posts/" + id;
    assert v[1] == 'x' && PostHost[1] == '6';
    NotPrefixAt(v, PostHost, 1);
  }

  lemma TaggedHttpsNeedsHost(v: string)
    requires !StartsWithCI(v, PostHost)
    ensures MatchPost("Post:" + " " + ("https://" + v)).None?
  {
    var u := "https://" + v;
    assert u[0] == 'h';
    EqualCIRefl(PostTag);
    MatchPostAfterTag(PostTag, " ", u);
    HttpsNeedsHost(v);
  }

  lemma OtherHostOneLine(id: string)
    requires OneLine(id)
    ensures OneLine("Post:" + " " + ("https://" + ("example.net/posts/" + id)))
  {
    OneLineAppend("example.net/posts/", id);
    OneLineAppend("https://", "example.net/posts/" + id);
    OneLineAppend("Post:" + " ", "https://" + ("example.net/posts/" + id));
  }

  lemma HttpsNeedsHost(v: string)
    requires !StartsWithCI(v, PostHost)
    ensures PostLink("https://" + v).None?
  {
    EqualCIRefl("https://");
    PostLinkNeedsHost("https://", v);
  }

  /** One position where the characters differ up to case rules out a prefix. */
  lemma NotPrefixAt(t: string, p: string, i: nat)
    requires i < |p| && i < |t| && Lower(t[i]) != Lower(p[i])
    ensures !StartsWithCI(t, p)
  {
  }

  lemma Assoc(a: string, b: string, c: string)
    ensures a + b + c == a + (b + c)
  {
  }

  /** Two single-line texts joined are one line. */
  lemma OneLineAppend(a: string, b: string)
    requires OneLine(a) && OneLine(b)
    ensures OneLine(a + b)
  {
    forall j | 0 <= j < |a + b| ensures !IsLineTerminator((a + b)[j]) {
      if j >= |a| { assert (a + b)[j] == b[j - |a|]; }
    }
  }

  // ---------------------------------------------------------------- the handler

  /** What the handler's calls to the outside world answer. */
  datatype UserLookup = UserAnswered(name: Option<string>) | UserLookupFailed
  datatype Channel = NoChannel | NotTextChannel | TextChannel
  type PostLookup = PostEmbed.PostLookup

  /** The answers for one run of the handler: the sender lookup, the moderation channel, the public
      and the authenticated post lookups, whether the owner can be reached, whether the first
      notification (to the channel or to the owner) is rejected, whether the channel message about
      the post (the post itself or the not-found text) is rejected, and whether the display-error
      text sent from the catch block is rejected as well. */
  datatype Env = Env(
    user: UserLookup,
    channel: Channel,
    publicLookup: PostLookup,
    authLookup: PostLookup,
    ownerFound: bool,
    notifyFails: bool,
    postSendFails: bool,
    errorSendFails: bool)

  /** The result of one run: the effects in order, and whether it ran to completion (and so recorded the id). */
  datatype Outcome = Outcome(effects: seq<Effect>, completed: bool)

  /** The effects of a block, every attempted send included, and whether the block ended by throwing. */
  datatype Attempt = Attempt(effects: seq<Effect>, threw: bool)

  /** The author line of the announcement. */
  function AuthorLabel(d: Dmail, user: UserLookup): string {
    if !HasSender(d) then "Message from: Unknown Sender"
    else match user
      case UserLookupFailed => "Message from: User ID " + SenderText(d) + " (Error fetching name)"
      case UserAnswered(name) =>
        if Truthy(name) then "Message from: " + name.value else "Message from: User ID " + SenderText(d)
  }

  function Announcement(d: Dmail, req: Request, user: UserLookup): RequestEmbed {
    RequestEmbed(if Truthy(d.body) then d.body.value else "*No content*", req.post.link, req.image, AuthorLabel(d, user))
  }

  /** A public answer that calls for the authenticated `status:any` retry: 200 with no posts. */
  predicate NeedsAuthLookup(r: PostEmbed.PostsResponse) {
    r.status == 200 && (r.posts.None? || |r.posts.value| == 0)
  }

  /** The public lookup answered and asks for the retry. */
  predicate RetriesAuthenticated(env: Env) {
    env.publicLookup.Answered? && NeedsAuthLookup(env.publicLookup.response)
  }

  /** The lookup whose answer decides the channel message. */
  function UsedLookup(env: Env): PostLookup {
    if RetriesAuthenticated(env) then env.authLookup else env.publicLookup
  }

  function NotFoundText(id: string): string {
    "The post in the replacement request (`ID: " + id + "`) could not be found, even with janitor permissions."
  }

  function DisplayErrorText(id: string): string {
    "There was an error trying to display post `ID: " + id + "`."
  }

  /** The channel message for the lookup `r`: the first post's message, built without buttons, or the
      not-found text. A rejected lookup, a message that cannot be built or a rejected send throws. */
  function ShowPost(id: string, r: PostLookup, sendFails: bool): Attempt {
    match r
    case LookupFailed(_) => Attempt([], true)
    case Answered(resp) =>
      if !PostEmbed.HasPosts(resp) then Attempt([ChannelText(NotFoundText(id))], sendFails)
      else match PostEmbed.PostMessageOf(resp.posts.value[0], None)
        case Rejected(_) => Attempt([], true)
        case Generated(m) => Attempt([ChannelPost(m)], sendFails)
  }

  /** The try block of the display: the public lookup, the authenticated retry, the channel message. */
  function TryDisplay(id: string, env: Env): Attempt {
    var lookups := [LookupPost(id, false)] + (if RetriesAuthenticated(env) then [LookupPost(id, true)] else []);
    var shown := ShowPost(id, UsedLookup(env), env.postSendFails);
    Attempt(lookups + shown.effects, shown.threw)
  }

  /** The try block and its catch: whatever the try block throws, the display-error text is sent, and
      the display throws on only when that send is rejected too. */
  function DisplayPost(id: string, env: Env): Attempt {
    var t := TryDisplay(id, env);
    if t.threw then Attempt(t.effects + [ChannelText(DisplayErrorText(id))], env.errorSendFails)
    else t
  }

  function InvalidReply(d: Dmail): seq<Effect> {
    [MarkRead(d.id), SendDmail(d.fromId, Titled("Re: " + OrUndefined(d.title)), InvalidReplacementBody)]
  }

  /** One run of the handler on dmail `d`. */
  function Handle(d: Dmail, env: Env): Outcome {
    Respond(d, Parse(BodyText(d)), env)
  }

  /** The handler's reaction to dmail `d` once its body has been parsed to `parsed`. A throw anywhere
      after the announcement skips the read mark and the record. */
  function Respond(d: Dmail, parsed: Option<Request>, env: Env): Outcome {
    match parsed
    case None => Outcome(InvalidReply(d), true)
    case Some(req) =>
      var lookups := if HasSender(d) then [LookupUser(d.fromId.value)] else [];
      var embed := Announcement(d, req, env.user);
      if env.channel == TextChannel then
        if env.notifyFails then Outcome(lookups + [ChannelEmbed(embed)], false)
        else
          var shown := DisplayPost(req.post.id, env);
          if shown.threw then Outcome(lookups + [ChannelEmbed(embed)] + shown.effects, false)
          else Outcome(lookups + [ChannelEmbed(embed)] + shown.effects + [MarkRead(d.id)], true)
      else if !env.ownerFound then Outcome(lookups + [MarkRead(d.id)], true)
      else if env.notifyFails then Outcome(lookups + [OwnerNotice(embed)], false)
      else Outcome(lookups + [OwnerNotice(embed)] + [MarkRead(d.id)], true)
  }

  /** The sender lookup (only for a truthy sender) and the author line it leads to. */
  method LookUpAuthor(d: Dmail, user: UserLookup) returns (lookups: seq<Effect>, author: string)
    ensures lookups == (if HasSender(d) then [LookupUser(d.fromId.value)] else [])
    ensures author == AuthorLabel(d, user)
  {
    lookups := [];
    if HasSender(d) {
      lookups := lookups + [LookupUser(d.fromId.value)];
      match user {
        case UserLookupFailed =>
          author := "Message from: User ID " + SenderText(d) + " (Error fetching name)";
        case UserAnswered(name) =>
          if Truthy(name) {
            author := "Message from: " + name.value;
          } else {
            author := "Message from: User ID " + SenderText(d);
          }
      }
    } else {
      author := "Message from: Unknown Sender";
    }
  }

  /** The channel message for the lookup `r`: the post's message is built, then sent, or the
      not-found text is sent. */
  method SendAbout(postId: string, r: PostLookup, sendFails: bool) returns (effects: seq<Effect>, threw: bool)
    ensures Attempt(effects, threw) == ShowPost(postId, r, sendFails)
  {
    effects := [];
    if r.LookupFailed? {
      return [], true;
    }
    if PostEmbed.HasPosts(r.response) {
      var g := PostEmbed.GeneratePostMessage(r.response.posts.value[0], None);
      if g.Rejected? {
        return [], true;
      }
      effects := [ChannelPost(g.message)];
    } else {
      effects := [ChannelText(NotFoundText(postId))];
    }
    threw := sendFails;
  }

  /** The public lookup, the authenticated retry when the public answer is empty, the channel message,
      and the display-error text when any of it throws. */
  method Display(postId: string, env: Env) returns (effects: seq<Effect>, threw: bool)
    ensures Attempt(effects, threw) == DisplayPost(postId, env)
  {
    effects := [LookupPost(postId, false)];
    var response := env.publicLookup;
    if response.Answered? && NeedsAuthLookup(response.response) {
      effects := effects + [LookupPost(postId, true)];
      response := env.authLookup;
    }
    var shown;
    shown, threw := SendAbout(postId, response, env.postSendFails);
    effects := effects + shown;
    if threw {
      effects := effects + [ChannelText(DisplayErrorText(postId))];
      threw := env.errorSendFails;
    }
  }

  /** The handler as it runs: extraction, the invalid reply, or the announcement of a valid request;
      the id is recorded in the shared set when the run completes. */
  method Execute(d: Dmail, env: Env, processed: IdSet) returns (effects: seq<Effect>, completed: bool)
    modifies processed
    ensures Outcome(effects, completed) == Handle(d, env)
    ensures processed.ids == if completed then old(processed.ids) + {d.id} else old(processed.ids)
  {
    var body := BodyText(d);
    var post := Field(body, MatchPost);
    var image := Field(body, MatchImage);
    if post.None? || image.None? {
      effects := [MarkRead(d.id)];
      effects := effects + [SendDmail(d.fromId, Titled("Re: " + OrUndefined(d.title)), InvalidReplacementBody)];
      processed.Add(d.id);
      return effects, true;
    }
    var req := Request(post.value, image.value);
    assert Parse(body) == Some(req);
    effects, completed := Announce(d, req, env);
    if completed {
      processed.Add(d.id);
    }
  }

  /** A valid request: the author label, the notification to the channel (then the display) or to the
      owner, and the read mark when nothing has thrown. */
  method Announce(d: Dmail, req: Request, env: Env) returns (effects: seq<Effect>, completed: bool)
    ensures Outcome(effects, completed) == Respond(d, Some(req), env)
  {
    var author;
    effects, author := LookUpAuthor(d, env.user);
    var embed := RequestEmbed(if Truthy(d.body) then d.body.value else "*No content*", req.post.link, req.image, author);
    assert embed == Announcement(d, req, env.user);
    if env.channel == TextChannel {
      effects := effects + [ChannelEmbed(embed)];
      if env.notifyFails {
        return effects, false;
      }
      var shown, threw := Display(req.post.id, env);
      effects := effects + shown;
      if threw {
        return effects, false;
      }
    } else if env.ownerFound {
      effects := effects + [OwnerNotice(embed)];
      if env.notifyFails {
        return effects, false;
      }
    }
    effects := effects + [MarkRead(d.id)];
    completed := true;
  }

  // ---------------------------------------------------------------- properties of the handler

  /** A dmail without a body (or with an empty one) gets the invalid-request reply and is recorded. */
  lemma MissingBodyIsMalformed(d: Dmail, env: Env)
    requires d.body.None? || d.body == Some("")
    ensures Handle(d, env) == Outcome(InvalidReply(d), true)
  {
    EmptyBodyIsMalformed();
  }

  /** The try block throws exactly when the deciding lookup rejects, when the post it found has a null
      extension, or when the channel message is rejected. The catch then sends the display-error text,
      and the display throws on exactly when that send is rejected as well. */
  lemma DisplayCatches(id: string, env: Env)
    ensures TryDisplay(id, env).threw <==>
      UsedLookup(env).LookupFailed?
      || (PostEmbed.Found(UsedLookup(env)) && UsedLookup(env).response.posts.value[0].ext.None?)
      || env.postSendFails
    ensures ChannelText(DisplayErrorText(id)) in DisplayPost(id, env).effects <==> TryDisplay(id, env).threw
    ensures DisplayPost(id, env).threw <==> TryDisplay(id, env).threw && env.errorSendFails
  {
    var l := UsedLookup(env);
    if PostEmbed.Found(l) {
      PostEmbed.GenerateRejects(l.response.posts.value[0], None);
    }
    ErrorTextDiffers(id);
    var t := TryDisplay(id, env);
    assert ChannelText(DisplayErrorText(id)) !in t.effects;
    if t.threw {
      assert DisplayPost(id, env).effects[|t.effects|] == ChannelText(DisplayErrorText(id));
    }
  }

  /** A post is sent to the channel exactly when the deciding lookup found one whose message can be built. */
  lemma FoundPostIsSent(id: string, env: Env)
    ensures (exists e :: e in DisplayPost(id, env).effects && e.ChannelPost?) <==>
      PostEmbed.Found(UsedLookup(env)) && UsedLookup(env).response.posts.value[0].ext.Some?
  {
    var l := UsedLookup(env);
    var t := TryDisplay(id, env);
    if PostEmbed.Found(l) {
      PostEmbed.GenerateRejects(l.response.posts.value[0], None);
      if l.response.posts.value[0].ext.Some? {
        assert t.effects[|t.effects| - 1].ChannelPost?;
        assert t.effects[|t.effects| - 1] in DisplayPost(id, env).effects;
      }
    }
  }

  /** The not-found text and the display-error text differ at their fourth character. */
  lemma ErrorTextDiffers(id: string)
    ensures NotFoundText(id) != DisplayErrorText(id)
  {
    var a := "The post in the replacement request (`ID: ";
    var b := "There was an error trying to display post `ID: ";
    assert NotFoundText(id)[3] == a[3] == ' ';
    assert DisplayErrorText(id)[3] == b[3] == 'r';
  }

  /** The handler records the id unless a valid request throws before the end: its first notification
      is rejected, or the display throws and so does the catch block's own send. */
  lemma RespondCompletes(d: Dmail, p: Option<Request>, env: Env)
    ensures Respond(d, p, env).completed <==>
      p.None?
      || (env.channel == TextChannel && !env.notifyFails
          && !(TryDisplay(p.value.post.id, env).threw && env.errorSendFails))
      || (env.channel != TextChannel && (!env.ownerFound || !env.notifyFails))
  {
    if p.Some? {
      DisplayCatches(p.value.post.id, env);
    }
  }

  /** A run that completes has marked the dmail as read, as its last step for a valid request;
      a run that does not complete has not. */
  lemma CompletedMarksRead(d: Dmail, p: Option<Request>, env: Env)
    ensures Respond(d, p, env).completed <==> MarkRead(d.id) in Respond(d, p, env).effects
    ensures Respond(d, p, env).completed && p.Some? ==>
      Respond(d, p, env).effects[|Respond(d, p, env).effects| - 1] == MarkRead(d.id)
  {
    var o := Respond(d, p, env);
    if p.None? {
      assert o.effects[0] == MarkRead(d.id);
    } else {
      DisplayTouchesNothing(p.value.post.id, env);
      if o.completed {
        assert o.effects[|o.effects| - 1] == MarkRead(d.id);
      }
    }
  }

  /** The authenticated lookup happens exactly when the public one answered 200 with no posts,
      for a valid request announced in the channel. */
  lemma AuthRetryIff(d: Dmail, req: Request, env: Env)
    ensures (LookupPost(req.post.id, true) in Respond(d, Some(req), env).effects)
      <==> (env.channel == TextChannel && !env.notifyFails && RetriesAuthenticated(env))
  {
    if env.channel == TextChannel && !env.notifyFails {
      DisplayRetryIff(req.post.id, env);
    }
  }

  lemma DisplayRetryIff(id: string, env: Env)
    ensures LookupPost(id, true) in DisplayPost(id, env).effects <==> RetriesAuthenticated(env)
  {
    var t := TryDisplay(id, env);
    ShowTouchesNothing(id, UsedLookup(env), env.postSendFails);
    if RetriesAuthenticated(env) {
      assert t.effects[1] == LookupPost(id, true);
      assert DisplayPost(id, env).effects[1] == LookupPost(id, true);
    } else {
      assert LookupPost(id, true) !in t.effects;
    }
  }

  /** Without a text channel nothing is posted to a channel, and the owner is told exactly when found. */
  lemma NoChannelGoesToOwner(d: Dmail, p: Option<Request>, env: Env)
    requires env.channel != TextChannel
    ensures forall e :: e in Respond(d, p, env).effects ==> !e.ChannelEmbed? && !e.ChannelPost? && !e.ChannelText?
    ensures (exists e :: e in Respond(d, p, env).effects && e.OwnerNotice?) <==> (p.Some? && env.ownerFound)
  {
    if p.Some? && env.ownerFound {
      assert OwnerNotice(Announcement(d, p.value, env.user)) in Respond(d, p, env).effects;
    }
  }

  /** The sender is looked up exactly when the request is valid and the sender is truthy. */
  lemma SenderLookedUpIff(d: Dmail, p: Option<Request>, env: Env)
    ensures (exists e :: e in Respond(d, p, env).effects && e.LookupUser?) <==> (p.Some? && HasSender(d))
  {
    if p.Some? {
      DisplayTouchesNothing(p.value.post.id, env);
      if HasSender(d) {
        assert Respond(d, p, env).effects[0] == LookupUser(d.fromId.value);
      }
    }
  }

  /** Displaying a post neither marks a dmail as read, nor runs a command, nor looks up a user. */
  lemma DisplayTouchesNothing(postId: string, env: Env)
    ensures forall e :: e in DisplayPost(postId, env).effects ==> !e.RunCommand? && !e.MarkRead? && !e.LookupUser?
  {
    ShowTouchesNothing(postId, UsedLookup(env), env.postSendFails);
    var t := TryDisplay(postId, env);
    assert forall e :: e in t.effects ==> !e.RunCommand? && !e.MarkRead? && !e.LookupUser?;
  }

  lemma ShowTouchesNothing(postId: string, r: PostLookup, sendFails: bool)
    ensures forall e :: e in ShowPost(postId, r, sendFails).effects ==>
      !e.RunCommand? && !e.MarkRead? && !e.LookupUser? && !e.LookupPost?
  {
  }

  lemma RespondTouchesOnlyOwn(d: Dmail, p: Option<Request>, env: Env)
    ensures forall e :: e in Respond(d, p, env).effects ==> !e.RunCommand? && (e.MarkRead? ==> e.dmailId == d.id)
  {
    if p.Some? {
      DisplayTouchesNothing(p.value.post.id, env);
    }
  }

  /** Whatever the outcome, the only dmail the handler marks as read is its own, and it runs no other command. */
  lemma HandleTouchesOnlyOwn(d: Dmail, env: Env)
    ensures forall e :: e in Handle(d, env).effects ==> !e.RunCommand? && (e.MarkRead? ==> e.dmailId == d.id)
  {
    RespondTouchesOnlyOwn(d, Parse(BodyText(d)), env);
  }
}
