/** Splitting a message text into plain text and links. */
module Linkify {
  import opened Js

  datatype Token = Plain(value: JsString) | Link(value: JsString)

  const HTTP: JsString := Text("http://")
  const HTTPS: JsString := Text("https://")

  // ── The two patterns ─────────────────────────────────────────────────────

  /** `[^\s<>"']` */
  predicate InUrl(u: CodeUnit) {
    !IsSpace(u) && u != '<' as int && u != '>' as int && u != '"' as int && u != '\'' as int
  }

  /** `[.,;:!?)\]}]` */
  predicate IsPunctuation(u: CodeUnit) {
    u in {'.' as int, ',' as int, ';' as int, ':' as int, '!' as int, '?' as int, ')' as int, ']' as int, '}' as int}
  }

  function BodyEnd(t: JsString, from: nat): (end: nat)
    requires from <= |t|
    ensures from <= end <= |t|
    ensures forall i :: from <= i < end ==> InUrl(t[i])
    ensures end < |t| ==> !InUrl(t[end])
    decreases |t| - from
  {
    if from < |t| && InUrl(t[from]) then BodyEnd(t, from + 1) else from
  }

  /** Where the URL that starts at `at` ends, if one does: `https?://` and at least one body unit, greedily. */
  function MatchAt(t: JsString, at: nat): (end: Option<nat>)
    requires at <= |t|
    ensures end.Some? ==> at < end.value <= |t|
  {
    var prefix := if StartsWith(t[at..], HTTPS) then |HTTPS| else |HTTP|;
    if !StartsWith(t[at..], HTTPS) && !StartsWith(t[at..], HTTP) then None
    else
      var end := BodyEnd(t, at + prefix);
      if end == at + prefix then None else Some(end)
  }

  ghost predicate NoMatch(t: JsString) {
    forall i :: 0 <= i <= |t| ==> MatchAt(t, i).None?
  }

  /** The longest suffix of punctuation starts here. */
  function Trimmed(url: JsString): (kept: nat)
    ensures kept <= |url|
    ensures forall i :: kept <= i < |url| ==> IsPunctuation(url[i])
    ensures kept > 0 ==> !IsPunctuation(url[kept - 1])
  {
    if url != [] && IsPunctuation(url[|url| - 1]) then Trimmed(url[..|url| - 1]) else |url|
  }

  // ── Facts about matches ──────────────────────────────────────────────────

  lemma HttpUnits()
    ensures |HTTP| == 7 && |HTTPS| == 8
    ensures HTTP[0] == 'h' as int && HTTPS[0] == 'h' as int
    ensures HTTP[6] == '/' as int && HTTPS[7] == '/' as int
    ensures HTTP[4] == ':' as int && HTTPS[4] == 's' as int
  {
  }

  lemma NotBoth(s: JsString)
    ensures !(StartsWith(s, HTTP) && StartsWith(s, HTTPS))
  {
    HttpUnits();
    assert |s| > 4 ==> !(s[4] == HTTP[4] && s[4] == HTTPS[4]);
  }

  /** The two character classes, unit by unit. */
  lemma ClassesAre(u: CodeUnit)
    ensures InUrl(u) <==> !IsSpace(u) && u !in Text("<>\"'")
    ensures IsPunctuation(u) <==> u in Text(".,;:!?)]}")
  {
    var shut, ends := Text("<>\"'"), Text(".,;:!?)]}");
    assert shut == ['<' as int, '>' as int, '"' as int, '\'' as int];
    assert ends == ['.' as int, ',' as int, ';' as int, ':' as int, '!' as int, '?' as int, ')' as int, ']' as int, '}' as int];
  }

  /** What `https?://[^\s<>"']+` matches at a place: one of the two schemes, and at least one unit that is no white
      space, angle bracket or quote, up to the first such unit or the end. */
  ghost predicate Matches(t: JsString, at: nat, scheme: JsString, end: nat) {
    && at <= |t| && StartsWith(t[at..], scheme)
    && at + |scheme| < end <= |t|
    && (forall i :: at + |scheme| <= i < end ==> !IsSpace(t[i]) && t[i] !in Text("<>\"'"))
    && (end < |t| ==> IsSpace(t[end]) || t[end] in Text("<>\"'"))
  }

  lemma MatchIff(t: JsString, at: nat, end: nat)
    requires at <= |t|
    ensures MatchAt(t, at) == Some(end) <==> Matches(t, at, Text("http://"), end) || Matches(t, at, Text("https://"), end)
  {
    NotBoth(t[at..]);
    forall i | 0 <= i < |t| ensures InUrl(t[i]) <==> !IsSpace(t[i]) && t[i] !in Text("<>\"'") {
      ClassesAre(t[i]);
    }
    hide InUrl, Text;
    assert HTTP == Text("http://") && HTTPS == Text("https://");
    if StartsWith(t[at..], HTTPS) {
      SchemeMatches(t, at, HTTPS, end);
    } else if StartsWith(t[at..], HTTP) {
      SchemeMatches(t, at, HTTP, end);
    }
  }

  lemma SchemeMatches(t: JsString, at: nat, scheme: JsString, end: nat)
    requires at <= |t| && StartsWith(t[at..], scheme)
    requires forall i :: 0 <= i < |t| ==> (InUrl(t[i]) <==> !IsSpace(t[i]) && t[i] !in Text("<>\"'"))
    ensures Matches(t, at, scheme, end) <==> end == BodyEnd(t, at + |scheme|) && end > at + |scheme|
  {
    hide InUrl, Text, IsSpace;
    var stop := BodyEnd(t, at + |scheme|);
    if Matches(t, at, scheme, end) {
      assert stop < |t| ==> !InUrl(t[stop]);
      assert end < |t| ==> !InUrl(t[end]);
    }
  }

  /** A URL in a piece of a text is the start of one in the text. */
  lemma MatchInPiece(t: JsString, lo: nat, hi: nat, at: nat)
    requires lo <= hi <= |t| && at <= hi - lo
    requires MatchAt(t[lo..hi], at).Some?
    ensures MatchAt(t, lo + at).Some?
  {
    HttpUnits();
    var piece := t[lo..hi];
    hide BodyEnd;
    assert forall i :: 0 <= i < |piece[at..]| ==> piece[at..][i] == t[lo + at..][i];
    assert StartsWith(piece[at..], HTTPS) ==> StartsWith(t[lo + at..], HTTPS);
    assert StartsWith(piece[at..], HTTP) ==> StartsWith(t[lo + at..], HTTP);
    NotBoth(t[lo + at..]);
    var prefix := if StartsWith(piece[at..], HTTPS) then |HTTPS| else |HTTP|;
    assert InUrl(piece[at + prefix]);
    assert piece[at + prefix] == t[lo + at + prefix];
  }

  lemma NothingBetween(t: JsString, lo: nat, hi: nat)
    requires lo <= hi <= |t|
    requires forall i :: lo <= i < hi ==> MatchAt(t, i).None?
    ensures NoMatch(t[lo..hi])
  {
    forall i | 0 <= i <= hi - lo ensures MatchAt(t[lo..hi], i).None? {
      if MatchAt(t[lo..hi], i).Some? {
        MatchInPiece(t, lo, hi, i);
      }
    }
  }

  lemma PunctuationHasNoMatch(t: JsString)
    requires forall i :: 0 <= i < |t| ==> IsPunctuation(t[i])
    ensures NoMatch(t)
  {
    HttpUnits();
    forall i | 0 <= i <= |t| ensures MatchAt(t, i).None? {
      assert i < |t| ==> t[i..][0] == t[i];
    }
  }

  /** Cutting off the punctuation leaves the whole `http://` or `https://`. */
  lemma LinkKeepsPrefix(t: JsString, at: nat)
    requires at <= |t| && MatchAt(t, at).Some?
    ensures var url := t[at..MatchAt(t, at).value];
            StartsWith(url[..Trimmed(url)], HTTP) || StartsWith(url[..Trimmed(url)], HTTPS)
  {
    HttpUnits();
    var url := t[at..MatchAt(t, at).value];
    var prefix := if StartsWith(t[at..], HTTPS) then HTTPS else HTTP;
    assert forall i :: 0 <= i < |prefix| ==> url[i] == t[at..][i] == prefix[i];
    assert !IsPunctuation(url[|prefix| - 1]);
    assert Trimmed(url) >= |prefix|;
  }

  // ── Splitting ────────────────────────────────────────────────────────────

  function Joined(tokens: seq<Token>): JsString {
    if tokens == [] then [] else Joined(tokens[..|tokens| - 1]) + tokens[|tokens| - 1].value
  }

  /** The first URL at or after a position, as the global search finds it. */
  function FirstMatch(t: JsString, from: nat): (at: Option<nat>)
    requires from <= |t|
    ensures at.Some? ==> from <= at.value <= |t| && MatchAt(t, at.value).Some?
    ensures forall i :: from <= i < (if at.Some? then at.value else |t| + 1) ==> MatchAt(t, i).None?
    decreases |t| - from
  {
    if MatchAt(t, from).Some? then Some(from)
    else if from == |t| then None
    else FirstMatch(t, from + 1)
  }

  /** Token `k` begins at this position of the text. */
  function Offset(tokens: seq<Token>, k: nat): nat
    requires k <= |tokens|
  {
    |Joined(tokens[..k])|
  }

  /** Token `k` is a link made of the URL at its position without its punctuation, and that punctuation, if
      any, is the next token. */
  ghost predicate LinkIsRight(t: JsString, tokens: seq<Token>, k: int) {
    && 0 <= k < |tokens|
    && var at := Offset(tokens, k);
    && at <= |t| && MatchAt(t, at).Some?
    && var url := t[at..MatchAt(t, at).value];
    && tokens[k].value == url[..Trimmed(url)]
    && (Trimmed(url) < |url| ==> k + 1 < |tokens| && tokens[k + 1] == Plain(url[Trimmed(url)..]))
  }

  /** The position lies inside the URL of some link token. */
  ghost predicate Covered(t: JsString, tokens: seq<Token>, at: nat) {
    exists k :: LinkIsRight(t, tokens, k) && tokens[k].Link?
                && Offset(tokens, k) <= at < MatchAt(t, Offset(tokens, k)).value
  }

  ghost predicate Partial(t: JsString, tokens: seq<Token>, cursor: nat) {
    && cursor <= |t|
    && Joined(tokens) == t[..cursor]
    && (forall k :: 0 <= k < |tokens| && tokens[k].Link? ==> LinkIsRight(t, tokens, k))
    && (forall k :: 0 <= k < |tokens| && tokens[k].Plain? ==> NoMatch(tokens[k].value) && tokens[k].value != [])
    && (forall i :: 0 <= i < cursor && MatchAt(t, i).Some? ==> Covered(t, tokens, i))
  }

  lemma JoinedSnoc(tokens: seq<Token>, token: Token)
    ensures Joined(tokens + [token]) == Joined(tokens) + token.value
  {
    assert (tokens + [token])[..|tokens|] == tokens;
  }

  lemma OffsetsStay(tokens: seq<Token>, more: seq<Token>, k: nat)
    requires k <= |tokens|
    ensures Offset(tokens + more, k) == Offset(tokens, k)
  {
    assert (tokens + more)[..k] == tokens[..k];
  }

  lemma LinksStay(t: JsString, tokens: seq<Token>, more: seq<Token>, k: int)
    requires LinkIsRight(t, tokens, k)
    ensures LinkIsRight(t, tokens + more, k) && Offset(tokens + more, k) == Offset(tokens, k)
  {
    OffsetsStay(tokens, more, k);
  }

  lemma CoverStays(t: JsString, tokens: seq<Token>, more: seq<Token>, at: nat)
    requires Covered(t, tokens, at)
    ensures Covered(t, tokens + more, at)
  {
    var k :| LinkIsRight(t, tokens, k) && tokens[k].Link? && Offset(tokens, k) <= at < MatchAt(t, Offset(tokens, k)).value;
    LinksStay(t, tokens, more, k);
    assert (tokens + more)[k] == tokens[k];
  }

  lemma AddPlain(t: JsString, tokens: seq<Token>, cursor: nat, next: nat)
    requires Partial(t, tokens, cursor) && cursor < next <= |t|
    requires forall i :: cursor <= i < next ==> MatchAt(t, i).None?
    ensures Partial(t, tokens + [Plain(t[cursor..next])], next)
  {
    var more := [Plain(t[cursor..next])];
    JoinedSnoc(tokens, more[0]);
    NothingBetween(t, cursor, next);
    hide MatchAt, Joined, NoMatch;
    forall k | 0 <= k < |tokens + more| && (tokens + more)[k].Link? ensures LinkIsRight(t, tokens + more, k) {
      LinksStay(t, tokens, more, k);
    }
    forall i | 0 <= i < next && MatchAt(t, i).Some? ensures Covered(t, tokens + more, i) {
      CoverStays(t, tokens, more, i);
    }
  }

  /** The tokens of the URL at `at`. */
  function LinkTokens(t: JsString, at: nat): seq<Token>
    requires at <= |t| && MatchAt(t, at).Some?
  {
    Cut(t[at..MatchAt(t, at).value], Trimmed(t[at..MatchAt(t, at).value]))
  }

  function Cut(url: JsString, kept: nat): seq<Token>
    requires kept <= |url|
  {
    [Link(url[..kept])] + if kept < |url| then [Plain(url[kept..])] else []
  }

  lemma AddLink(t: JsString, tokens: seq<Token>, at: nat)
    requires Partial(t, tokens, at) && MatchAt(t, at).Some?
    ensures Partial(t, tokens + LinkTokens(t, at), MatchAt(t, at).value)
  {
    hide MatchAt, Joined, NoMatch, Trimmed, Offset, LinkIsRight, Covered, InUrl, IsPunctuation;
    var end := MatchAt(t, at).value;
    var url := t[at..end];
    var kept := Trimmed(url);
    var more := LinkTokens(t, at);
    var all := tokens + more;
    JoinedCut(tokens, url, kept);
    assert t[..at] + url == t[..end];
    NewLinkIsRight(t, tokens, at);
    PunctuationHasNoMatch(url[kept..]);
    forall k | 0 <= k < |all| && all[k].Link? ensures LinkIsRight(t, all, k) {
      if k < |tokens| { LinksStay(t, tokens, more, k); }
    }
    forall i | 0 <= i < end && MatchAt(t, i).Some? ensures Covered(t, all, i) {
      if i < at { CoverStays(t, tokens, more, i); }
      else { NewLinkCovers(t, all, |tokens|, i); }
    }
  }

  lemma NewLinkCovers(t: JsString, tokens: seq<Token>, k: nat, i: nat)
    requires LinkIsRight(t, tokens, k) && tokens[k].Link?
    requires Offset(tokens, k) <= i < MatchAt(t, Offset(tokens, k)).value
    ensures Covered(t, tokens, i)
  {
  }

  lemma JoinedCut(tokens: seq<Token>, url: JsString, kept: nat)
    requires kept <= |url|
    ensures Joined(tokens + Cut(url, kept)) == Joined(tokens) + url
  {
    hide Joined;
    var link := Link(url[..kept]);
    JoinedSnoc(tokens, link);
    if kept < |url| {
      JoinedSnoc(tokens + [link], Plain(url[kept..]));
      assert tokens + Cut(url, kept) == tokens + [link] + [Plain(url[kept..])];
      assert Joined(tokens) + url == Joined(tokens) + url[..kept] + url[kept..];
    } else {
      assert tokens + Cut(url, kept) == tokens + [link];
      assert url[..kept] == url;
    }
  }

  lemma NewLinkIsRight(t: JsString, tokens: seq<Token>, at: nat)
    requires at <= |t| && MatchAt(t, at).Some? && Joined(tokens) == t[..at]
    ensures LinkIsRight(t, tokens + LinkTokens(t, at), |tokens|)
    ensures Offset(tokens + LinkTokens(t, at), |tokens|) == at
  {
    assert (tokens + LinkTokens(t, at))[..|tokens|] == tokens;
  }

  /** One round of the loop: the gap before the match, the link, and the punctuation cut off it. */
  method PushMatch(text: JsString, tokens: seq<Token>, cursor: nat, start: nat) returns (pushed: seq<Token>, next: nat)
    requires cursor <= start <= |text| && Partial(text, tokens, cursor) && MatchAt(text, start).Some?
    requires forall i :: cursor <= i < start ==> MatchAt(text, i).None?
    ensures next == MatchAt(text, start).value && Partial(text, pushed, next)
  {
    hide Partial, LinkIsRight, Covered, Joined, NoMatch, MatchAt, Trimmed, InUrl, IsPunctuation, Cut, HTTP, HTTPS;
    pushed := tokens;
    var url := text[start..MatchAt(text, start).value];
    var trailing := url[Trimmed(url)..];
    if start > cursor {
      AddPlain(text, tokens, cursor, start);
      pushed := pushed + [Plain(text[cursor..start])];
    }
    AddLink(text, pushed, start);
    CutTokens(pushed, url, Trimmed(url));
    url := url[..Trimmed(url)];
    pushed := pushed + [Link(url)];
    next := start + |url|;
    if trailing != [] {
      pushed := pushed + [Plain(trailing)];
      next := next + |trailing|;
    }
  }

  /** `splitLinks`: the tokens join to the input, no plain token contains a URL, every link is the URL at its
      place minus its trailing punctuation, and every URL of the text lies inside some link's URL. */
  method SplitLinks(text: JsString) returns (tokens: seq<Token>)
    ensures Joined(tokens) == text
    ensures forall k :: 0 <= k < |tokens| && tokens[k].Plain? ==> NoMatch(tokens[k].value) && tokens[k].value != []
    ensures forall k :: 0 <= k < |tokens| && tokens[k].Link? ==> LinkIsRight(text, tokens, k)
    ensures forall i :: 0 <= i <= |text| && MatchAt(text, i).Some? ==> Covered(text, tokens, i)
  {
    hide Partial, LinkIsRight, Covered, Joined, NoMatch, MatchAt, FirstMatch;
    tokens := [];
    var cursor := 0;
    NothingSplit(text);
    var found := FirstMatch(text, cursor);
    while found.Some?
      invariant cursor <= |text| && Partial(text, tokens, cursor)
      invariant found == FirstMatch(text, cursor)
      decreases |text| - cursor
    {
      tokens, cursor := PushMatch(text, tokens, cursor, found.value);
      found := FirstMatch(text, cursor);
    }
    if cursor < |text| {
      AddPlain(text, tokens, cursor, |text|);
      assert text[cursor..] == text[cursor..|text|];
      tokens := tokens + [Plain(text[cursor..])];
    }
    AllSplit(text, tokens);
  }

  lemma CutTokens(tokens: seq<Token>, url: JsString, kept: nat)
    requires kept <= |url|
    ensures tokens + Cut(url, kept) == if url[kept..] != [] then tokens + [Link(url[..kept])] + [Plain(url[kept..])] else tokens + [Link(url[..kept])]
  {
  }

  lemma NothingSplit(t: JsString)
    ensures Partial(t, [], 0)
  {
  }

  lemma AllSplit(t: JsString, tokens: seq<Token>)
    requires Partial(t, tokens, |t|)
    ensures Joined(tokens) == t
    ensures forall k :: 0 <= k < |tokens| && tokens[k].Plain? ==> NoMatch(tokens[k].value) && tokens[k].value != []
    ensures forall k :: 0 <= k < |tokens| && tokens[k].Link? ==> LinkIsRight(t, tokens, k)
    ensures forall i :: 0 <= i <= |t| && MatchAt(t, i).Some? ==> Covered(t, tokens, i)
  {
    assert t[..|t|] == t;
    HttpUnits();
    assert MatchAt(t, |t|).None?;
  }
}
