/** Card links: the single parsing seam of every contact input, and the `/add` deep link. */
module CardLink {
  import opened Js
  import opened CardLayout
  import opened ContactCard
  import Base64Url

  function UrlPrefix(): JsString {
    Text("https://few.chat/add#c=")
  }

  /** The marker in front of an embedded payload, in links and in location hashes alike. */
  function Marker(): JsString {
    Text("#c=")
  }

  function BuildShareUrl(payload: JsString): JsString {
    UrlPrefix() + payload
  }

  /** The part of a URL a browser reports as `location.hash`. */
  function LocationHash(url: JsString): JsString {
    match IndexOf(url, Text("#"))
    case None => []
    case Some(i) => url[i..]
  }

  function ExtractCardPayload(hash: JsString): Option<JsString> {
    match IndexOf(hash, Marker())
    case None => None
    case Some(i) => if hash[i + 3..] == [] then None else Some(hash[i + 3..])
  }

  // ── parseContactCard ─────────────────────────────────────────────────────

  datatype ParsedProfile = ParsedProfile(nickname: JsString, updatedAt: JsString)

  datatype Parsed = Parsed(pubkeyHex: JsString, profile: Option<ParsedProfile>, pairing: Option<Pairing>)

  datatype ParseError = EmptyInput | InvalidNpub | EmptyPayload | BadCard(error: CardError)

  /** Decoding an npub, rendering a date and verifying a signature are library code. */
  datatype Library = Library(npub: JsString -> Option<JsString>, isoDate: uint32 -> JsString, verify: Verifier)

  function FromDecoded(d: DecodedCard, lib: Library): Parsed {
    match d.profile
    case None => Parsed(d.pubkeyHex, None, None)
    case Some(p) => Parsed(d.pubkeyHex, Some(ParsedProfile(p.nickname, lib.isoDate(p.createdAt))), d.pairing)
  }

  function ParsePayload(payload: JsString, lib: Library): Result<Parsed, ParseError> {
    match Decoded(payload, lib.verify)
    case Err(e) => Err(BadCard(e))
    case Ok(d) => Ok(FromDecoded(d, lib))
  }

  function StripScheme(s: JsString): JsString {
    if StartsWith(Lower(s), Text("nostr:")) then Trim(s[6..]) else s
  }

  predicate LooksLikeNpub(s: JsString) {
    StartsWith(Lower(s), Text("npub1"))
  }

  function ParseContactCard(input: JsString, lib: Library): Result<Parsed, ParseError> {
    if Trim(input) == [] then Err(EmptyInput)
    else
      var trimmed := StripScheme(Trim(input));
      if trimmed == [] then Err(EmptyInput)
      else if LooksLikeNpub(trimmed) then
        match lib.npub(trimmed)
        case None => Err(InvalidNpub)
        case Some(pubkeyHex) => Ok(Parsed(pubkeyHex, None, None))
      else
        var payload :=
          match IndexOf(trimmed, Marker())
          case None => trimmed
          case Some(i) => trimmed[i + 3..];
        if payload == [] then Err(EmptyPayload) else ParsePayload(payload, lib)
  }

  // ── Both ways of sharing a payload parse alike ──────────────────────────

  lemma SymbolsAreNotSpecial(u: CodeUnit)
    requires Base64Url.IsSymbol(u)
    ensures !IsSpace(u) && u != '#' as int && u != ':' as int
  {
  }

  lemma NothingToTrim(s: JsString)
    requires s == [] || (!IsSpace(s[0]) && !IsSpace(s[|s| - 1]))
    ensures Trim(s) == s
  {
  }

  lemma NoScheme(s: JsString)
    requires |s| > 5 ==> s[5] != ':' as int
    ensures StripScheme(s) == s
  {
    assert Text("nostr:")[5] == ':' as int;
  }

  lemma NoMarkerInSymbols(s: JsString)
    requires Base64Url.AllSymbols(s)
    ensures IndexOf(s, Marker()).None?
  {
    match IndexOf(s, Marker())
    case None =>
    case Some(i) =>
      assert s[i] == s[i..][0] == Marker()[0];
      SymbolsAreNotSpecial(s[i]);
  }

  /** A raw payload goes to the card decoder untouched, unless it looks like an npub. */
  lemma ParseRawPayload(payload: JsString, lib: Library)
    requires Base64Url.AllSymbols(payload) && payload != [] && !LooksLikeNpub(payload)
    ensures ParseContactCard(payload, lib) == ParsePayload(payload, lib)
  {
    SymbolsAreNotSpecial(payload[0]);
    SymbolsAreNotSpecial(payload[|payload| - 1]);
    NothingToTrim(payload);
    if |payload| > 5 { SymbolsAreNotSpecial(payload[5]); }
    NoScheme(payload);
    NoMarkerInSymbols(payload);
  }

  lemma UrlPrefixShape()
    ensures |UrlPrefix()| == 23 && UrlPrefix()[0] == 'h' as int && UrlPrefix()[5] == ':' as int
    ensures forall i :: 0 <= i < 20 ==> UrlPrefix()[i] != '#' as int
    ensures UrlPrefix()[20..] == Marker() && |Marker()| == 3 && Marker()[0] == '#' as int
    ensures Text("#") == ['#' as int] && Text("nostr:")[0] == 'n' as int && Text("npub1")[0] == 'n' as int
  {
  }

  /** The only '#' of a share link is the one of its marker. */
  lemma MarkerInUrl(payload: JsString)
    ensures IndexOf(BuildShareUrl(payload), Marker()) == Some(20)
    ensures IndexOf(BuildShareUrl(payload), Text("#")) == Some(20)
    ensures BuildShareUrl(payload)[20..] == Marker() + payload
    ensures BuildShareUrl(payload)[23..] == payload
  {
    hide Text, UrlPrefix, Marker, IndexOf;
    UrlPrefixShape();
    var url := BuildShareUrl(payload);
    assert url[20..] == Marker() + payload;
    assert url[20] == url[20..][0] == '#' as int;
    FirstIndex(url, Marker(), 20);
    FirstIndex(url, Text("#"), 20);
  }

  lemma FirstIndex(s: JsString, needle: JsString, k: nat)
    requires needle != [] && k <= |s| && StartsWith(s[k..], needle)
    requires forall i :: 0 <= i < k ==> s[i] != needle[0]
    ensures IndexOf(s, needle) == Some(k)
  {
    hide IndexOf;
    assert forall i :: 0 <= i < k ==> s[i..][0] == s[i];
    assert forall i :: 0 <= i < k ==> !StartsWith(s[i..], needle);
  }

  /** What a pasted payload yields: the card's key; with a profile, its nickname, its time rendered as a date, and
      the pairing data of a v2 card; or the decoder's error. */
  lemma PayloadIsParsed(payload: JsString, lib: Library)
    ensures var r, decoded := ParsePayload(payload, lib), Decoded(payload, lib.verify);
            match decoded
            case Err(e) => r == Err(BadCard(e))
            case Ok(d) =>
              && r.Ok? && r.value.pubkeyHex == d.pubkeyHex
              && (r.value.profile.Some? <==> d.profile.Some?)
              && (d.profile.Some? ==> && r.value.profile.value.nickname == d.profile.value.nickname
                                      && r.value.profile.value.updatedAt == lib.isoDate(d.profile.value.createdAt)
                                      && r.value.pairing == d.pairing)
              && (d.profile.None? ==> r.value.pairing == None)
  {
    hide Decoded;
  }

  lemma {:induction false} AllSpaceTrims(s: JsString)
    requires forall u :: u in s ==> IsSpace(u)
    ensures Trim(s) == []
  {
    if s != [] {
      assert s[0] in s;
      AllSpaceTrims(s[1..]);
    }
  }

  /** Inputs with nothing in them: white space alone, or behind a `nostr:`, and a link that ends at its marker. */
  lemma NothingToParse(before: JsString, scheme: JsString, after: JsString, link: JsString, lib: Library)
    requires forall u :: u in before || u in after ==> IsSpace(u)
    requires Lower(scheme) == Text("nostr:")
    requires link != [] && !IsSpace(link[0]) && !LooksLikeNpub(link) && StripScheme(link) == link
    requires IndexOf(link, Text("#c=")) == Some(|link| - 3)
    ensures ParseContactCard(before, lib) == Err(EmptyInput)
    ensures ParseContactCard(before + scheme + after, lib) == Err(EmptyInput)
    ensures ParseContactCard(link, lib) == Err(EmptyPayload)
  {
    AllSpaceTrims(before);
    BareScheme(before, scheme, after);
    assert link[|link| - 3..][2] == Text("#c=")[2] == '=' as int;
    NothingToTrim(link);
    hide IndexOf, Text, StripScheme, LooksLikeNpub, Trim;
  }

  lemma BareScheme(before: JsString, scheme: JsString, after: JsString)
    requires forall u :: u in before || u in after ==> IsSpace(u)
    requires Lower(scheme) == Text("nostr:")
    ensures Trim(before + scheme + after) == scheme && StripScheme(scheme) == []
  {
    assert |scheme| == |Lower(scheme)| == 6;
    assert Lower(scheme)[0] == LowerUnit(scheme[0]) && Text("nostr:")[0] == 'n' as int;
    assert Lower(scheme)[5] == LowerUnit(scheme[5]) && Text("nostr:")[5] == ':' as int;
    TrimAround(before, scheme, after);
    assert scheme[6..] == [];
  }

  /** Any other text with a marker in it goes to the card decoder from behind its first marker, and any without
      one as it is. */
  lemma TextIsParsed(before: JsString, s: JsString, after: JsString, lib: Library)
    requires forall u :: u in before || u in after ==> IsSpace(u)
    requires s != [] && !IsSpace(s[0]) && !IsSpace(s[|s| - 1]) && !LooksLikeNpub(s) && StripScheme(s) == s
    ensures ParseContactCard(before + s + after, lib)
            == match IndexOf(s, Text("#c="))
               case None => ParsePayload(s, lib)
               case Some(i) => if i + 3 == |s| then Err(EmptyPayload) else ParsePayload(s[i + 3..], lib)
  {
    TrimAround(before, s, after);
    hide IndexOf, Text, StripScheme, LooksLikeNpub, Trim, ParsePayload;
  }

  /** The share link in full, and what its hash yields. */
  lemma ShareUrlIs(payload: JsString, hash: JsString)
    ensures BuildShareUrl(payload) == Text("https://few.chat/add") + Text("#c=") + payload
    ensures match IndexOf(hash, Text("#c="))
            case None => ExtractCardPayload(hash) == None
            case Some(i) => ExtractCardPayload(hash) == if i + 3 == |hash| then None else Some(hash[i + 3..])
  {
    assert Text("https://few.chat/add#c=") == Text("https://few.chat/add") + Text("#c=");
    hide Text, IndexOf;
  }

  lemma {:induction false} TrimAround(before: JsString, s: JsString, after: JsString)
    requires (forall u :: u in before ==> IsSpace(u)) && (forall u :: u in after ==> IsSpace(u))
    requires s != [] && !IsSpace(s[0]) && !IsSpace(s[|s| - 1])
    ensures Trim(before + s + after) == s
    decreases |before|, |after|
  {
    if before != [] {
      TrimAround(before[1..], s, after);
      assert (before + s + after)[1..] == before[1..] + s + after;
      assert before[0] in before;
    } else {
      TrimEndAround(s, after);
      assert before + s + after == s + after;
    }
  }

  lemma {:induction false} TrimEndAround(s: JsString, after: JsString)
    requires (forall u :: u in after ==> IsSpace(u)) && s != [] && !IsSpace(s[|s| - 1])
    ensures TrimEnd(s + after) == s
    decreases |after|
  {
    if after == [] {
      assert s + after == s;
    } else {
      TrimEndAround(s, after[..|after| - 1]);
      assert (s + after)[..|s + after| - 1] == s + after[..|after| - 1];
      assert after[|after| - 1] in after;
    }
  }

  /** `npub1...` in either case, with nothing to trim. */
  predicate IsNpubText(s: JsString) {
    |s| >= 5 && Lower(s[..5]) == Text("npub1") && !IsSpace(s[|s| - 1])
  }

  lemma NpubLooksLikeOne(s: JsString)
    requires IsNpubText(s)
    ensures LooksLikeNpub(s) && !IsSpace(s[0]) && StripScheme(s) == s
  {
    assert forall i :: 0 <= i < 5 ==> Lower(s)[i] == Lower(s[..5])[i];
    assert Text("npub1")[0] == 'n' as int && Text("npub1")[1] == 'p' as int && Text("nostr:")[1] == 'o' as int;
    assert Lower(s)[0] == LowerUnit(s[0]);
  }

  lemma SchemeIsStripped(scheme: JsString, space: JsString, s: JsString)
    requires Lower(scheme) == Text("nostr:") && (forall u :: u in space ==> IsSpace(u))
    requires s != [] && !IsSpace(s[0]) && !IsSpace(s[|s| - 1])
    ensures StripScheme(scheme + space + s) == s
    ensures |scheme| == 6 && !IsSpace(scheme[0])
  {
    var t := scheme + space + s;
    assert |scheme| == |Lower(scheme)| == 6;
    assert forall i :: 0 <= i < 6 ==> Lower(t)[i] == Lower(scheme)[i];
    assert Lower(scheme)[0] == LowerUnit(scheme[0]) && Text("nostr:")[0] == 'n' as int;
    assert t[6..] == space + s + [];
    TrimAround(space, s, []);
  }

  /** An npub in either case, bare or behind `nostr:` in any case, and surrounded by white space or not, is what
      the npub decoder makes of it: a key without a profile, or an error. */
  lemma NpubIsParsed(before: JsString, scheme: JsString, space: JsString, npub: JsString, after: JsString, lib: Library)
    requires IsNpubText(npub) && (scheme == space == [] || Lower(scheme) == Text("nostr:"))
    requires forall u :: u in before || u in space || u in after ==> IsSpace(u)
    ensures ParseContactCard(before + (scheme + space + npub) + after, lib)
            == match lib.npub(npub)
               case None => Err(InvalidNpub)
               case Some(pubkeyHex) => Ok(Parsed(pubkeyHex, None, None))
  {
    hide Text, LooksLikeNpub, IndexOf, Trim, StripScheme, Lower;
    var middle := scheme + space + npub;
    NpubLooksLikeOne(npub);
    assert npub[|npub| - 1] == middle[|middle| - 1];
    if scheme == [] {
      assert middle == npub;
    } else {
      SchemeIsStripped(scheme, space, npub);
      assert middle[0] == scheme[0];
    }
    TrimAround(before, middle, after);
  }

  lemma ParseSharedUrl(payload: JsString, lib: Library)
    requires Base64Url.AllSymbols(payload) && payload != []
    ensures ParseContactCard(BuildShareUrl(payload), lib) == ParsePayload(payload, lib)
  {
    hide Text, UrlPrefix, Marker, IndexOf, ParsePayload, Trim;
    UrlPrefixShape();
    var url := BuildShareUrl(payload);
    assert url[0] == 'h' as int;
    assert url[|url| - 1] == payload[|payload| - 1];
    SymbolsAreNotSpecial(payload[|payload| - 1]);
    NothingToTrim(url);
    assert Lower(url)[0] == 'h' as int;
    MarkerInUrl(payload);
  }

  /** An accepted payload begins with A (unsigned), I (v1) or Y (v2). */
  lemma AcceptedFirstSymbol(payload: JsString, verify: Verifier)
    requires Decoded(payload, verify).Ok?
    ensures payload != [] && payload[0] in {'A' as int, 'I' as int, 'Y' as int}
    ensures Base64Url.AllSymbols(payload) && !LooksLikeNpub(payload)
  {
    hide Text, Decoded;
    var c := AcceptedIsOnePayload(payload, verify);
    var bytes := Pack(c);
    assert payload[0] == Base64Url.Symbol(bytes[0] / 4) by {
      Base64Url.EncodedDigit(bytes, 0);
    }
    assert Lower(payload)[0] != 'n' as int;
    UrlPrefixShape();
  }

  /** Pasting a payload, following its share link, and opening the link's hash all reach the same card. */
  lemma ShareLinkRoundTrip(payload: JsString, lib: Library)
    requires Decoded(payload, lib.verify).Ok?
    ensures ParseContactCard(payload, lib) == Ok(FromDecoded(Decoded(payload, lib.verify).value, lib))
    ensures ParseContactCard(BuildShareUrl(payload), lib) == ParseContactCard(payload, lib)
    ensures ExtractCardPayload(LocationHash(BuildShareUrl(payload))) == Some(payload)
  {
    hide Text, UrlPrefix, IndexOf, Decoded, ParseContactCard;
    AcceptedFirstSymbol(payload, lib.verify);
    ParseRawPayload(payload, lib);
    ParseSharedUrl(payload, lib);
    MarkerInUrl(payload);
    var hash := LocationHash(BuildShareUrl(payload));
    assert hash == Marker() + payload;
    assert hash[0..] == hash && hash[3..] == payload;
    FirstIndex(hash, Marker(), 0);
  }
}
