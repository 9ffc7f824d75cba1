/** Outbound protocol-version negotiation on a raw Agent Card. */
module Negotiation {
  import opened Wrappers
  import opened Json

  datatype Version = V03 | V10

  const JSONRPC := "JSONRPC"

  function VersionText(v: Version): string {
    if v == V10 then "1.0" else "0.3"
  }

  /** What `str.strip` takes for white space. */
  predicate IsSpace(c: char) {
    || '\t' <= c <= '\r' || '\U{1C}' <= c <= ' ' || c == '\U{85}' || c == '\U{A0}' || c == '\U{1680}'
    || '\U{2000}' <= c <= '\U{200A}' || c == '\U{2028}' || c == '\U{2029}' || c == '\U{202F}'
    || c == '\U{205F}' || c == '\U{3000}'
  }

  function Strip(s: string): string {
    if s != "" && IsSpace(s[0]) then Strip(s[1..])
    else if s != "" && IsSpace(s[|s| - 1]) then Strip(s[..|s| - 1])
    else s
  }

  /** `s.split(".")`: never empty. */
  function SplitDots(s: string): (parts: seq<string>)
    ensures parts != []
  {
    if s == "" then [""]
    else
      var rest := SplitDots(s[1..]);
      if s[0] == '.' then [""] + rest else [[s[0]] + rest[0]] + rest[1..]
  }

  function NormalizeVersion(raw: Json): Option<Version> {
    if !raw.Str? then None
    else
      var parts := SplitDots(Strip(raw.text));
      if parts[0] == "1" then Some(V10)
      else if parts[0] == "0" && |parts| > 1 && parts[1] == "3" then Some(V03)
      else None
  }

  /** One JSON-RPC endpoint a card advertises. */
  datatype Offer = Offer(version: Version, url: Option<string>, tenant: Option<string>)

  function InterfaceOffer(iface: Json): Option<Offer> {
    if !iface.Obj? then None
    else
      var binding := iface.Get("protocolBinding").GetOr(Str(JSONRPC));
      var version := NormalizeVersion(iface.Get("protocolVersion").GetOr(Null));
      if binding != Str(JSONRPC) || version.None? then None
      else Some(Offer(version.value, iface.GetStr("url"), iface.GetStr("tenant")))
  }

  function InterfaceOffers(ifaces: seq<Json>): (offers: seq<Offer>) {
    if ifaces == [] then []
    else
      var rest := InterfaceOffers(ifaces[1..]);
      var head := InterfaceOffer(ifaces[0]);
      if head.Some? then [head.value] + rest else rest
  }

  /** Every JSON-RPC endpoint of a card: its interfaces in order, then the top-level pair. */
  function Advertised(card: Json): seq<Offer> {
    var interfaces := card.Get("supportedInterfaces").GetOr(Null);
    var top := NormalizeVersion(card.Get("protocolVersion").GetOr(Null));
    (if interfaces.Arr? then InterfaceOffers(interfaces.items) else [])
    + (if top.Some? then [Offer(top.value, card.GetStr("url"), None)] else [])
  }

  predicate Offers(card: Json, v: Version) {
    exists o :: o in Advertised(card) && o.version == v
  }

  /** A preferred version wins when advertised; otherwise the highest advertised; otherwise 0.3. */
  function SelectOutbound(card: Json, preferred: Option<Version>): Version {
    if preferred.Some? && Offers(card, preferred.value) then preferred.value
    else if Offers(card, V10) then V10 else V03
  }

  function FirstUsable(offers: seq<Offer>, v: Version): Option<Offer> {
    if offers == [] then None
    else if offers[0].version == v && offers[0].url.GetOr("") != "" then Some(offers[0])
    else FirstUsable(offers[1..], v)
  }

  /** URL and tenant of the first usable endpoint for `v`, else the card's own URL. */
  function SelectInterfaceUrl(card: Json, v: Version): (Option<string>, Option<string>) {
    var o := FirstUsable(Advertised(card), v);
    if o.Some? then (o.value.url, o.value.tenant) else (card.GetStr("url"), None)
  }

  // ---------- what negotiation guarantees ----------

  /** White space is exactly these characters. */
  lemma SpaceExactly(c: char)
    ensures IsSpace(c) <==> c in {
              '\t', '\n', '\U{0B}', '\U{0C}', '\r', '\U{1C}', '\U{1D}', '\U{1E}', '\U{1F}', ' ', '\U{85}', '\U{A0}',
              '\U{1680}', '\U{2000}', '\U{2001}', '\U{2002}', '\U{2003}', '\U{2004}', '\U{2005}', '\U{2006}',
              '\U{2007}', '\U{2008}', '\U{2009}', '\U{200A}', '\U{2028}', '\U{2029}', '\U{202F}', '\U{205F}',
              '\U{3000}'}
  {
  }

  /** Stripping takes the white space off both ends and nothing else. */
  lemma {:induction false} StripExactly(s: string, head: string, body: string, tail: string)
    requires s == head + body + tail
    requires (forall c :: c in head ==> IsSpace(c)) && forall c :: c in tail ==> IsSpace(c)
    requires body != "" ==> !IsSpace(body[0]) && !IsSpace(body[|body| - 1])
    ensures Strip(s) == body
  {
    if head != "" {
      assert s[0] == head[0] && s[1..] == head[1..] + body + tail;
      StripExactly(s[1..], head[1..], body, tail);
    } else if tail != "" {
      assert s[|s| - 1] == tail[|tail| - 1] && s[..|s| - 1] == head + body + tail[..|tail| - 1];
      if body == "" {
        assert s[0] == tail[0];
        assert s[1..] == head + body + tail[1..];
        StripExactly(s[1..], head, body, tail[1..]);
      } else {
        assert s[0] == body[0];
        StripExactly(s[..|s| - 1], head, body, tail[..|tail| - 1]);
      }
    } else {
      assert s == body;
    }
  }

  /** `head` is everything before the first dot, or the whole text when there is none. */
  predicate IsHead(s: string, head: string) {
    '.' !in head && (s == head || head + "." <= s)
  }

  lemma {:induction false} SplitHead(s: string)
    ensures IsHead(s, SplitDots(s)[0])
    ensures |SplitDots(s)| > 1 ==> SplitDots(s)[0] + "." <= s
    ensures |SplitDots(s)| > 1 ==> SplitDots(s)[1..] == SplitDots(s[|SplitDots(s)[0]| + 1..])
    ensures |SplitDots(s)| == 1 ==> s == SplitDots(s)[0]
  {
    if s == "" {
    } else if s[0] == '.' {
      assert [""] + SplitDots(s[1..]) == SplitDots(s);
    } else {
      var t := s[1..];
      SplitHead(t);
      var head := SplitDots(t)[0];
      assert SplitDots(s)[0] == [s[0]] + head;
      assert s == [s[0]] + t;
      if |SplitDots(s)| > 1 {
        assert s[|head| + 2..] == t[|head| + 1..];
        assert SplitDots(s)[1..] == SplitDots(t)[1..];
      }
    }
  }

  lemma HeadShape(s: string, head: string)
    requires IsHead(s, head)
    ensures head <= s && forall i :: 0 <= i < |head| ==> s[i] != '.'
    ensures |head| < |s| ==> s[|head|] == '.'
  {
    if s != head {
      assert s[|head|] == (head + ".")[|head|];
    }
  }

  /** A text has one head. */
  lemma HeadUnique(s: string, a: string, b: string)
    requires IsHead(s, a) && IsHead(s, b)
    ensures a == b
  {
    HeadShape(s, a);
    HeadShape(s, b);
    assert |a| == |b|;
    assert a == s[..|a|] == b;
  }

  /** The first part is `head` exactly when the text is `head` or continues it with a dot. */
  lemma SplitFirst(s: string, head: string)
    requires '.' !in head
    ensures SplitDots(s)[0] == head <==> s == head || head + "." <= s
  {
    SplitHead(s);
    if IsHead(s, head) {
      HeadUnique(s, SplitDots(s)[0], head);
    }
  }

  /** Exactly which version strings mean 1.0: "1" alone or anything starting "1.". */
  lemma NormalizesToOne(text: string)
    ensures NormalizeVersion(Str(text)) == Some(V10) <==> Strip(text) == "1" || "1." <= Strip(text)
  {
    SplitFirst(Strip(text), "1");
    assert "1" + "." == "1.";
  }

  /** Exactly which version strings mean 0.3: "0.3" alone or anything starting "0.3.". */
  lemma NormalizesToLegacy(text: string)
    ensures NormalizeVersion(Str(text)) == Some(V03) <==> Strip(text) == "0.3" || "0.3." <= Strip(text)
  {
    var s := Strip(text);
    SplitFirst(s, "0");
    SplitHead(s);
    assert "0" + "." == "0.";
    if "0." <= s {
      var tail := s[2..];
      assert s == "0." + tail;
      assert |SplitDots(s)| > 1;
      assert SplitDots(s)[1] == SplitDots(tail)[0];
      SplitFirst(tail, "3");
      assert "3" + "." == "3.";
      LegacyTail(tail);
    } else {
      assert "0.3"[..2] == "0.";
      assert !("0.3" <= s);
    }
  }

  lemma LegacyTail(tail: string)
    ensures "0." + tail == "0.3" <==> tail == "3"
    ensures "0.3." <= "0." + tail <==> "3." <= tail
  {
    var s := "0." + tail;
    assert tail == s[2..];
    assert "3" == "0.3"[2..];
    assert "3." == "0.3."[2..];
    if "3." <= tail {
      assert "0.3." == "0." + "3.";
      assert s[..4] == "0." + tail[..2];
    }
    if "0.3." <= s {
      assert tail[..2] == s[2..4] == "3.";
    }
  }

  lemma {:induction false} FirstUsableIsFirst(offers: seq<Offer>, v: Version)
    ensures FirstUsable(offers, v).None? <==>
            forall o :: o in offers && o.version == v ==> o.url.GetOr("") == ""
    ensures FirstUsable(offers, v).Some? ==>
            exists i :: 0 <= i < |offers| && offers[i] == FirstUsable(offers, v).value
              && offers[i].version == v && offers[i].url.GetOr("") != ""
              && forall j :: 0 <= j < i && offers[j].version == v ==> offers[j].url.GetOr("") == ""
  {
    if offers == [] {
    } else if offers[0].version == v && offers[0].url.GetOr("") != "" {
      assert offers[0] in offers;
    } else {
      FirstUsableIsFirst(offers[1..], v);
      assert offers == [offers[0]] + offers[1..];
      if FirstUsable(offers, v).Some? {
        var rest := offers[1..];
        var i :| 0 <= i < |rest| && rest[i] == FirstUsable(rest, v).value
          && rest[i].version == v && rest[i].url.GetOr("") != ""
          && forall j :: 0 <= j < i && rest[j].version == v ==> rest[j].url.GetOr("") == "";
        assert offers[i + 1] == rest[i];
        forall j | 0 <= j < i + 1 && offers[j].version == v
          ensures offers[j].url.GetOr("") == ""
        {
          if j > 0 {
            assert offers[j] == rest[j - 1];
          }
        }
      }
    }
  }

  /**
   The chosen version is one the card advertises, unless it advertises none of the two;
   a request for an advertised version is always honoured, and 1.0 is never passed over
   except by request.
   */
  lemma SelectionIsAdvertised(card: Json, preferred: Option<Version>)
    ensures var v := SelectOutbound(card, preferred);
            && (Offers(card, v) || (v == V03 && !Offers(card, V10) && !Offers(card, V03)))
            && (preferred.Some? ==> (v == preferred.value
                 <==> Offers(card, preferred.value) || (preferred.value == V03 && !Offers(card, V10))))
            && (Offers(card, V10) && v == V03 ==> preferred == Some(V03) && Offers(card, V03))
  {
  }

  /** The selected URL is non-empty exactly when some endpoint of that version names one, or the card does. */
  lemma SelectedUrlUsable(card: Json, v: Version)
    ensures var (url, tenant) := SelectInterfaceUrl(card, v);
            && (url.GetOr("") != "" <==>
                 (exists o :: o in Advertised(card) && o.version == v && o.url.GetOr("") != "")
                 || card.GetStr("url").GetOr("") != "")
            && (tenant.Some? ==>
                 exists o :: o in Advertised(card) && o.version == v && o.url == url && o.tenant == tenant)
  {
    FirstUsableIsFirst(Advertised(card), v);
  }
}
