/**
 The URL contract between the published Agent Card and the client that discovers it
 (well-known URIs: section 3 of RFC 8615).
 */
module Urls {
  import opened Wrappers
  import opened Text

  const WELL_KNOWN_CARD_PATH := "/.well-known/agent-card.json"
  const WELL_KNOWN_MARK := "/.well-known/"

  /** The tenant-scoped endpoint a card advertises. */
  function CardUrl(baseUrl: Option<string>, org: Option<string>): string {
    var base := RStrip(baseUrl.GetOr(""), '/');
    if org.GetOr("") != "" then base + "/" + org.value else base
  }

  /** The host's route table: the card path and the RPC path, relative to the base URL. */
  function RoutePaths(org: Option<string>): (string, string) {
    var rpcPath := if org.GetOr("") != "" then "/" + org.value else "";
    (rpcPath + WELL_KNOWN_CARD_PATH, rpcPath)
  }

  /** The URL the client sends its discovery GET to. */
  function DiscoveryUrl(url: string): string {
    if !EndsWith(url, WELL_KNOWN_CARD_PATH) && !Contains(url, WELL_KNOWN_MARK)
    then RStrip(url, '/') + WELL_KNOWN_CARD_PATH
    else url
  }

  /** The route table serves RPC requests at exactly the URL the card advertises. */
  lemma RouteMatchesCard(baseUrl: Option<string>, org: Option<string>)
    ensures RStrip(baseUrl.GetOr(""), '/') + RoutePaths(org).1 == CardUrl(baseUrl, org)
  {
    var base := RStrip(baseUrl.GetOr(""), '/');
    if org.GetOr("") != "" {
      assert base + ("/" + org.value) == base + "/" + org.value;
    }
  }

  lemma SuffixHoldsMark(url: string)
    requires EndsWith(url, WELL_KNOWN_CARD_PATH)
    ensures Contains(url, WELL_KNOWN_MARK)
  {
    var head := url[..|url| - |WELL_KNOWN_CARD_PATH|];
    var tail := "agent-card.json";
    assert WELL_KNOWN_CARD_PATH == WELL_KNOWN_MARK + tail;
    assert url == head + WELL_KNOWN_MARK + tail;
    ContainsPart(head, WELL_KNOWN_MARK, tail);
  }

  /** The client's suffix test never decides anything: the mark test covers it. */
  lemma DiscoveryUrlOneTest(url: string)
    ensures DiscoveryUrl(url)
         == if Contains(url, WELL_KNOWN_MARK) then url else RStrip(url, '/') + WELL_KNOWN_CARD_PATH
  {
    if EndsWith(url, WELL_KNOWN_CARD_PATH) {
      SuffixHoldsMark(url);
    }
  }

  lemma DiscoveryUrlHoldsMark(url: string)
    ensures Contains(DiscoveryUrl(url), WELL_KNOWN_MARK)
  {
    DiscoveryUrlOneTest(url);
    if !Contains(url, WELL_KNOWN_MARK) {
      var r := DiscoveryUrl(url);
      assert r[|r| - |WELL_KNOWN_CARD_PATH|..] == WELL_KNOWN_CARD_PATH;
      SuffixHoldsMark(r);
    }
  }

  /** Normalising a normalised URL changes nothing. */
  lemma DiscoveryUrlIdempotent(url: string)
    ensures DiscoveryUrl(DiscoveryUrl(url)) == DiscoveryUrl(url)
  {
    DiscoveryUrlHoldsMark(url);
  }

  lemma SlashComesFromOrg(baseUrl: Option<string>, org: Option<string>)
    ensures EndsWith(CardUrl(baseUrl, org), "/") <==> EndsWith(org.GetOr(""), "/")
  {
    var url := CardUrl(baseUrl, org);
    if org.GetOr("") != "" {
      assert url[|url| - 1] == org.value[|org.value| - 1];
    }
  }

  lemma EndsWithSlash(url: string)
    ensures EndsWith(url, "/") <==> RStrip(url, '/') != url
  {
    if url != "" {
      assert url[|url| - 1..] == [url[|url| - 1]];
    }
  }

  lemma AppendAgrees(url: string, path: string, marked: bool)
    requires path != ""
    ensures (if marked then url else RStrip(url, '/') + path) == url + path <==> !EndsWith(url, "/") && !marked
  {
    var stripped := RStrip(url, '/');
    if marked {
      assert |url + path| > |url|;
    } else {
      EndsWithSlash(url);
      if EndsWith(url, "/") {
        assert |stripped + path| < |url + path|;
      }
    }
  }

  /**
   Discovery starting from the advertised URL hits the served card path exactly when the org id
   does not end in a slash and the advertised URL carries no well-known mark of its own.
   */
  lemma DiscoveryFindsServedCard(baseUrl: Option<string>, org: Option<string>)
    ensures DiscoveryUrl(CardUrl(baseUrl, org)) == RStrip(baseUrl.GetOr(""), '/') + RoutePaths(org).0
       <==> !EndsWith(org.GetOr(""), "/") && !Contains(CardUrl(baseUrl, org), WELL_KNOWN_MARK)
  {
    var url := CardUrl(baseUrl, org);
    var served := RStrip(baseUrl.GetOr(""), '/') + RoutePaths(org).0;
    RouteMatchesCard(baseUrl, org);
    assert served == url + WELL_KNOWN_CARD_PATH;
    DiscoveryUrlOneTest(url);
    SlashComesFromOrg(baseUrl, org);
    AppendAgrees(url, WELL_KNOWN_CARD_PATH, Contains(url, WELL_KNOWN_MARK));
  }

  /** An org id ending in a slash is served at a path discovery never asks for. */
  lemma TrailingSlashMissesCard(baseUrl: Option<string>)
    ensures DiscoveryUrl(CardUrl(baseUrl, Some("acme/")))
         != RStrip(baseUrl.GetOr(""), '/') + RoutePaths(Some("acme/")).0
  {
    assert "acme/"[4..] == "/";
    assert EndsWith("acme/", "/");
    DiscoveryFindsServedCard(baseUrl, Some("acme/"));
  }
}
