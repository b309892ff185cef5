/**
 * From scraped links to the rows the reports read.
 *
 * `ScrapePage` passes `GetMD5Hash(url)` as the second argument of
 * `NewLink`, whose second parameter is the parent URL.  Every link therefore
 * records the hash of its own URL where the reports expect the page that
 * links to it.  This module states what that does to the inbound report,
 * and defines the link construction the `Link` record is designed for,
 * with the report it yields.
 */
module Edges {
  import opened Seqs
  import opened Links
  import opened Scrape
  import opened Reports

  /**
   * The `(URL, ParentURL)` rows the report query would read back if the
   * links were stored; `ProcessPage` only logs them.
   */
  function Rows(links: seq<Link>): seq<ReportItem>
  {
    seq(|links|, i requires 0 <= i < |links| => ReportItem(links[i].url, links[i].parentURL))
  }

  /**
   * When every link records `parentOf(url)` as its parent URL, the inbound
   * report maps each target URL to exactly that one parent.
   */
  lemma InboundOfDeterminedParents(links: seq<Link>, parentOf: string -> string)
    requires forall i :: 0 <= i < |links| ==> links[i].parentURL == parentOf(links[i].url)
    ensures var c := InboundLinksReport(Rows(links));
      && (forall u :: u in c <==> HasLinkTo(links, u))
      && (forall u | u in c :: c[u] == [parentOf(u)])
  {
    var rows := Rows(links);
    var c := InboundLinksReport(rows);
    RowsOfDetermined(links, parentOf);
    forall u ensures u in c <==> HasLinkTo(links, u) {
      if HasLinkTo(links, u) {
        assert ReportItem(u, parentOf(u)) in rows;
      }
    }
    forall u | u in c
      ensures c[u] == [parentOf(u)]
    {
      assert forall p :: p in c[u] <==> p in [parentOf(u)];
      SortedDistinctUnique(c[u], [parentOf(u)]);
    }
  }

  lemma RowsOfDetermined(links: seq<Link>, parentOf: string -> string)
    requires forall i :: 0 <= i < |links| ==> links[i].parentURL == parentOf(links[i].url)
    ensures forall u, p :: ReportItem(u, p) in Rows(links) <==> HasLinkTo(links, u) && p == parentOf(u)
  {
    var rows := Rows(links);
    forall u, p ensures ReportItem(u, p) in rows <==> HasLinkTo(links, u) && p == parentOf(u) {
      if ReportItem(u, p) in rows {
        var i :| 0 <= i < |rows| && rows[i] == ReportItem(u, p);
        assert links[i].url == u;
      }
      if HasLinkTo(links, u) && p == parentOf(u) {
        var i :| 0 <= i < |links| && links[i].url == u;
        assert rows[i] == ReportItem(u, p);
      }
    }
  }

  /**
   * As `ScrapePage` builds links, the inbound report lists, for each URL
   * found on a page, only the hash of that URL itself as linking to it.
   */
  lemma AsWrittenInboundReport(doc: seq<Node>, rootURL: string, parentURL: string, hash: string -> string, clock: nat -> int)
    ensures var c := InboundLinksReport(Rows(Scraped(doc, rootURL, parentURL, hash, clock)));
      && (forall u :: u in c <==> LinkedFrom(doc, rootURL, u))
      && (forall u | u in c :: c[u] == [hash(u)])
  {
    var links := Scraped(doc, rootURL, parentURL, hash, clock);
    ScrapedUrls(doc, rootURL, parentURL, hash, clock);
    InboundOfDeterminedParents(links, hash);
    ScrapedTargets(doc, rootURL, parentURL, hash, clock);
  }

  /** The one-anchor page of the witness below. */
  lemma OneAnchorPage(doc: seq<Node>)
    requires doc == [Node(ElementNode, "a", [Attribute("", "href", "/x")])]
    ensures Hrefs(doc) == ["/x"]
    ensures LinkedFrom(doc, "http://a.test", "http://a.test/x")
  {
    var attrs := [Attribute("", "href", "/x")];
    assert attrs[..0] == [];
    assert AttrHrefs(attrs) == ["/x"];
    assert doc[..0] == [];
    assert Hrefs(doc) == ["/x"];
    assert Normalize("http://a.test", "/x") == "http://a.test/x";
  }

  /**
   * The same page as `ProcessPage` logs it: one link, whose `parent_url`
   * is the hash of the link's own URL and, for any hash of MD5's length,
   * not the page.
   */
  lemma AsWrittenLinkMissesParent(hash: string -> string, clock: nat -> int)
    requires forall s :: |hash(s)| == 32
    ensures var doc := [Node(ElementNode, "a", [Attribute("", "href", "/x")])];
      var links := Scraped(doc, "http://a.test", "http://a.test/", hash, clock);
      && |links| == 1
      && links[0].url == "http://a.test/x"
      && links[0].parent == hash("http://a.test/")
      && links[0].parentURL == hash("http://a.test/x")
      && links[0].parentURL != "http://a.test/"
  {
    var doc := [Node(ElementNode, "a", [Attribute("", "href", "/x")])];
    OneAnchorPage(doc);
    ScrapedSingle(doc, "http://a.test", "http://a.test/", "/x", hash, clock);
    assert Normalize("http://a.test", "/x") == "http://a.test/x";
    assert |hash("http://a.test/x")| != |"http://a.test/"|;
  }

  /** A page with a single anchor href yields the single link for its normalised form. */
  lemma ScrapedSingle(doc: seq<Node>, rootURL: string, parentURL: string, h: string, hash: string -> string, clock: nat -> int)
    requires Hrefs(doc) == [h]
    ensures var u := Normalize(rootURL, h);
      Scraped(doc, rootURL, parentURL, hash, clock) == [NewLink(hash(parentURL), hash(u), u, clock(0))]
  {
    var urls := Urls(rootURL, [h]);
    assert urls == [Normalize(rootURL, h)];
    assert urls[..0] == [];
    assert Dedup(urls) == urls;
  }

  /**
   * A page whose only anchor is `/x`: with any hash of MD5's 32-hex-digit
   * length, the inbound report for the linked URL does not name the page.
   */
  lemma AsWrittenReportMissesParent(hash: string -> string, clock: nat -> int)
    requires forall s :: |hash(s)| == 32
    ensures var doc := [Node(ElementNode, "a", [Attribute("", "href", "/x")])];
      var c := InboundLinksReport(Rows(Scraped(doc, "http://a.test", "http://a.test/", hash, clock)));
      "http://a.test/x" in c && "http://a.test/" !in c["http://a.test/x"]
  {
    var doc := [Node(ElementNode, "a", [Attribute("", "href", "/x")])];
    OneAnchorPage(doc);
    assert |hash("http://a.test/x")| != |"http://a.test/"|;
    ParentMissing(doc, "http://a.test", "http://a.test/", "http://a.test/x", hash, clock);
  }

  /** A linked URL whose hash differs from the page's URL does not list the page. */
  lemma ParentMissing(doc: seq<Node>, rootURL: string, parentURL: string, u: string, hash: string -> string, clock: nat -> int)
    requires LinkedFrom(doc, rootURL, u)
    requires hash(u) != parentURL
    ensures var c := InboundLinksReport(Rows(Scraped(doc, rootURL, parentURL, hash, clock)));
      u in c && parentURL !in c[u]
  {
    AsWrittenInboundReport(doc, rootURL, parentURL, hash, clock);
  }

  /** The intended construction: `NewLink(hash(parentURL), parentURL, url)`. */
  function IntendedLinks(doc: seq<Node>, rootURL: string, parentURL: string, hash: string -> string, clock: nat -> int)
    : (links: seq<Link>)
    ensures |links| == |Scraped(doc, rootURL, parentURL, hash, clock)|
    ensures forall i :: 0 <= i < |links| ==>
      && links[i].url == Scraped(doc, rootURL, parentURL, hash, clock)[i].url
      && links[i].parent == hash(parentURL)
      && links[i].parentURL == parentURL
      && links[i].id == 0
      && links[i].created == clock(i)
  {
    ScrapedUrls(doc, rootURL, parentURL, hash, clock);
    var urls := Dedup(Urls(rootURL, Hrefs(doc)));
    seq(|urls|, k requires 0 <= k < |urls| => NewLink(hash(parentURL), parentURL, urls[k], clock(k)))
  }

  /** With the intended construction, the inbound report names the page under every URL it links to. */
  lemma IntendedInboundReport(doc: seq<Node>, rootURL: string, parentURL: string, hash: string -> string, clock: nat -> int)
    ensures var c := InboundLinksReport(Rows(IntendedLinks(doc, rootURL, parentURL, hash, clock)));
      && (forall u :: u in c <==> LinkedFrom(doc, rootURL, u))
      && (forall u | u in c :: c[u] == [parentURL])
  {
    var links := IntendedLinks(doc, rootURL, parentURL, hash, clock);
    var scraped := Scraped(doc, rootURL, parentURL, hash, clock);
    InboundOfDeterminedParents(links, _ => parentURL);
    ScrapedTargets(doc, rootURL, parentURL, hash, clock);
    forall u ensures HasLinkTo(links, u) <==> HasLinkTo(scraped, u) {
      if HasLinkTo(links, u) {
        var i :| 0 <= i < |links| && links[i].url == u;
        assert scraped[i].url == u;
      }
      if HasLinkTo(scraped, u) {
        var i :| 0 <= i < |scraped| && scraped[i].url == u;
        assert links[i].url == u;
      }
    }
  }
}
