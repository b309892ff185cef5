/**
 * Link extraction (`Indexer.ScrapePage`): walk the parsed page, take the
 * `href` of every `a` element, make root-relative hrefs absolute, and keep
 * one link per distinct URL in the order of first appearance.
 *
 * The parsed HTML tree is given as its nodes in the order the tree walk
 * visits them.  The page's MD5 hash function and the clock are parameters.
 */
module Scrape {
  import opened Strings
  import opened Seqs
  import opened Links

  datatype NodeType = ErrorNode | TextNode | DocumentNode | ElementNode | CommentNode | DoctypeNode

  datatype Attribute = Attribute(namespace: string, key: string, val: string)

  /** An HTML node: its type, its tag name (`Data`) and its attributes. */
  datatype Node = Node(nodeType: NodeType, data: string, attr: seq<Attribute>)

  predicate IsAnchor(n: Node)
  {
    n.nodeType == ElementNode && n.data == "a"
  }

  /** Root-relative hrefs are prefixed with the page's root URL; others are kept verbatim. */
  function Normalize(rootURL: string, href: string): (url: string)
    ensures !HasPrefix(href, "/") ==> url == href
    ensures HasPrefix(href, "/") ==> HasPrefix(url, rootURL) && url[|rootURL|..] == href
  {
    if HasPrefix(href, "/") then rootURL + href else href
  }

  /** The href one attribute contributes: its value if its key is `href`, nothing otherwise. */
  function AttrHref(a: Attribute): seq<string>
  {
    if a.key == "href" then [a.val] else []
  }

  /** The values of the `href` attributes, in attribute order. */
  function AttrHrefs(attrs: seq<Attribute>): seq<string>
  {
    if |attrs| == 0 then [] else AttrHrefs(attrs[..|attrs| - 1]) + AttrHref(attrs[|attrs| - 1])
  }

  /** The hrefs a node contributes: its `href` values if it is an `a` element, none otherwise. */
  function NodeHrefs(n: Node): seq<string>
  {
    if IsAnchor(n) then AttrHrefs(n.attr) else []
  }

  /** Every anchor href of the page, in document order, duplicates included. */
  function Hrefs(doc: seq<Node>): seq<string>
  {
    if |doc| == 0 then [] else Hrefs(doc[..|doc| - 1]) + NodeHrefs(doc[|doc| - 1])
  }

  /** The normalised form of each href. */
  function Urls(rootURL: string, hrefs: seq<string>): (urls: seq<string>)
    ensures |urls| == |hrefs|
    ensures forall i :: 0 <= i < |hrefs| ==> urls[i] == Normalize(rootURL, hrefs[i])
  {
    seq(|hrefs|, i requires 0 <= i < |hrefs| => Normalize(rootURL, hrefs[i]))
  }

  /** The links built for `urls`, the k-th stamped with the k-th clock reading. */
  function LinksFor(parentHash: string, urls: seq<string>, hash: string -> string, clock: nat -> int): (links: seq<Link>)
    ensures |links| == |urls|
    ensures forall k :: 0 <= k < |urls| ==> links[k] == NewLink(parentHash, hash(urls[k]), urls[k], clock(k))
  {
    seq(|urls|, k requires 0 <= k < |urls| => NewLink(parentHash, hash(urls[k]), urls[k], clock(k)))
  }

  /** Reference definition of the scrape result: one link per distinct normalised href. */
  function Scraped(doc: seq<Node>, rootURL: string, parentURL: string, hash: string -> string, clock: nat -> int): seq<Link>
  {
    LinksFor(hash(parentURL), Dedup(Urls(rootURL, Hrefs(doc))), hash, clock)
  }


  lemma LinksForSnoc(parentHash: string, urls: seq<string>, u: string, hash: string -> string, clock: nat -> int)
    ensures LinksFor(parentHash, urls + [u], hash, clock)
         == LinksFor(parentHash, urls, hash, clock) + [NewLink(parentHash, hash(u), u, clock(|urls|))]
  {
  }

  lemma {:induction false} HrefsAppend(a: seq<Node>, b: seq<Node>)
    ensures Hrefs(a + b) == Hrefs(a) + Hrefs(b)
  {
    if |b| == 0 {
      assert a + b == a;
    } else {
      var b' := b[..|b| - 1];
      assert (a + b)[..|a + b| - 1] == a + b';
      HrefsAppend(a, b');
    }
  }

  lemma {:induction false} AttrHrefsAppend(a: seq<Attribute>, b: seq<Attribute>)
    ensures AttrHrefs(a + b) == AttrHrefs(a) + AttrHrefs(b)
  {
    if |b| == 0 {
      assert a + b == a;
    } else {
      var b' := b[..|b| - 1];
      assert (a + b)[..|a + b| - 1] == a + b';
      AttrHrefsAppend(a, b');
    }
  }

  /** Text, comments, non-`a` elements and the like contribute nothing, wherever they stand. */
  lemma NonAnchorIgnored(before: seq<Node>, n: Node, after: seq<Node>, rootURL: string, parentURL: string,
                         hash: string -> string, clock: nat -> int)
    requires !IsAnchor(n)
    ensures Scraped(before + [n] + after, rootURL, parentURL, hash, clock) == Scraped(before + after, rootURL, parentURL, hash, clock)
  {
    NonAnchorHrefs(before, n, after);
  }

  lemma NonAnchorHrefs(before: seq<Node>, n: Node, after: seq<Node>)
    requires !IsAnchor(n)
    ensures Hrefs(before + [n] + after) == Hrefs(before + after)
  {
    assert [n][..0] == [];
    assert Hrefs([n]) == [];
    HrefsAppend(before, [n]);
    assert Hrefs(before + [n]) == Hrefs(before);
    HrefsAppend(before + [n], after);
    HrefsAppend(before, after);
  }

  /** Attributes other than `href` contribute nothing, wherever they stand. */
  lemma NonHrefAttributeIgnored(before: seq<Attribute>, a: Attribute, after: seq<Attribute>)
    requires a.key != "href"
    ensures AttrHrefs(before + [a] + after) == AttrHrefs(before + after)
  {
    assert [a][..0] == [];
    assert AttrHrefs([a]) == [];
    AttrHrefsAppend(before, [a]);
    assert AttrHrefs(before + [a]) == AttrHrefs(before);
    AttrHrefsAppend(before + [a], after);
    AttrHrefsAppend(before, after);
  }

  /** Scraping a longer page never changes or reorders the links found on a prefix of it. */
  lemma ScrapedPrefixStable(doc: seq<Node>, more: seq<Node>, rootURL: string, parentURL: string,
                            hash: string -> string, clock: nat -> int)
    ensures |Scraped(doc, rootURL, parentURL, hash, clock)| <= |Scraped(doc + more, rootURL, parentURL, hash, clock)|
    ensures Scraped(doc + more, rootURL, parentURL, hash, clock)[..|Scraped(doc, rootURL, parentURL, hash, clock)|]
         == Scraped(doc, rootURL, parentURL, hash, clock)
  {
    HrefsAppend(doc, more);
    var u := Urls(rootURL, Hrefs(doc));
    var v := Urls(rootURL, Hrefs(more));
    UrlsAppend(rootURL, Hrefs(doc), Hrefs(more));
    DedupPrefix(u, v);
    LinksForPrefix(hash(parentURL), Dedup(u), Dedup(u + v), hash, clock);
  }

  lemma UrlsAppend(rootURL: string, a: seq<string>, b: seq<string>)
    ensures Urls(rootURL, a + b) == Urls(rootURL, a) + Urls(rootURL, b)
  {
  }

  lemma LinksForPrefix(parentHash: string, d: seq<string>, e: seq<string>, hash: string -> string, clock: nat -> int)
    requires |d| <= |e| && e[..|d|] == d
    ensures |LinksFor(parentHash, d, hash, clock)| <= |LinksFor(parentHash, e, hash, clock)|
    ensures LinksFor(parentHash, e, hash, clock)[..|d|] == LinksFor(parentHash, d, hash, clock)
  {
  }

  /**
   * The tree walk of `ScrapePage`: for every `a` element, for every `href`
   * attribute, normalise the value and append a link unless an earlier
   * link already has that URL.
   */
  method ScrapePage(doc: seq<Node>, rootURL: string, parentURL: string, hash: string -> string, clock: nat -> int)
    returns (links: seq<Link>)
    ensures links == Scraped(doc, rootURL, parentURL, hash, clock)
    // fields, with the arguments in the order `ScrapePage` passes them to `NewLink`
    ensures forall i :: 0 <= i < |links| ==>
      && links[i].parent == hash(parentURL)
      && links[i].parentURL == hash(links[i].url)
      && links[i].id == 0
      && links[i].created == clock(i)
    ensures |links| <= |Hrefs(doc)|
    // a URL has a link (exactly one, by the clause below) iff it is a normalised anchor href
    ensures forall u :: HasLinkTo(links, u) <==> LinkedFrom(doc, rootURL, u)
    // the URLs are pairwise distinct
    ensures forall i, j :: 0 <= i < j < |links| ==> links[i].url != links[j].url
  {
    links := [];
    var i := 0;
    while i < |doc|
      invariant 0 <= i <= |doc|
      invariant links == LinksFor(hash(parentURL), Dedup(Urls(rootURL, Hrefs(doc[..i]))), hash, clock)
    {
      HrefsStep(doc, i);
      if doc[i].nodeType == ElementNode && doc[i].data == "a" {
        links := ScrapeAnchor(doc[i].attr, links, rootURL, parentURL, hash, clock, Urls(rootURL, Hrefs(doc[..i])));
        assert Hrefs(doc[..i + 1]) == Hrefs(doc[..i]) + AttrHrefs(doc[i].attr);
        UrlsAppend(rootURL, Hrefs(doc[..i]), AttrHrefs(doc[i].attr));
      } else {
        assert NodeHrefs(doc[i]) == [];
        assert Hrefs(doc[..i + 1]) == Hrefs(doc[..i]);
      }
      i := i + 1;
    }
    assert doc[..i] == doc;
    ScrapedDistinct(doc, rootURL, parentURL, hash, clock);
    ScrapedTargets(doc, rootURL, parentURL, hash, clock);
    ScrapedUrls(doc, rootURL, parentURL, hash, clock);
  }

  /** The attribute loop for one `a` element; `seen` are the normalised hrefs met earlier on the page. */
  method ScrapeAnchor(attrs: seq<Attribute>, links: seq<Link>, rootURL: string, parentURL: string,
                      hash: string -> string, clock: nat -> int, ghost seen: seq<string>)
    returns (links': seq<Link>)
    requires links == LinksFor(hash(parentURL), Dedup(seen), hash, clock)
    ensures links' == LinksFor(hash(parentURL), Dedup(seen + Urls(rootURL, AttrHrefs(attrs))), hash, clock)
  {
    links' := links;
    var j := 0;
    assert attrs[..0] == [];
    assert seen + Urls(rootURL, AttrHrefs(attrs[..0])) == seen;
    while j < |attrs|
      invariant 0 <= j <= |attrs|
      invariant links' == LinksFor(hash(parentURL), Dedup(seen + Urls(rootURL, AttrHrefs(attrs[..j]))), hash, clock)
    {
      AttrUrlsStep(seen, rootURL, attrs, j);
      links' := ScrapeAttribute(attrs[j], links', rootURL, parentURL, hash, clock, seen + Urls(rootURL, AttrHrefs(attrs[..j])));
      j := j + 1;
    }
    assert attrs[..j] == attrs;
  }

  /** One attribute of an `a` element: an `href` is normalised and handed to the existence scan. */
  method ScrapeAttribute(attr: Attribute, links: seq<Link>, rootURL: string, parentURL: string,
                         hash: string -> string, clock: nat -> int, ghost seen: seq<string>)
    returns (links': seq<Link>)
    requires links == LinksFor(hash(parentURL), Dedup(seen), hash, clock)
    ensures links' == LinksFor(hash(parentURL), Dedup(seen + Urls(rootURL, AttrHref(attr))), hash, clock)
  {
    if attr.key == "href" {
      var url := attr.val;
      if HasPrefix(attr.val, "/") {
        url := rootURL + attr.val;
      }
      assert Urls(rootURL, AttrHref(attr)) == [url];
      links' := AppendIfNewURL(links, url, hash(parentURL), hash, clock, seen);
    } else {
      assert seen + Urls(rootURL, AttrHref(attr)) == seen;
      links' := links;
    }
  }

  lemma AttrUrlsStep(seen: seq<string>, rootURL: string, attrs: seq<Attribute>, j: nat)
    requires j < |attrs|
    ensures seen + Urls(rootURL, AttrHrefs(attrs[..j + 1]))
         == (seen + Urls(rootURL, AttrHrefs(attrs[..j]))) + Urls(rootURL, AttrHref(attrs[j]))
  {
    assert attrs[..j + 1][..j] == attrs[..j];
    UrlsAppend(rootURL, AttrHrefs(attrs[..j]), AttrHref(attrs[j]));
  }


  lemma HrefsStep(doc: seq<Node>, i: nat)
    requires i < |doc|
    ensures Hrefs(doc[..i + 1]) == Hrefs(doc[..i]) + NodeHrefs(doc[i])
  {
    assert doc[..i + 1][..i] == doc[..i];
  }


  /** Append a link for `url` unless an existing link already has that URL. */
  method AppendIfNewURL(links: seq<Link>, url: string, parentHash: string, hash: string -> string, clock: nat -> int,
                        ghost urls: seq<string>)
    returns (links': seq<Link>)
    requires links == LinksFor(parentHash, Dedup(urls), hash, clock)
    ensures links' == LinksFor(parentHash, Dedup(urls + [url]), hash, clock)
  {
    var found := ContainsURL(links, url);
    ghost var d := Dedup(urls);
    assert found <==> url in d by {
      if found {
        var m :| 0 <= m < |links| && links[m].url == url;
        assert d[m] == url;
      }
      if url in d {
        var m :| 0 <= m < |d| && d[m] == url;
        assert links[m].url == url;
      }
    }
    DedupSnoc(urls, url);
    if found {
      links' := links;
    } else {
      LinksForSnoc(parentHash, d, url, hash, clock);
      links' := links + [NewLink(parentHash, hash(url), url, clock(|links|))];
    }
  }

  /** The existence scan: whether some link already has the URL. */
  method ContainsURL(links: seq<Link>, url: string) returns (found: bool)
    ensures found <==> HasLinkTo(links, url)
  {
    found := false;
    var k := 0;
    while k < |links|
      invariant 0 <= k <= |links|
      invariant found <==> HasLinkTo(links[..k], url)
    {
      if url == links[k].url {
        found := true;
        assert links[..k + 1][k].url == url;
      } else if found {
        var m :| 0 <= m < k && links[..k][m].url == url;
        assert links[..k + 1][m].url == url;
      }
      k := k + 1;
    }
    assert links[..k] == links;
  }

  /** `u` is what normalisation makes of some anchor href of the page. */
  ghost predicate LinkedFrom(doc: seq<Node>, rootURL: string, u: string)
  {
    exists h :: h in Hrefs(doc) && u == Normalize(rootURL, h)
  }

  /** Some link of `links` points to `u`. */
  ghost predicate HasLinkTo(links: seq<Link>, u: string)
  {
    exists i :: 0 <= i < |links| && links[i].url == u
  }

  lemma UrlsMembers(rootURL: string, hrefs: seq<string>)
    ensures forall u :: u in Urls(rootURL, hrefs) <==> exists h :: h in hrefs && u == Normalize(rootURL, h)
  {
    var urls := Urls(rootURL, hrefs);
    forall u ensures u in urls <==> exists h :: h in hrefs && u == Normalize(rootURL, h) {
      if u in urls {
        var i :| 0 <= i < |urls| && urls[i] == u;
        assert hrefs[i] in hrefs;
      }
      if exists h :: h in hrefs && u == Normalize(rootURL, h) {
        var h :| h in hrefs && u == Normalize(rootURL, h);
        var i :| 0 <= i < |hrefs| && hrefs[i] == h;
        assert urls[i] == u;
      }
    }
  }

  lemma LinksForTargets(parentHash: string, urls: seq<string>, hash: string -> string, clock: nat -> int)
    ensures forall u :: HasLinkTo(LinksFor(parentHash, urls, hash, clock), u) <==> u in urls
  {
    var links := LinksFor(parentHash, urls, hash, clock);
    forall u ensures HasLinkTo(links, u) <==> u in urls {
      if HasLinkTo(links, u) {
        var i :| 0 <= i < |links| && links[i].url == u;
        assert urls[i] == u;
      }
      if u in urls {
        var i :| 0 <= i < |urls| && urls[i] == u;
        assert links[i].url == u;
      }
    }
  }

  /** The URLs of the reference result are its deduplicated normalised hrefs. */
  lemma ScrapedUrls(doc: seq<Node>, rootURL: string, parentURL: string, hash: string -> string, clock: nat -> int)
    ensures var links := Scraped(doc, rootURL, parentURL, hash, clock);
      var d := Dedup(Urls(rootURL, Hrefs(doc)));
      |links| == |d| && forall i :: 0 <= i < |links| ==> links[i].url == d[i]
  {
  }

  lemma ScrapedDistinct(doc: seq<Node>, rootURL: string, parentURL: string, hash: string -> string, clock: nat -> int)
    ensures var links := Scraped(doc, rootURL, parentURL, hash, clock);
      forall i, j :: 0 <= i < j < |links| ==> links[i].url != links[j].url
  {
    ScrapedUrls(doc, rootURL, parentURL, hash, clock);
  }

  /** A URL has a link exactly when it is the normalised form of an anchor href. */
  lemma ScrapedTargets(doc: seq<Node>, rootURL: string, parentURL: string, hash: string -> string, clock: nat -> int)
    ensures forall u :: HasLinkTo(Scraped(doc, rootURL, parentURL, hash, clock), u) <==> LinkedFrom(doc, rootURL, u)
  {
    var hrefs := Hrefs(doc);
    var urls := Urls(rootURL, hrefs);
    LinksForTargets(hash(parentURL), Dedup(urls), hash, clock);
    UrlsMembers(rootURL, hrefs);
    DedupMembers(urls);
  }

  lemma ScrapedOrder(doc: seq<Node>, rootURL: string, parentURL: string, hash: string -> string, clock: nat -> int)
    ensures var links := Scraped(doc, rootURL, parentURL, hash, clock);
      forall i, j :: 0 <= i < j < |links| ==>
        FirstIndex(Urls(rootURL, Hrefs(doc)), links[i].url) < FirstIndex(Urls(rootURL, Hrefs(doc)), links[j].url)
  {
    ScrapedUrls(doc, rootURL, parentURL, hash, clock);
    DedupOrder(Urls(rootURL, Hrefs(doc)));
  }
}
