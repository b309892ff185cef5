/**
 * The per-page pipeline of an indexer (`Indexer.ProcessPage` and
 * `Indexer.AuthorizeRobot`): parse the URL, derive the site root and its
 * robots.txt URL, ask robots.txt, fetch the page, scrape it.
 *
 * URL parsing, HTTP, the robots.txt library, the HTML parser, MD5 and the
 * clock are foreign code; they enter as the fields of an `Env`.
 */
module Indexer {
  import opened Wrappers
  import opened Strings
  import opened Links
  import opened Scrape

  /** The agent name the crawler tests robots.txt groups against. */
  const AgentName := "go-web-crawler"

  datatype PageRequest = PageRequest(href: string)

  /** The parts of a parsed URL that the indexer reads. */
  datatype URL = URL(scheme: string, host: string)

  /** An HTTP response as far as the indexer uses it. */
  datatype Response = Response(statusCode: int, body: string)

  /**
   * The foreign collaborators, as functions: `url.Parse`, `http.Get`,
   * `robotstxt.FromResponse`, `TestAgent(path, agent)` on the parsed
   * robots data of type `P`, the HTML parser with its tree walk,
   * `GetMD5Hash`, and the clock reading taken for the k-th link.
   */
  datatype Env<!P> = Env(
    parseURL: string -> Result<URL>,
    get: string -> Result<Response>,
    fromResponse: Response -> Result<P>,
    testAgent: (P, string, string) -> bool,
    parseHTML: string -> seq<Node>,
    hash: string -> string,
    clock: nat -> int)

  /** `scheme://host` of the request URL. */
  function RootURL(u: URL): (root: string)
    ensures |root| == |u.scheme| + 3 + |u.host|
    ensures root[..|u.scheme|] == u.scheme && root[|u.scheme|..|u.scheme| + 3] == "://" && root[|u.scheme| + 3..] == u.host
  {
    u.scheme + "://" + u.host
  }

  /** The robots.txt file at the root of the site. */
  function RobotsURL(rootURL: string): (robots: string)
    ensures HasPrefix(robots, rootURL) && robots[|rootURL|..] == "/robots.txt"
  {
    rootURL + "/robots.txt"
  }

  /**
   * The robots.txt URL is `scheme://host/robots.txt`, and it is exactly what
   * link normalisation makes of the root-relative href `/robots.txt`.
   */
  lemma RobotsURLOfRequest(u: URL)
    ensures RobotsURL(RootURL(u)) == u.scheme + "://" + u.host + "/robots.txt"
    ensures RobotsURL(RootURL(u)) == Normalize(RootURL(u), "/robots.txt")
    ensures HasPrefix(RobotsURL(RootURL(u)), RootURL(u))
  {
    assert HasPrefix("/robots.txt", "/");
    assert RobotsURL(RootURL(u))[..|RootURL(u)|] == RootURL(u);
  }

  /**
   * When the scheme holds no `/` (a parsed scheme is letters, digits,
   * `+`, `-` and `.`), no normalised link is left root-relative.
   */
  lemma {:induction false} NormalizedNotRootRelative(u: URL, href: string)
    requires forall i :: 0 <= i < |u.scheme| ==> u.scheme[i] != '/'
    ensures !HasPrefix(Normalize(RootURL(u), href), "/")
  {
    if HasPrefix(href, "/") {
      var r := Normalize(RootURL(u), href);
      assert r == u.scheme + "://" + u.host + href;
      if |u.scheme| > 0 {
        assert r[0] == u.scheme[0];
      } else {
        assert r[0] == ':';
      }
    }
  }

  /** Outcome of `AuthorizeRobot`: Go's `(bool, error)`. */
  datatype Authorization = Authorization(authorized: bool, err: Option<string>)

  /**
   * Fetch and parse robots.txt, then test the request URL for the crawler's
   * agent.  A failed fetch or parse is an error, never a permission.
   */
  function AuthorizeRobot<P>(robotsURL: string, req: PageRequest, env: Env<P>): (a: Authorization)
    ensures a.err.Some? ==> !a.authorized
    ensures a.err.None? <==> env.get(robotsURL).Ok? && env.fromResponse(env.get(robotsURL).value).Ok?
    ensures a.err.None? ==>
      a.authorized == env.testAgent(env.fromResponse(env.get(robotsURL).value).value, req.href, AgentName)
    ensures env.get(robotsURL).Err? ==> a.err == Some(env.get(robotsURL).msg)
  {
    match env.get(robotsURL)
    case Err(e) => Authorization(false, Some(e))
    case Ok(resp) =>
      match env.fromResponse(resp)
      case Err(e) => Authorization(false, Some(e))
      case Ok(robots) => Authorization(env.testAgent(robots, req.href, AgentName), None)
  }

  /** What processing one page request comes to. `Indexed` carries the links the indexer logs. */
  datatype Outcome =
    | UnparsableURL(err: string)
    | RobotsUnavailable(err: string)
    | NotAuthorized
    | FetchFailed(err: string)
    | Indexed(links: seq<Link>)

  /** The page itself was requested over HTTP. */
  predicate Fetched(o: Outcome)
  {
    o.FetchFailed? || o.Indexed?
  }

  /** The authorization that `ProcessPage` obtains for a request whose URL parses. */
  function RobotsCheck<P>(req: PageRequest, env: Env<P>): Authorization
    requires env.parseURL(req.href).Ok?
  {
    AuthorizeRobot(RobotsURL(RootURL(env.parseURL(req.href).value)), req, env)
  }

  /** The page is fetched only when its URL parses and robots.txt was read and allows it. */
  ghost predicate MayFetch<P>(req: PageRequest, env: Env<P>)
  {
    && env.parseURL(req.href).Ok?
    && RobotsCheck(req, env).err.None?
    && RobotsCheck(req, env).authorized
  }

  method ProcessPage<P>(req: PageRequest, env: Env<P>) returns (o: Outcome)
    ensures o.UnparsableURL? <==> env.parseURL(req.href).Err?
    ensures o.RobotsUnavailable? <==> env.parseURL(req.href).Ok? && RobotsCheck(req, env).err.Some?
    ensures o.NotAuthorized? <==>
      env.parseURL(req.href).Ok? && RobotsCheck(req, env).err.None? && !RobotsCheck(req, env).authorized
    ensures Fetched(o) <==> MayFetch(req, env)
    ensures o.FetchFailed? <==> MayFetch(req, env) && env.get(req.href).Err?
    ensures o.Indexed? ==>
      && env.get(req.href).Ok?
      && o.links == Scraped(env.parseHTML(env.get(req.href).value.body),
                            RootURL(env.parseURL(req.href).value), req.href, env.hash, env.clock)
  {
    var parsed := env.parseURL(req.href);
    if parsed.Err? {
      return UnparsableURL(parsed.msg);
    }
    var u := parsed.value;
    var rootURL := RootURL(u);
    var robotsURL := RobotsURL(rootURL);
    var authorization := AuthorizeRobot(robotsURL, req, env);
    if authorization.err.Some? {
      return RobotsUnavailable(authorization.err.value);
    }
    if authorization.authorized {
      var resp := env.get(req.href);
      if resp.Err? {
        return FetchFailed(resp.msg);
      }
      var links := ScrapePage(env.parseHTML(resp.value.body), rootURL, req.href, env.hash, env.clock);
      return Indexed(links);
    } else {
      return NotAuthorized;
    }
  }
}
