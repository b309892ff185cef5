/** The `Link` record: one edge from a parent page to a URL found on it. */
module Links {

  /**
   * `parent` is the parent page's hash; `parentURL` is the field the
   * reports read as the linking page; `id` is the store's auto-increment
   * key; `created` is a nanosecond timestamp (Go `int64`).
   */
  datatype Link = Link(parent: string, parentURL: string, id: int, url: string, created: int)

  /**
   * `NewLink(parentID, parentURL, url)`.  The reading of the clock is the
   * parameter `now`; the ID is left at zero for the store to assign.
   */
  function NewLink(parentID: string, parentURL: string, url: string, now: int): (l: Link)
    ensures l.url == url
    ensures l.parent == parentID
    ensures l.parentURL == parentURL
    ensures l.id == 0
    ensures l.created == now
  {
    Link(parentID, parentURL, 0, url, now)
  }

  /** Every link whose ID has not yet been assigned is what `NewLink` makes of its own fields. */
  lemma NewLinkRoundTrip(l: Link)
    requires l.id == 0
    ensures NewLink(l.parent, l.parentURL, l.url, l.created) == l
  {
  }

  /** Two calls with the same arguments differ at most in the timestamp. */
  lemma NewLinkDeterministic(parentID: string, parentURL: string, url: string, t1: int, t2: int)
    ensures NewLink(parentID, parentURL, url, t1).(created := 0) == NewLink(parentID, parentURL, url, t2).(created := 0)
    ensures t1 == t2 <==> NewLink(parentID, parentURL, url, t1) == NewLink(parentID, parentURL, url, t2)
  {
  }
}
