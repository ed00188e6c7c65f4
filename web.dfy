/** What the scrapers see of a rendered page once the HTML library has done
    its work, and what they ask the browser driver to do. */
module Web {
  import opened Wrappers
  import opened Text

  /** The outcome of one `find(...)` call on a parsed card: no matching
      element, the first matching element, or an exception raised by the
      HTML library while looking. */
  datatype Lookup = Missing | Found(element: Element) | Raises

  /** A located element: its text (`.text`, before any stripping), its
      attributes, and the outcome of looking up its first `<a>` descendant. */
  datatype Element = Element(text: string, attrs: map<string, string>, link: Lookup)

  /** `tag.text.strip() if tag else None`. */
  function StrippedText(l: Lookup): (r: Option<string>)
    requires !l.Raises?
    ensures r.None? <==> l.Missing?
  {
    match l
    case Missing => None
    case Found(e) => Some(Strip(e.text))
  }

  /** `tag.get(name) if tag else None`; `get` yields `None` for a missing
      attribute instead of raising. */
  function Attribute(l: Lookup, name: string): (r: Option<string>)
    requires !l.Raises?
    ensures r.Some? <==> l.Found? && name in l.element.attrs
  {
    match l
    case Missing => None
    case Found(e) => if name in e.attrs then Some(e.attrs[name]) else None
  }

  /** The requests a crawl makes of the browser driver, in the order made. */
  datatype Action = Navigate(page: nat) | ClickCookies | ReadMaxPage | Scrape(page: nat)

  /** The browser driver, reduced to the log of the requests made of it. */
  class Driver {
    var log: seq<Action>

    constructor()
      ensures log == []
    {
      log := [];
    }

    /** Make one request of the browser, which is appended to the log. */
    method Request(a: Action)
      modifies this
      ensures log == old(log) + [a]
    {
      log := log + [a];
    }
  }
}
