/**
 * The Baiscope adapter (api/sources/BaiscopeLK.ts). The fetched HTML is
 * given as the sequence of its `<a>` elements in document order; the
 * download page as the `href` its download-link selector finds, if any.
 */
module Baiscope {
  import opened Wrappers
  import opened SourceInterface
  import opened Text

  /** Most results one search returns (`results.slice(0, 20)`). */
  const MaxResults: nat := 20
  const LinkNotFound: string := "Download link not found on page"
  const SearchFailedPrefix: string := "Search failed for baiscope: "
  const DownloadFailedPrefix: string := "Download failed: "
  const ArchiveName: string := "subtitle.zip"

  /** `getName()`: the routing key, a non-empty lower-case word. */
  function GetName(): (r: string)
    ensures r != [] && Lower(r) == r
  {
    var r := "baiscope";
    assert Lower(r) == r;
    r
  }

  /** `isAvailable()`: no probe is made, the site always reports itself up. */
  function IsAvailable(): (r: bool)
    ensures r
  {
    true
  }

  /** One `<a>` element: its text content and its `href` attribute, if any. */
  datatype Anchor = Anchor(text: string, href: Option<string>)

  /**
   * The test inside `$('a').each`: the trimmed title and the url are both
   * truthy (non-empty) and the lower-cased title contains the lower-cased
   * query.
   */
  predicate Keeps(title: string, url: Option<string>, query: string) {
    title != [] && url.Some? && url.value != [] && Includes(Lower(title), Lower(query))
  }

  /** Whether the anchor `a` yields a result for `query`. */
  predicate Qualifies(a: Anchor, query: string) {
    Keeps(Trim(a.text), a.href, query)
  }

  /** The result pushed for an anchor (its url is only read when present). */
  function ToItem(a: Anchor): Item {
    Item(Trim(a.text), if a.href.Some? then a.href.value else "", GetName())
  }

  /** The images under `f` of the elements of `xs` that `keep` accepts, in order. */
  function FilterMap<T, U>(xs: seq<T>, keep: T -> bool, f: T -> U): (r: seq<U>)
    ensures |r| <= |xs|
  {
    if xs == [] then []
    else
      var last := xs[|xs| - 1];
      FilterMap(xs[..|xs| - 1], keep, f) + (if keep(last) then [f(last)] else [])
  }

  lemma {:induction false} FilterMapAppend<T, U>(a: seq<T>, b: seq<T>, keep: T -> bool, f: T -> U)
    ensures FilterMap(a + b, keep, f) == FilterMap(a, keep, f) + FilterMap(b, keep, f)
  {
    if b == [] {
      assert a + b == a;
    } else {
      FilterMapAppend(a, b[..|b| - 1], keep, f);
      assert (a + b)[..|a + b| - 1] == a + b[..|b| - 1];
    }
  }

  /** Every output is the image of an accepted element. */
  lemma {:induction false} FilterMapOrigin<T, U>(xs: seq<T>, keep: T -> bool, f: T -> U, y: U)
    requires y in FilterMap(xs, keep, f)
    ensures exists i :: 0 <= i < |xs| && keep(xs[i]) && y == f(xs[i])
  {
    var init := xs[..|xs| - 1];
    if y in FilterMap(init, keep, f) {
      FilterMapOrigin(init, keep, f, y);
      var i :| 0 <= i < |init| && keep(init[i]) && y == f(init[i]);
      assert xs[i] == init[i];
    } else {
      assert keep(xs[|xs| - 1]) && y == f(xs[|xs| - 1]);
    }
  }

  /**
   * No accepted element is skipped: the image of an accepted `xs[i]` sits
   * right after the outputs of the elements before it.
   */
  lemma FilterMapPlaces<T, U>(xs: seq<T>, keep: T -> bool, f: T -> U, i: int)
    requires 0 <= i < |xs| && keep(xs[i])
    ensures |FilterMap(xs[..i], keep, f)| < |FilterMap(xs, keep, f)|
    ensures FilterMap(xs, keep, f)[|FilterMap(xs[..i], keep, f)|] == f(xs[i])
  {
    assert xs[..i + 1][..i] == xs[..i];
    FilterMapAppend(xs[..i + 1], xs[i + 1..], keep, f);
    assert xs[..i + 1] + xs[i + 1..] == xs;
  }

  /** `Qualifies` for one fixed query. */
  function QualifiesFor(query: string): Anchor -> bool {
    a => Qualifies(a, query)
  }

  /** The item of every qualifying anchor, in document order. */
  function Matches(anchors: seq<Anchor>, query: string): seq<Item> {
    FilterMap(anchors, QualifiesFor(query), ToItem)
  }

  /** What `parseSearchResults` returns: the first twenty matches. */
  function FirstMatches(anchors: seq<Anchor>, query: string): (r: seq<Item>)
    ensures |r| <= MaxResults
    ensures r <= Matches(anchors, query)
    ensures |r| < MaxResults ==> r == Matches(anchors, query)
  {
    var all := Matches(anchors, query);
    if |all| <= MaxResults then all else all[..MaxResults]
  }

  /** One more anchor adds its item exactly when it qualifies. */
  lemma MatchesStep(anchors: seq<Anchor>, i: int, query: string)
    requires 0 <= i < |anchors|
    ensures Matches(anchors[..i + 1], query) ==
            Matches(anchors[..i], query) + (if Qualifies(anchors[i], query) then [ToItem(anchors[i])] else [])
  {
    assert anchors[..i + 1][..i] == anchors[..i];
    assert QualifiesFor(query)(anchors[i]) == Qualifies(anchors[i], query);
  }

  /**
   * `parseSearchResults(html, query)`: walks the anchors in document order,
   * keeps each qualifying one as a `baiscope` item, then keeps the first 20.
   */
  method ParseSearchResults(anchors: seq<Anchor>, query: string) returns (results: seq<Item>)
    ensures results == FirstMatches(anchors, query)
  {
    var found: seq<Item> := [];
    for i := 0 to |anchors|
      invariant found == Matches(anchors[..i], query)
    {
      var title := Trim(anchors[i].text);
      var url := anchors[i].href;
      MatchesStep(anchors, i, query);
      if Keeps(title, url, query) {
        found := found + [Item(title, url.value, GetName())];
      }
    }
    assert anchors[..|anchors|] == anchors;
    results := if |found| <= MaxResults then found else found[..MaxResults];
  }

  /** A result the scraper may return for `query`. */
  predicate WellFormedHit(x: Item, query: string) {
    && x.source == "baiscope"
    && x.title != [] && !IsSpace(x.title[0]) && !IsSpace(x.title[|x.title| - 1])
    && x.url != []
    && Includes(Lower(x.title), Lower(query))
  }

  /**
   * The result has at most 20 items, each a `baiscope` item with a
   * non-empty trimmed title and a non-empty url, whose lower-cased title
   * contains the lower-cased query; each comes from a qualifying anchor.
   */
  lemma FirstMatchesShape(anchors: seq<Anchor>, query: string)
    ensures |FirstMatches(anchors, query)| <= MaxResults
    ensures forall x :: x in FirstMatches(anchors, query) ==>
              WellFormedHit(x, query) && exists i :: 0 <= i < |anchors| && Qualifies(anchors[i], query) && x == ToItem(anchors[i])
  {
    var all := Matches(anchors, query);
    forall x | x in FirstMatches(anchors, query)
      ensures WellFormedHit(x, query)
      ensures exists i :: 0 <= i < |anchors| && Qualifies(anchors[i], query) && x == ToItem(anchors[i])
    {
      if |all| > MaxResults {
        var k :| 0 <= k < MaxResults && all[..MaxResults][k] == x;
        assert all[k] == x;
      }
      FilterMapOrigin(anchors, QualifiesFor(query), ToItem, x);
      var i :| 0 <= i < |anchors| && QualifiesFor(query)(anchors[i]) && x == ToItem(anchors[i]);
      QualifyingAnchorIsHit(anchors[i], query);
    }
  }

  /** A qualifying anchor yields a well-formed result. */
  lemma QualifyingAnchorIsHit(a: Anchor, query: string)
    requires Qualifies(a, query)
    ensures WellFormedHit(ToItem(a), query)
  {
  }

  /**
   * No qualifying anchor is skipped: the anchor at position `i` that
   * qualifies yields the result at the position given by the number of
   * matches before it, as long as fewer than 20 came before.
   */
  lemma NoQualifyingAnchorSkipped(anchors: seq<Anchor>, query: string, i: int)
    requires 0 <= i < |anchors|
    ensures Qualifies(anchors[i], query) && |Matches(anchors[..i], query)| < MaxResults ==>
              && |Matches(anchors[..i], query)| < |FirstMatches(anchors, query)|
              && FirstMatches(anchors, query)[|Matches(anchors[..i], query)|] == ToItem(anchors[i])
  {
    if !Qualifies(anchors[i], query) || |Matches(anchors[..i], query)| >= MaxResults {
      return;
    }
    var keep := QualifiesFor(query);
    assert keep(anchors[i]);
    FilterMapPlaces(anchors, keep, ToItem, i);
    var all := FilterMap(anchors, keep, ToItem);
    var k := |FilterMap(anchors[..i], keep, ToItem)|;
    assert k < |all| && all[k] == ToItem(anchors[i]);
    if |all| > MaxResults {
      assert all[..MaxResults][k] == all[k];
    }
  }

  /**
   * `getDownloadURL` after the page is fetched: the selector's `href`, or
   * "Download link not found on page" when it is missing or empty.
   */
  function GetDownloadURL(href: Option<string>): (r: Result<string>)
    ensures r.Err? <==> href.None? || href.value == []
    ensures r.Err? ==> r.msg == LinkNotFound
    ensures r.Ok? ==> r.value != [] && href == Some(r.value)
  {
    if href.None? || href.value == [] then Err(LinkNotFound) else Ok(href.value)
  }

  /**
   * `search(query)` given the outcome of fetching the search page; a
   * fetch failure is rethrown with the adapter's name.
   */
  function Search(query: string, page: Result<seq<Anchor>>): (r: Result<seq<Item>>)
    ensures page.Err? ==> r == Err(SearchFailedPrefix + page.msg)
    ensures page.Ok? ==> r == Ok(FirstMatches(page.value, query))
    ensures page.Ok? ==>
              && r.Ok?
              && |r.value| <= MaxResults
              && forall x :: x in r.value ==> WellFormedHit(x, query)
  {
    match page
    case Err(cause) => Err(SearchFailedPrefix + cause)
    case Ok(anchors) =>
      FirstMatchesShape(anchors, query);
      Ok(FirstMatches(anchors, query))
  }

  /**
   * `download(url)` given the outcome of fetching the post page (the
   * download link's `href`) and of fetching a link's bytes.
   */
  function Download(post: Result<Option<string>>, fetch: string -> Result<seq<byte>>): (r: Result<Payload>)
    ensures post.Err? ==> r == Err(DownloadFailedPrefix + post.msg)
    ensures post.Ok? && GetDownloadURL(post.value).Err? ==> r == Err(DownloadFailedPrefix + LinkNotFound)
    ensures post.Ok? && GetDownloadURL(post.value).Ok? ==>
              && (fetch(post.value.value).Ok? <==> r.Ok?)
              && (fetch(post.value.value).Err? ==> r == Err(DownloadFailedPrefix + fetch(post.value.value).msg))
    ensures r.Ok? ==>
              && post.Ok? && post.value.Some?
              && fetch(post.value.value) == Ok(r.value.content)
              && r.value.filename == ArchiveName
              && r.value.size == |r.value.content|
  {
    match post
    case Err(cause) => Err(DownloadFailedPrefix + cause)
    case Ok(href) =>
      match GetDownloadURL(href)
      case Err(cause) => Err(DownloadFailedPrefix + cause)
      case Ok(link) =>
        match fetch(link)
        case Err(cause) => Err(DownloadFailedPrefix + cause)
        case Ok(bytes) => Ok(Payload(bytes, ArchiveName, |bytes|))
  }

  /**
   * The adapter as the registry holds it, over the page each search query
   * and each post url fetches, and the bytes each link fetches.
   */
  function AsAdapter(
    pages: string -> Result<seq<Anchor>>,
    posts: string -> Result<Option<string>>,
    fetch: string -> Result<seq<byte>>): (a: Adapter)
    ensures a.name == "baiscope" && a.available
  {
    Adapter(GetName(), IsAvailable(), q => Search(q, pages(q)), u => Download(posts(u), fetch))
  }

  /**
   * Every successful search through the adapter returns at most 20 items,
   * each tagged with the adapter's own name, so the aggregation's sort
   * keeps them together.
   */
  lemma AdapterTagsItsResults(
    pages: string -> Result<seq<Anchor>>,
    posts: string -> Result<Option<string>>,
    fetch: string -> Result<seq<byte>>,
    query: string)
    ensures var a := AsAdapter(pages, posts, fetch);
            a.search(query).Ok? ==>
              && |a.search(query).value| <= MaxResults
              && forall x :: x in a.search(query).value ==> x.source == a.name
  {
    if pages(query).Ok? {
      FirstMatchesShape(pages(query).value, query);
    }
  }
}
