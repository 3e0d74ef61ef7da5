/** The two result generators of `modules/fractals.py`, `unlim_fractal_iterator` and
    `search_fractal`: a page counter starting at 1 that fetches one page of results per
    step and hands out that page's `data` items in order before moving to the next page. */
module FractalIterators {
  import opened Wrappers
  import Numerals

  /** Which remote query a generator pages through: the weighted browse URL built by
      `url_from_wts`, or the name search on the endpoint. */
  datatype Query = Weighted(url: string) | ByName(endpoint: string, name: string)

  /** The text every page URL of a query starts with, up to the page number. */
  function PagePrefix(q: Query): string {
    match q
    case Weighted(url) => url + "&page="
    case ByName(endpoint, name) => endpoint + "?s=" + name + "&page="
  }

  /** `f'{url}&page={page}'` and `f"{endpoint}?s={name}&page={page}"`. */
  function PageUrl(q: Query, page: nat): string {
    PagePrefix(q) + Numerals.Decimal(page)
  }

  /** The page number can be read back off the end of its URL. */
  lemma PageOfUrl(q: Query, page: nat)
    ensures Numerals.ParseNat(PageUrl(q, page)[|PagePrefix(q)|..]) == Some(page)
  {
    assert PageUrl(q, page)[|PagePrefix(q)|..] == Numerals.Decimal(page);
    Numerals.ParseDecimal(page);
  }

  /** Different pages of one query are different requests. */
  lemma PageUrlInjective(q: Query, p1: nat, p2: nat)
    requires PageUrl(q, p1) == PageUrl(q, p2)
    ensures p1 == p2
  {
    PageOfUrl(q, p1);
    PageOfUrl(q, p2);
  }

  /** The requests for pages 1 to `n`, in that order. */
  ghost function PageUrls(q: Query, n: nat): (urls: seq<string>)
    ensures |urls| == n
  {
    if n == 0 then [] else PageUrls(q, n - 1) + [PageUrl(q, n)]
  }

  /** The request log for `n` pages holds the URL of page `i + 1` at position `i`. */
  lemma {:induction false} PageUrlsAt(q: Query, n: nat)
    ensures forall i :: 0 <= i < n ==> PageUrls(q, n)[i] == PageUrl(q, i + 1)
  {
    if n > 0 {
      PageUrlsAt(q, n - 1);
    }
  }

  /** No page is requested twice. */
  lemma PageUrlsDistinct(q: Query, n: nat)
    ensures forall i, j :: 0 <= i < j < n ==> PageUrls(q, n)[i] != PageUrls(q, n)[j]
  {
    var urls := PageUrls(q, n);
    PageUrlsAt(q, n);
    forall i, j | 0 <= i < j < n ensures urls[i] != urls[j] {
      if urls[i] == urls[j] {
        PageUrlInjective(q, i + 1, j + 1);
      }
    }
  }

  /** The request log only grows: the log for `m` pages is a prefix of the log for `n`. */
  lemma {:induction false} PageUrlsPrefix(q: Query, m: nat, n: nat)
    requires m <= n
    ensures PageUrls(q, m) <= PageUrls(q, n)
    decreases n
  {
    if m < n {
      PageUrlsPrefix(q, m, n - 1);
    }
  }

  /** The `data` of one fetched page (a failed fetch has none). */
  function PageData<Item>(response: Option<seq<Item>>): seq<Item> {
    response.GetOr([])
  }

  /** Everything pages 1 to `n` hold, page after page, each page in its own order. */
  ghost function Yields<Item>(q: Query, fetch: string -> Option<seq<Item>>, n: nat): seq<Item>
  {
    if n == 0 then [] else Yields(q, fetch, n - 1) + PageData(fetch(PageUrl(q, n)))
  }

  /** Reading further pages only appends: what pages 1 to `m` hold is a prefix of what
      pages 1 to `n` hold. */
  lemma {:induction false} YieldsPrefix<Item>(q: Query, fetch: string -> Option<seq<Item>>, m: nat, n: nat)
    requires m <= n
    ensures Yields(q, fetch, m) <= Yields(q, fetch, n)
    decreases n
  {
    if m < n {
      YieldsPrefix(q, fetch, m, n - 1);
    }
  }

  /** Pages 1 to `n` all answered with a 2xx status. */
  ghost predicate AllFetched<Item>(q: Query, fetch: string -> Option<seq<Item>>, n: nat) {
    forall i :: 1 <= i <= n ==> fetch(PageUrl(q, i)).Some?
  }

  /** The generator's `while True` loop passing over empty pages: request page `start`,
      then the next, and so on, until a page fails or holds items, and return that page,
      its response and the URLs requested on the way. Page `h` is a page at or after
      `start` that fails or holds items, so the loop ends. */
  method SkipEmptyPages<Item>(q: Query, fetch: string -> Option<seq<Item>>, start: nat, ghost h: nat)
    returns (p: nat, response: Option<seq<Item>>, ghost urls: seq<string>)
    requires 1 <= start <= h && fetch(PageUrl(q, h)) != Some([])
    ensures start <= p <= h && response == fetch(PageUrl(q, p)) && response != Some([])
    ensures forall i :: start <= i < p ==> fetch(PageUrl(q, i)) == Some([])
    ensures PageUrls(q, start - 1) + urls == PageUrls(q, p)
  {
    p := start;
    response := fetch(PageUrl(q, p));
    urls := [PageUrl(q, p)];
    while response == Some([])
      invariant start <= p <= h && response == fetch(PageUrl(q, p))
      invariant forall i :: start <= i < p ==> fetch(PageUrl(q, i)) == Some([])
      invariant PageUrls(q, start - 1) + urls == PageUrls(q, p)
      decreases h - p
    {
      p := p + 1;
      response := fetch(PageUrl(q, p));
      urls := urls + [PageUrl(q, p)];
    }
  }

  /** The same loop as written, cut off after `k` requests from page `start`: the first
      page that fails or holds items, with its response, or `None` when all `k` pages
      answered with no items and the loop is still going. */
  function SkipUpTo<Item>(q: Query, fetch: string -> Option<seq<Item>>, start: nat, k: nat): Option<(nat, Option<seq<Item>>)>
    decreases k
  {
    if k == 0 then None
    else if fetch(PageUrl(q, start)) != Some([]) then Some((start, fetch(PageUrl(q, start))))
    else SkipUpTo(q, fetch, start + 1, k - 1)
  }

  /** Within enough requests to reach a page `h` that fails or holds items, the cut-off
      loop stops at the first such page from `start` on, as `SkipEmptyPages` does. */
  lemma {:induction false} SkipUpToAgrees<Item>(q: Query, fetch: string -> Option<seq<Item>>, start: nat, k: nat, h: nat)
    requires start <= h < start + k && fetch(PageUrl(q, h)) != Some([])
    ensures SkipUpTo(q, fetch, start, k).Some?
    ensures var (p, response) := SkipUpTo(q, fetch, start, k).value;
      && start <= p <= h && response == fetch(PageUrl(q, p)) && response != Some([])
      && forall i :: start <= i < p ==> fetch(PageUrl(q, i)) == Some([])
    decreases k
  {
    if fetch(PageUrl(q, start)) == Some([]) {
      SkipUpToAgrees(q, fetch, start + 1, k - 1, h);
    }
  }

  /** What `SkipEmptyPages` returns is what the cut-off loop reaches with exactly the
      requests up to that page. */
  lemma {:induction false} SkipUpToReaches<Item>(q: Query, fetch: string -> Option<seq<Item>>, start: nat, p: nat)
    requires start <= p && fetch(PageUrl(q, p)) != Some([])
    requires forall i :: start <= i < p ==> fetch(PageUrl(q, i)) == Some([])
    ensures SkipUpTo(q, fetch, start, p - start + 1) == Some((p, fetch(PageUrl(q, p))))
    decreases p - start
  {
    if start < p {
      SkipUpToReaches(q, fetch, start + 1, p);
    }
  }

  /** As written, the loop never ends when every page from `start` on answers with no
      items: however many requests it has made, it is still going. */
  lemma {:induction false} EmptyPagesNeverEnd<Item>(q: Query, fetch: string -> Option<seq<Item>>, start: nat, k: nat)
    requires forall i :: start <= i ==> fetch(PageUrl(q, i)) == Some([])
    ensures SkipUpTo(q, fetch, start, k) == None
    decreases k
  {
    if k > 0 {
      EmptyPagesNeverEnd(q, fetch, start + 1, k - 1);
    }
  }

  /** One turn of the loop as evidently intended: the items of a page that holds some,
      the end of the results on a page with none, or the fetch error. */
  datatype Turn<Item> = Items(items: seq<Item>) | Exhausted | Failed

  /** Request page `page` and end the results on a page with no items instead of moving
      on to the next page. */
  function IntendedTurn<Item>(q: Query, fetch: string -> Option<seq<Item>>, page: nat): (t: Turn<Item>)
    ensures t.Items? <==> fetch(PageUrl(q, page)).Some? && fetch(PageUrl(q, page)).value != []
    ensures t.Items? ==> t.items == fetch(PageUrl(q, page)).value
    ensures t == Exhausted <==> fetch(PageUrl(q, page)) == Some([])
    ensures t == Failed <==> fetch(PageUrl(q, page)).None?
  {
    match fetch(PageUrl(q, page))
    case None => Failed
    case Some(items) => if items == [] then Exhausted else Items(items)
  }

  /** On a page that fails or holds items the intended turn gives what the loop as
      written reaches in one request; on a run of empty pages it ends after the first
      request, where the loop as written goes on for ever. */
  lemma IntendedTurnEndsEmptyRuns<Item>(q: Query, fetch: string -> Option<seq<Item>>, page: nat)
    ensures fetch(PageUrl(q, page)) != Some([]) ==>
      SkipUpTo(q, fetch, page, 1) == Some((page, fetch(PageUrl(q, page))))
      && (IntendedTurn(q, fetch, page) == Failed <==> fetch(PageUrl(q, page)).None?)
    ensures (forall i :: page <= i ==> fetch(PageUrl(q, i)) == Some([])) ==>
      IntendedTurn(q, fetch, page) == Exhausted && forall k :: SkipUpTo(q, fetch, page, k) == None
  {
    if forall i :: page <= i ==> fetch(PageUrl(q, i)) == Some([]) {
      forall k: nat ensures SkipUpTo(q, fetch, page, k) == None {
        EmptyPagesNeverEnd(q, fetch, page, k);
      }
    }
  }

  /** Empty pages add nothing to what the pages before them hold. */
  lemma {:induction false} EmptyPagesYieldNothing<Item>(q: Query, fetch: string -> Option<seq<Item>>, m: nat, n: nat)
    requires m <= n
    requires forall i :: m < i <= n ==> fetch(PageUrl(q, i)) == Some([])
    ensures Yields(q, fetch, n) == Yields(q, fetch, m)
    decreases n
  {
    if m < n {
      EmptyPagesYieldNothing(q, fetch, m, n - 1);
    }
  }

  /** Pages that answered with no items still answered. */
  lemma EmptyPagesWereFetched<Item>(q: Query, fetch: string -> Option<seq<Item>>, m: nat, n: nat)
    requires m <= n && AllFetched(q, fetch, m)
    requires forall i :: m < i <= n ==> fetch(PageUrl(q, i)) == Some([])
    ensures AllFetched(q, fetch, n)
  {
  }

  /** One step of a generator. */
  datatype Step<Item> =
    | Yielded(item: Item)      // the next item
    | FetchFailed(page: nat)   // the fetch of this page answered with a non-2xx status
    | Stopped                  // the generator had already ended

  /** A suspended generator. `fetch` is the remote API: the items of the `data` array for
      a page URL, or `None` for the error that `raise_for_status=True` raises. */
  class PageIterator<Item> {
    const query: Query
    const fetch: string -> Option<seq<Item>>
    /** The generator's `page` variable. */
    var page: nat
    /** The items of page `page` not yet yielded. */
    var current: seq<Item>
    /** Page `page` has been fetched and the generator is inside its `for` loop. */
    var inPage: bool
    /** The generator has ended: a fetch raised. */
    var finished: bool
    /** The URLs requested so far, in order. */
    ghost var requested: seq<string>
    /** The items yielded so far, in order. */
    ghost var yielded: seq<Item>

    /** The page the generator asks for when it next needs items. */
    function NextPage(): nat
      reads this
    {
      if inPage then page + 1 else page
    }

    /** Before the first step nothing has happened. Inside page `page`, pages 1 to
        `page` were requested in order and answered, and what was yielded followed by the
        unread rest is everything they held. After a failed fetch of page `page`, pages
        before it were requested and answered and were yielded in full. */
    ghost predicate Valid()
      reads this
    {
      && page >= 1
      && (!inPage ==> current == [])
      && (!inPage && !finished ==> page == 1 && requested == [] && yielded == [])
      && (inPage || finished ==> requested == PageUrls(query, page))
      && (inPage ==>
            && !finished
            && AllFetched(query, fetch, page)
            && yielded + current == Yields(query, fetch, page))
      && (finished ==>
            && AllFetched(query, fetch, page - 1)
            && fetch(PageUrl(query, page)).None?
            && yielded == Yields(query, fetch, page - 1))
    }

    /** Page `h` lies ahead and either fails or holds items, so the generator reaches a
        yield or an error by page `h` at the latest. */
    ghost predicate EndsBy(h: nat)
      reads this
    {
      h >= NextPage() && fetch(PageUrl(query, h)) != Some([])
    }

    /** The runs that `Next` leaves out are exactly those where every page from the next
        one on answers with no items: then no page ends the loop, and the source requests
        page after page for ever. */
    lemma NoEndOnlyOnEmptyRuns()
      ensures (!exists h: nat :: EndsBy(h)) <==> forall i :: NextPage() <= i ==> fetch(PageUrl(query, i)) == Some([])
    {
      if !forall i :: NextPage() <= i ==> fetch(PageUrl(query, i)) == Some([]) {
        var h :| NextPage() <= h && fetch(PageUrl(query, h)) != Some([]);
        assert EndsBy(h);
      }
    }

    /** `unlim_fractal_iterator(url, wts)`, before its first step. */
    constructor Unlimited(url: string, fetch: string -> Option<seq<Item>>)
      ensures Valid() && query == Weighted(url) && this.fetch == fetch
      ensures page == 1 && !inPage && !finished && requested == [] && yielded == []
    {
      query := Weighted(url);
      this.fetch := fetch;
      page, current, inPage, finished := 1, [], false, false;
      requested, yielded := [], [];
    }

    /** `search_fractal(name)`, before its first step. */
    constructor SearchByName(endpoint: string, name: string, fetch: string -> Option<seq<Item>>)
      ensures Valid() && query == ByName(endpoint, name) && this.fetch == fetch
      ensures page == 1 && !inPage && !finished && requested == [] && yielded == []
    {
      query := ByName(endpoint, name);
      this.fetch := fetch;
      page, current, inPage, finished := 1, [], false, false;
      requested, yielded := [], [];
    }

    /** The `yield` inside the `for` loop: hand out the next item of the current page. */
    method TakeItem() returns (item: Item)
      requires Valid() && current != []
      modifies this`current, this`yielded
      ensures Valid()
      ensures item == old(current)[0] && current == old(current)[1..]
      ensures yielded == old(yielded) + [item]
    {
      item := current[0];
      assert (yielded + [item]) + current[1..] == yielded + current;
      current := current[1..];
      yielded := yielded + [item];
    }

    /** The generator's `while True` loop from a used-up page until a page with items
        arrives or a fetch raises: move the counter on (not before the very first page),
        request that page, and go on while it answers with no items. Every page passed
        over on the way was empty. */
    method FillCurrent() returns (ok: bool)
      requires Valid() && !finished && current == []
      requires exists h: nat :: EndsBy(h)
      modifies this`page, this`requested, this`current, this`inPage, this`finished
      ensures Valid() && yielded == old(yielded)
      ensures page >= old(NextPage()) && requested == PageUrls(query, page)
      ensures ok <==> fetch(PageUrl(query, page)).Some?
      ensures ok ==> inPage && !finished && current == fetch(PageUrl(query, page)).value && current != []
      ensures !ok ==> finished
      ensures forall i :: old(NextPage()) <= i < page ==> fetch(PageUrl(query, i)) == Some([])
    {
      ghost var h: nat :| EndsBy(h);
      ghost var before := NextPage() - 1;
      assert requested == PageUrls(query, before) && yielded == Yields(query, fetch, before);
      var p, response, urls := SkipEmptyPages(query, fetch, NextPage(), h);
      EmptyPagesYieldNothing(query, fetch, before, p - 1);
      EmptyPagesWereFetched(query, fetch, before, p - 1);
      ok := Settle(p, response, requested + urls);
    }

    /** The end of a turn of the `while True` loop that reached page `p`: the counter
        stands at `p`, and the generator either holds the page's items or has ended with
        its fetch error. */
    method Settle(p: nat, response: Option<seq<Item>>, ghost log: seq<string>) returns (ok: bool)
      requires p >= 1 && response == fetch(PageUrl(query, p)) && response != Some([])
      requires AllFetched(query, fetch, p - 1) && yielded == Yields(query, fetch, p - 1)
      requires log == PageUrls(query, p)
      modifies this`page, this`requested, this`current, this`inPage, this`finished
      ensures Valid() && page == p && requested == log
      ensures ok <==> response.Some?
      ensures ok ==> inPage && !finished && current == response.value
      ensures !ok ==> finished
    {
      page, requested := p, log;
      if response.None? {
        current, inPage, finished := [], false, true;
        return false;
      }
      current, inPage, finished := response.value, true, false;
      ok := true;
    }

    /** Resume the generator until it yields or raises. A page is fetched only once the
        previous page's items are all out; an empty page only moves the counter on. */
    method Next() returns (r: Step<Item>)
      requires Valid()
      requires finished || current != [] || exists h: nat :: EndsBy(h)
      modifies this
      ensures Valid()
      ensures r.Stopped? <==> old(finished)
      ensures old(finished) ==> page == old(page) && requested == old(requested) && yielded == old(yielded)
      ensures !old(finished) && old(current) != [] ==>
        && r == Yielded(old(current)[0]) && current == old(current)[1..]
        && page == old(page) && requested == old(requested)
      ensures r.Yielded? ==> yielded == old(yielded) + [r.item]
      ensures r.FetchFailed? ==> finished && r.page == page && yielded == old(yielded)
      ensures old(requested) <= requested && page >= old(page)
      ensures forall i :: old(NextPage()) <= i < page ==> fetch(PageUrl(query, i)) == Some([])
    {
      if finished {
        return Stopped;
      }
      if current == [] {
        ghost var before := NextPage() - 1;
        var ok := FillCurrent();
        PageUrlsPrefix(query, before, page);
        if !ok {
          return FetchFailed(page);
        }
      }
      var item := TakeItem();
      r := Yielded(item);
    }
  }

  /** The first page answers with an error: the first step reports it for page 1, and
      the generator has ended. */
  method FirstPageFailureScenario(endpoint: string, name: string) returns (first: Step<int>, second: Step<int>)
    ensures first == FetchFailed(1) && second == Stopped
  {
    var it := new PageIterator<int>.SearchByName(endpoint, name, (u: string) => None);
    assert it.EndsBy(1);
    first := it.Next();
    assert it.requested == [PageUrl(ByName(endpoint, name), 1)];
    second := it.Next();
  }
}
