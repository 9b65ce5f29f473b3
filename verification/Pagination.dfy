/** Iterating over the items of a paginated REST listing. */
module Pagination {
  import opened Json
  import Query

  type Params = map<string, string>

  // ------------------------------------------------------------------ one response

  predicate HasArray(response: Json, key: string) {
    response.JObject? && Contains(response.fields, key) && Get(response.fields, key).JArray?
  }

  function ItemsOf(response: Json, key: string): seq<Json> {
    if HasArray(response, key) then Get(response.fields, key).items else []
  }

  /** The link to the next page, or the empty string. */
  function NextUrl(response: Json): string {
    if response.JObject? && Contains(response.fields, "links") && Get(response.fields, "links").JObject? then
      var links := Get(response.fields, "links").fields;
      if Contains(links, "next") && Get(links, "next").JString? then Get(links, "next").s else ""
    else ""
  }

  /** The parameters of the page after this one, if there is one. */
  function NextParams(page: Json, key: string): Option<Params> {
    if ItemsOf(page, key) != [] && NextUrl(page) != "" then Some(Query.Parsed(NextUrl(page))) else None
  }

  // ------------------------------------------------------------------ what a response says

  /** The response is an object with these items under the key. */
  predicate Holds(response: Json, key: string, items: seq<Json>) {
    response.JObject? && Lookup(response.fields, key) == Some(JArray(items))
  }

  /** Its object of links has this text under `next`. */
  predicate LinksTo(response: Json, link: string) {
    response.JObject?
    && match Lookup(response.fields, "links")
       case Some(JObject(links)) => Lookup(links, "next") == Some(JString(link))
       case _ => false
  }

  /** The response has items, and a link to go on with. */
  predicate GoesOn(response: Json, key: string, items: seq<Json>, link: string) {
    Holds(response, key, items) && items != [] && LinksTo(response, link) && link != ""
  }

  /** The response lacks items or a link to go on with. */
  ghost predicate IsLast(response: Json, key: string) {
    forall items, link :: !GoesOn(response, key, items, link)
  }

  ghost predicate HasNone(response: Json, key: string) {
    forall items :: !Holds(response, key, items)
  }

  lemma {:induction false} HoldsItems(response: Json, key: string)
    ensures forall items :: Holds(response, key, items) ==> items == ItemsOf(response, key)
    ensures HasNone(response, key) ==> ItemsOf(response, key) == []
    ensures ItemsOf(response, key) != [] ==> Holds(response, key, ItemsOf(response, key))
  {
    if HasArray(response, key) {
      assert Holds(response, key, Get(response.fields, key).items);
    }
  }

  lemma {:induction false} LinksUrl(response: Json)
    ensures forall link :: LinksTo(response, link) ==> link == NextUrl(response)
    ensures NextUrl(response) != "" ==> LinksTo(response, NextUrl(response))
  {
  }

  /** The parameters of the next page are those of the link under `next`; without items, or without
      such a link, there is no next page. */
  lemma {:induction false} NextIsLinked(response: Json, key: string)
    ensures forall items, link :: GoesOn(response, key, items, link) ==>
              NextParams(response, key) == Some(Query.Parsed(link)) && ItemsOf(response, key) == items
    ensures NextParams(response, key).None? <==> IsLast(response, key)
  {
    hide ItemsOf, NextUrl, Holds, LinksTo;
    HoldsItems(response, key);
    LinksUrl(response);
    if ItemsOf(response, key) != [] && NextUrl(response) != "" {
      assert GoesOn(response, key, ItemsOf(response, key), NextUrl(response));
    }
  }

  // ------------------------------------------------------------------ the listing, as a list

  /** A paginated resource: what the server answers for each choice of parameters, the parameters
      of the first request, and the key under which the items of a page are. */
  datatype Listing = Listing(server: Params -> Json, start: Params, key: string) {
    /** The parameters of the page `n`, counted from 0, if there is such a page: a page is the
        last one when it has no items or no link to a next page. */
    ghost function ParamsOf(n: nat): Option<Params> {
      if n == 0 then Some(start)
      else
        match ParamsOf(n - 1)
        case None => None
        case Some(params) => NextParams(server(params), key)
    }

    ghost function PageItems(n: nat): seq<Json> {
      if ParamsOf(n).None? then [] else ItemsOf(server(ParamsOf(n).value), key)
    }

    /** The items of the first `n` pages. */
    ghost function FirstItems(n: nat): seq<Json> {
      if n == 0 then [] else FirstItems(n - 1) + PageItems(n - 1)
    }
  }

  /** One more page. */
  lemma {:induction false} PageFetched(l: Listing, n: nat, params: Params)
    requires l.ParamsOf(n) == Some(params)
    ensures l.PageItems(n) == ItemsOf(l.server(params), l.key)
    ensures l.FirstItems(n + 1) == l.FirstItems(n) + l.PageItems(n)
    ensures l.ParamsOf(n + 1) == NextParams(l.server(params), l.key)
  {
    hide ItemsOf, NextParams;
  }

  lemma {:induction false} NoLaterPages(l: Listing, n: nat, m: nat)
    requires n <= m && l.ParamsOf(n).None?
    ensures l.ParamsOf(m).None? && l.FirstItems(m) == l.FirstItems(n)
    decreases m
  {
    hide NextParams, ItemsOf;
    if n < m { NoLaterPages(l, n, m - 1); }
  }

  lemma {:induction false} FirstItemsGrow(l: Listing, n: nat, m: nat)
    requires n <= m
    ensures l.FirstItems(n) <= l.FirstItems(m)
    decreases m
  {
    hide Listing.PageItems, Listing.ParamsOf;
    if n < m { FirstItemsGrow(l, n, m - 1); }
  }

  // ------------------------------------------------------------------ the iterator

  class PaginatedIterator {
    const server: Params -> Json
    const dataKey: string
    var params: Params
    var items: seq<Json>
    var index: nat
    var done: bool

    // the listing that is iterated over, and the number of pages fetched so far
    ghost const listing: Listing
    ghost var fetched: nat

    /** Everything buffered is the items of the pages fetched so far, in order. */
    ghost predicate Valid()
      reads this
    {
      && listing.server == server && listing.key == dataKey
      && index <= |items| && items == listing.FirstItems(fetched)
      && (if done then listing.ParamsOf(fetched) == None else listing.ParamsOf(fetched) == Some(params))
    }

    constructor (respond: Params -> Json, start: Params, key: string)
      ensures Valid() && listing == Listing(respond, start, key)
      ensures items == [] && index == 0 && !done && fetched == 0
    {
      server, dataKey := respond, key;
      params, items, index, done := start, [], 0, false;
      listing, fetched := Listing(respond, start, key), 0;
    }

    /** One request. */
    method FetchNext()
      requires Valid() && !done
      modifies this`params, this`items, this`done, this`fetched
      ensures Valid() && fetched == old(fetched) + 1
      ensures items == old(items) + listing.PageItems(old(fetched))
      ensures items == old(items) ==> done
      ensures var response := server(old(params));
              && (done <==> IsLast(response, dataKey))
              && (forall its :: Holds(response, dataKey, its) ==> items == old(items) + its)
              && (HasNone(response, dataKey) ==> items == old(items))
              && (forall its, link :: GoesOn(response, dataKey, its, link) ==> params == Query.Parsed(link))
    {
      hide ItemsOf, NextUrl, HasArray, Listing.ParamsOf, Listing.FirstItems, Listing.PageItems;
      hide Holds, GoesOn, IsLast, HasNone;
      var response := server(params);
      HoldsItems(response, dataKey);
      NextIsLinked(response, dataKey);
      PageFetched(listing, fetched, params);
      HasItems(response, dataKey);
      var hadData := false;
      if HasArray(response, dataKey) {
        items := items + Get(response.fields, dataKey).items;
        hadData := Get(response.fields, dataKey).items != [];
      }
      var nextUrl := NextUrl(response);
      if nextUrl != "" && hadData {
        params := Query.ParseQueryString(nextUrl);
      } else {
        done := true;
      }
      fetched := fetched + 1;
    }

    /** Makes at most one request, and none when an item is at hand or the end is known. */
    method HasNext() returns (more: bool)
      requires Valid()
      modifies this`params, this`items, this`done, this`fetched
      ensures Valid()
      ensures more <==> index < |items|
      ensures !more ==> done
      ensures old(index < |items| || done) ==> unchanged(this)
      ensures !old(index < |items| || done) ==> fetched == old(fetched) + 1
      ensures old(items) <= items
    {
      hide Listing.ParamsOf, Listing.FirstItems, Listing.PageItems;
      while index >= |items|
        invariant Valid() && old(items) <= items
        invariant old(index < |items| || done) ==> unchanged(this)
        invariant index >= |items| && !old(index < |items| || done) ==>
          fetched == old(fetched) || (done && fetched == old(fetched) + 1)
        invariant index < |items| && !old(index < |items| || done) ==> fetched == old(fetched) + 1
        invariant !done && index >= |items| ==> unchanged(this)
        decreases if done then 0 else 1, if index < |items| then 0 else 1
      {
        if done { return false; }
        FetchNext();
      }
      more := true;
    }

    /** The next item; nothing stands for the exception at the end. */
    method Next() returns (item: Option<Json>)
      requires Valid()
      modifies this
      ensures Valid()
      ensures fetched <= old(fetched) + 1 && old(items) <= items
      ensures item.Some? ==> index == old(index) + 1 <= |items| && item.value == items[old(index)]
      ensures item.None? ==> done && index == old(index) == |items|
    {
      hide Listing.ParamsOf, Listing.FirstItems, Listing.PageItems;
      var more := HasNext();
      if !more { return None; }
      item := Some(items[index]);
      index := index + 1;
    }

    /** Any number of steps, over any listing, also one whose pages never end: the next items of the
        flat list, in order, fewer only when the list ends. */
    method Take(count: nat) returns (some: seq<Json>)
      requires Valid()
      modifies this
      ensures Valid() && old(items) <= items && old(index) <= index
      ensures some == items[old(index)..index]
      ensures |some| == count || (|some| < count && done && index == |items|)
      ensures fetched <= old(fetched) + count
    {
      hide Listing.ParamsOf, Listing.FirstItems, Listing.PageItems;
      some := [];
      for i := 0 to count
        invariant Valid() && old(items) <= items && old(index) <= index
        invariant |some| == i && some == items[old(index)..index]
        invariant fetched <= old(fetched) + i
      {
        var item := Next();
        if item.None? { return; }
        some := some + [item.value];
      }
    }

    /** Iterating to the end of a listing with finitely many pages yields its items in order, up to
        and including the first page with no next link or no items. */
    method Drain(ghost pages: nat) returns (all: seq<Json>)
      requires Valid() && index == 0 && listing.ParamsOf(pages) == None
      modifies this
      ensures all == listing.FirstItems(pages)
    {
      hide Listing.ParamsOf, Listing.FirstItems, Listing.PageItems;
      all := [];
      var more := HasNext();
      FetchedBound(pages);
      while more
        invariant Valid() && index <= |items| && all == items[..index]
        invariant more <==> index < |items|
        invariant !more ==> done
        invariant |items| <= |listing.FirstItems(pages)|
        decreases |listing.FirstItems(pages)| - index, more
      {
        var item := Next();
        all := all + [item.value];
        more := HasNext();
        FetchedBound(pages);
      }
      Ended(pages);
    }

    lemma {:induction false} FetchedBound(pages: nat)
      requires Valid() && listing.ParamsOf(pages) == None
      ensures items <= listing.FirstItems(pages)
    {
      if fetched <= pages {
        FirstItemsGrow(listing, fetched, pages);
      } else {
        NoLaterPages(listing, pages, fetched);
      }
    }

    lemma {:induction false} Ended(pages: nat)
      requires Valid() && done && listing.ParamsOf(pages) == None
      ensures items == listing.FirstItems(pages)
    {
      if fetched <= pages {
        NoLaterPages(listing, fetched, pages);
      } else {
        NoLaterPages(listing, pages, fetched);
      }
    }
  }

  lemma {:induction false} HasItems(response: Json, key: string)
    ensures HasArray(response, key) ==>
      response.JObject? && Contains(response.fields, key) && Get(response.fields, key).JArray?
    ensures HasArray(response, key) ==> ItemsOf(response, key) == Get(response.fields, key).items
    ensures !HasArray(response, key) ==> ItemsOf(response, key) == []
  {
  }

  // ------------------------------------------------------------------ a server with pages

  /** A page of a listing: the parameters it is asked for with, and its items. */
  datatype Page = Page(params: Params, items: seq<Json>)

  function AllItems(pages: seq<Page>): seq<Json> {
    if pages == [] then [] else AllItems(pages[..|pages| - 1]) + pages[|pages| - 1].items
  }

  /** The link from a page to the next one: the path and the parameters of that page, listed in any
      order and percent-encoded. */
  ghost predicate IsLinkTo(link: string, path: string, params: Params) {
    exists ps :: Query.AreBytes(ps) && Query.Lists(ps, params) && link == path + Query.QueryString(ps)
  }

  /** The server answers the parameters of each page with its items and a link to the next page, and
      those of the last page with its items and no link. */
  ghost predicate Serves(server: Params -> Json, key: string, path: string, pages: seq<Page>) {
    && pages != []
    && (forall k :: 0 <= k < |pages| ==> Holds(server(pages[k].params), key, pages[k].items))
    && (forall k :: 0 <= k < |pages| - 1 ==>
      pages[k].items != [] && Linked(server(pages[k].params), path, pages[k + 1].params))
    && NoLink(server(pages[|pages| - 1].params))
  }

  ghost predicate NoLink(response: Json) {
    forall link :: LinksTo(response, link) ==> link == ""
  }

  ghost predicate Linked(response: Json, path: string, params: Params) {
    exists link :: LinksTo(response, link) && IsLinkTo(link, path, params)
  }

  /** The link leads to exactly the parameters it was made for. */
  lemma {:induction false} LinkReadsBack(link: string, path: string, params: Params)
    requires IsLinkTo(link, path, params) && path != "" && Query.Lacks(path, '?')
    ensures link != "" && Query.Parsed(link) == params
  {
    hide Query.Parsed, Query.QueryString, Query.Lists;
    var ps :| Query.AreBytes(ps) && Query.Lists(ps, params) && link == path + Query.QueryString(ps);
    Query.MapReadsBack(path, ps, params);
  }

  lemma {:induction false} PageLinked(server: Params -> Json, key: string, path: string, pages: seq<Page>, k: nat)
    requires Serves(server, key, path, pages) && path != "" && Query.Lacks(path, '?') && k + 1 < |pages|
    ensures var response := server(pages[k].params);
            ItemsOf(response, key) == pages[k].items
            && NextParams(response, key) == Some(pages[k + 1].params)
  {
    hide Query.Parsed, ItemsOf, NextParams, IsLinkTo, Holds, LinksTo;
    var response := server(pages[k].params);
    var link :| LinksTo(response, link) && IsLinkTo(link, path, pages[k + 1].params);
    LinkReadsBack(link, path, pages[k + 1].params);
    assert GoesOn(response, key, pages[k].items, link);
    NextIsLinked(response, key);
  }

  lemma {:induction false} LastPage(server: Params -> Json, key: string, path: string, pages: seq<Page>)
    requires Serves(server, key, path, pages)
    ensures var response := server(pages[|pages| - 1].params);
            ItemsOf(response, key) == pages[|pages| - 1].items && NextParams(response, key) == None
  {
    hide ItemsOf, NextParams, Holds, LinksTo;
    var response := server(pages[|pages| - 1].params);
    HoldsItems(response, key);
    NextIsLinked(response, key);
  }

  /** The listing that the iterator goes through consists of the pages of the server. */
  lemma {:induction false} ListingOfPages(l: Listing, path: string, pages: seq<Page>, n: nat)
    requires Serves(l.server, l.key, path, pages) && path != "" && Query.Lacks(path, '?')
    requires l.start == pages[0].params && n <= |pages|
    ensures l.ParamsOf(n) == if n < |pages| then Some(pages[n].params) else None
    ensures l.FirstItems(n) == AllItems(pages[..n])
    decreases n
  {
    hide ItemsOf, NextParams, Serves;
    if n == 0 {
      assert pages != [] by { SomePage(l.server, l.key, path, pages); }
    } else {
      ListingOfPages(l, path, pages, n - 1);
      PageFetched(l, n - 1, pages[n - 1].params);
      if n < |pages| {
        PageLinked(l.server, l.key, path, pages, n - 1);
      } else {
        LastPage(l.server, l.key, path, pages);
      }
      assert pages[..n][..n - 1] == pages[..n - 1];
    }
  }

  lemma {:induction false} SomePage(server: Params -> Json, key: string, path: string, pages: seq<Page>)
    requires Serves(server, key, path, pages)
    ensures pages != []
  {
  }

  /** Iterating over a server's pages yields all their items, page after page. */
  method ListAll(server: Params -> Json, start: Params, key: string, ghost path: string, ghost pages: seq<Page>)
    returns (all: seq<Json>)
    requires Serves(server, key, path, pages) && path != "" && Query.Lacks(path, '?') && start == pages[0].params
    ensures all == AllItems(pages)
  {
    hide Serves, Listing.ParamsOf, Listing.FirstItems;
    var listing := new PaginatedIterator(server, start, key);
    ListingOfPages(listing.listing, path, pages, |pages|);
    assert pages[..|pages|] == pages;
    all := listing.Drain(|pages|);
  }
}
