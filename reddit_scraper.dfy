/** The scraping loop of Scraping/scraping_reddit.py: for each search
    phrase, pages of results are requested until the page or post budget is
    spent or the listing ends; the posts are kept once per id, first
    sighting wins, in the order they were first seen; then one CSV row is
    built per post. The HTTP search, `str` on a timestamp and the UTC ISO
    formatter are function parameters. */
module RedditScraper {
  import opened Wrappers
  import RedditQueries

  /** Stop requesting pages once this many posts are stored. */
  const TARGET_POSTS: nat := 2000
  /** At most this many pages per search phrase. */
  const MAX_PAGES: nat := 50

  /** A result's `data` object, with the fields the script reads; each may
      be absent. A result without a `data` object reads as a post without a
      `name`: either way `child['data']['name']` raises KeyError. */
  datatype Post = Post(name: Option<string>, title: Option<string>, selftext: Option<string>,
                       url: Option<string>, score: Option<int>, numComments: Option<int>,
                       createdUtc: Option<int>)

  /** The answer to one search request: a page of results and the cursor of
      the next page, or a failure (a network error, an error status, a body
      that is not JSON). */
  datatype Response =
    | Page(children: seq<Post>, after: Option<string>)
    | Failed

  /** A search request: the cursor sent and the posts stored at the time. */
  datatype Request = Request(cursor: Option<string>, stored: nat)

  /** `all_unique_posts`: the ids in insertion order and the post kept for
      each. */
  datatype Store = Store(ids: seq<string>, posts: map<string, Post>)

  /** Each id is listed once, exactly the keys are listed, and each post is
      stored under its own name. */
  ghost predicate WellFormed(st: Store) {
    && (forall i, j :: 0 <= i < j < |st.ids| ==> st.ids[i] != st.ids[j])
    && (forall id :: id in st.posts <==> id in st.ids)
    && (forall id :: id in st.posts ==> st.posts[id].name == Some(id))
  }

  /** `after` extends `before`: its ids continue the same list and every
      stored post is still stored, unchanged. */
  ghost predicate Extends(before: Store, after: Store) {
    && |before.ids| <= |after.ids| && after.ids[..|before.ids|] == before.ids
    && (forall id :: id in before.posts ==> id in after.posts && after.posts[id] == before.posts[id])
  }

  lemma ExtendsTransitive(a: Store, b: Store, c: Store)
    requires Extends(a, b) && Extends(b, c)
    ensures Extends(a, c)
  {
    assert c.ids[..|a.ids|] == c.ids[..|b.ids|][..|a.ids|];
  }

  predicate AllNamed(children: seq<Post>) {
    forall c :: 0 <= c < |children| ==> children[c].name.Some?
  }

  /** The outcome of merging one page: the new store, `new_posts`, and
      whether every result had a name (otherwise KeyError ended the merge
      part-way). */
  datatype MergeOutcome = MergeOutcome(store: Store, newPosts: nat, complete: bool)

  /** Lines 128-133: the results in page order; an id not yet stored is
      added with its post and counted, a stored id is skipped. */
  function Absorb(st: Store, children: seq<Post>): (r: MergeOutcome)
    ensures r.complete <==> AllNamed(children)
    decreases |children|
  {
    if children == [] then MergeOutcome(st, 0, true)
    else
      match children[0].name
      case None => MergeOutcome(st, 0, false)
      case Some(id) =>
        var rest := Absorb(if id in st.posts then st else Store(st.ids + [id], st.posts[id := children[0]]), children[1..]);
        assert AllNamed(children) <==> AllNamed(children[1..]) by {
          assert forall c :: 0 < c < |children| ==> children[c] == children[1..][c - 1];
        }
        if id in st.posts then rest else MergeOutcome(rest.store, rest.newPosts + 1, rest.complete)
  }

  /** Merging keeps the store well formed, keeps every stored post as it was
      first seen, and only appends ids; `new_posts` is the number of ids it
      appended. */
  lemma {:induction false} AbsorbExtends(st: Store, children: seq<Post>)
    requires WellFormed(st)
    ensures WellFormed(Absorb(st, children).store)
    ensures Extends(st, Absorb(st, children).store)
    ensures Absorb(st, children).newPosts == |Absorb(st, children).store.ids| - |st.ids|
    decreases |children|
  {
    if children != [] && children[0].name.Some? {
      var id := children[0].name.value;
      if id in st.posts {
        AbsorbExtends(st, children[1..]);
      } else {
        var next := Store(st.ids + [id], st.posts[id := children[0]]);
        assert WellFormed(next) by {
          forall i, j | 0 <= i < j < |next.ids| ensures next.ids[i] != next.ids[j] {
            if j == |st.ids| {
              assert next.ids[i] == st.ids[i];
            }
          }
        }
        AbsorbExtends(next, children[1..]);
        ExtendsTransitive(st, next, Absorb(next, children[1..]).store);
      }
    }
  }

  /** How many results are merged before the first one without a name. */
  function Merged(children: seq<Post>): (k: nat)
    ensures k <= |children| && AllNamed(children[..k])
    ensures k < |children| ==> children[k].name.None?
  {
    if children == [] || children[0].name.None? then 0
    else
      var k := Merged(children[1..]);
      assert forall c :: 0 < c <= k ==> children[..k + 1][c] == children[c] == children[1..][c - 1];
      k + 1
  }

  /** Every merged result's id ends up stored, and an id that was not stored
      before holds the first merged result that carries it. */
  lemma {:induction false} AbsorbStoresFirstSeen(st: Store, children: seq<Post>, c: nat)
    requires c < Merged(children)
    ensures children[c].name.value in Absorb(st, children).store.posts
    ensures children[c].name.value !in st.posts
              && (forall d :: 0 <= d < c ==> children[d].name != children[c].name)
            ==> Absorb(st, children).store.posts[children[c].name.value] == children[c]
    decreases |children|
  {
    var id := children[0].name.value;
    var next := if id in st.posts then st else Store(st.ids + [id], st.posts[id := children[0]]);
    assert Absorb(st, children).store == Absorb(next, children[1..]).store;
    if c == 0 {
      AbsorbKeeps(next, children[1..], id);
    } else {
      assert Merged(children[1..]) == Merged(children) - 1;
      AbsorbStoresFirstSeen(next, children[1..], c - 1);
      assert children[1..][c - 1] == children[c];
      if children[c].name.value !in st.posts && (forall d :: 0 <= d < c ==> children[d].name != children[c].name) {
        assert children[c].name.value !in next.posts;
        forall d | 0 <= d < c - 1 ensures children[1..][d].name != children[c].name {
          assert children[1..][d] == children[d + 1];
        }
      }
    }
  }

  /** The names of the results merged before the first one without a name. */
  function MergedNames(children: seq<Post>): set<string>
    decreases |children|
  {
    if children == [] || children[0].name.None? then {}
    else {children[0].name.value} + MergedNames(children[1..])
  }

  /** After a merge the stored ids are the old ones and the merged names. */
  lemma {:induction false} AbsorbKeys(st: Store, children: seq<Post>)
    ensures Absorb(st, children).store.posts.Keys == st.posts.Keys + MergedNames(children)
    decreases |children|
  {
    if children != [] && children[0].name.Some? {
      var id := children[0].name.value;
      var next := if id in st.posts then st else Store(st.ids + [id], st.posts[id := children[0]]);
      AbsorbKeys(next, children[1..]);
    }
  }

  /** The distinct values of a list. */
  function Elements(xs: seq<string>): set<string> {
    set i | 0 <= i < |xs| :: xs[i]
  }

  /** A list without repeats has as many distinct values as entries. */
  lemma {:induction false} ElementsOfDistinct(xs: seq<string>)
    requires forall i, j :: 0 <= i < j < |xs| ==> xs[i] != xs[j]
    ensures |Elements(xs)| == |xs|
  {
    if xs != [] {
      var init := xs[..|xs| - 1];
      ElementsOfDistinct(init);
      assert Elements(xs) == Elements(init) + {xs[|xs| - 1]};
      assert xs[|xs| - 1] !in Elements(init);
    }
  }

  /** A well-formed store holds as many posts as it lists ids. */
  lemma KeysCount(st: Store)
    requires WellFormed(st)
    ensures |st.posts.Keys| == |st.ids|
  {
    ElementsOfDistinct(st.ids);
    assert st.posts.Keys == Elements(st.ids);
  }

  /** `new_posts` is how many keys a merge adds. */
  lemma AbsorbCountsKeys(st: Store, children: seq<Post>)
    requires WellFormed(st)
    ensures Absorb(st, children).newPosts == |Absorb(st, children).store.posts.Keys| - |st.posts.Keys|
  {
    AbsorbExtends(st, children);
    KeysCount(st);
    KeysCount(Absorb(st, children).store);
  }

  /** `new_posts` is the number of distinct ids on the page, up to the first
      result without a name, that were not stored before. */
  lemma {:induction false} NewPostsCount(st: Store, children: seq<Post>)
    requires WellFormed(st)
    ensures Absorb(st, children).newPosts == |MergedNames(children) - st.posts.Keys|
  {
    AbsorbCountsKeys(st, children);
    AbsorbKeys(st, children);
    DisjointUnionCount(st.posts.Keys, MergedNames(children));
  }

  lemma DisjointUnionCount(a: set<string>, b: set<string>)
    ensures |a + b| == |a| + |b - a|
  {
    assert a + b == a + (b - a);
  }

  /** A stored post is never replaced by a later merge. */
  lemma {:induction false} AbsorbKeeps(st: Store, children: seq<Post>, id: string)
    requires id in st.posts
    ensures id in Absorb(st, children).store.posts
    ensures Absorb(st, children).store.posts[id] == st.posts[id]
    decreases |children|
  {
    if children != [] && children[0].name.Some? {
      var nid := children[0].name.value;
      var next := if nid in st.posts then st else Store(st.ids + [nid], st.posts[nid := children[0]]);
      AbsorbKeeps(next, children[1..], id);
    }
  }

  /** A response after which the loop asks for the next page. */
  predicate Continues(r: Response) {
    r.Page? && r.children != [] && AllNamed(r.children) && r.after.Some? && r.after.value != ""
  }

  /** Whether a page was merged whole, so that `pages_scraped` counts it. */
  predicate Processed(r: Response) {
    r.Page? && r.children != [] && AllNamed(r.children)
  }

  /** The requests for one phrase form a cursor chain: the first carries no
      cursor, and each later one is sent only after a page that continues,
      with that page's cursor. */
  ghost predicate Chained(query: string, fetch: (string, Option<string>) -> Response, rs: seq<Request>) {
    && (|rs| > 0 ==> rs[0].cursor.None?)
    && forall k :: 0 <= k < |rs| - 1 ==>
         Continues(fetch(query, rs[k].cursor)) && rs[k + 1].cursor == fetch(query, rs[k].cursor).after
  }

  /** `pages_scraped` after the requests `rs`: every page sent, less the
      last one when it was not merged whole. */
  function PagesOf(query: string, fetch: (string, Option<string>) -> Response, rs: seq<Request>): int {
    |rs| - (if |rs| > 0 && !Processed(fetch(query, rs[|rs| - 1].cursor)) then 1 else 0)
  }

  /** Every request was sent while fewer than `TARGET_POSTS` posts were stored. */
  predicate SentBelowTarget(rs: seq<Request>) {
    forall k :: 0 <= k < |rs| ==> rs[k].stored < TARGET_POSTS
  }

  /** The results a response offers to the merge: none for a failure. */
  function PageChildren(r: Response): seq<Post> {
    if r.Page? then r.children else []
  }

  /** The store after the pages answering `rs` are merged in order, each
      from the store the previous one left (a failed or empty page merges
      nothing, a page with a result without a name merges up to it). */
  function Collected(st: Store, query: string, fetch: (string, Option<string>) -> Response, rs: seq<Request>): Store
    decreases |rs|
  {
    if rs == [] then st
    else Collected(Absorb(st, PageChildren(fetch(query, rs[0].cursor))).store, query, fetch, rs[1..])
  }

  /** A scrape: the store it leaves, the requests it sent and its final
      `pages_scraped`. */
  datatype Scrape = Scrape(store: Store, requests: seq<Request>, pages: nat)

  /** `rs` sent first, then the scrape `r`. */
  function Then(rs: seq<Request>, r: Scrape): Scrape {
    Scrape(r.store, rs + r.requests, r.pages)
  }

  /** Lines 101-148 for one phrase, from the cursor `after` with `pages`
      pages processed: request while the page and post budgets allow; stop
      after a failed or empty page, after a page whose merge raised, or when
      the page gives no next cursor. */
  function Paginate(st: Store, query: string, fetch: (string, Option<string>) -> Response,
                    after: Option<string>, pages: nat): Scrape
    decreases MAX_PAGES - pages
  {
    if pages >= MAX_PAGES || |st.ids| >= TARGET_POSTS then Scrape(st, [], pages)
    else
      var response := fetch(query, after);
      var req := Request(after, |st.ids|);
      if response.Failed? || response.children == [] then Scrape(st, [req], pages)
      else
        var m := Absorb(st, response.children);
        if !m.complete then Scrape(m.store, [req], pages)
        else if response.after.None? || response.after.value == "" then Scrape(m.store, [req], pages + 1)
        else Then([req], Paginate(m.store, query, fetch, response.after, pages + 1))
  }

  /** One request of the phrase's scrape, sent from the store `st` after
      the requests `rs`: what remains of the scrape `total` in each outcome of
      the page. */
  lemma PaginateAdvance(total: Scrape, rs: seq<Request>, st: Store, query: string,
                        fetch: (string, Option<string>) -> Response, after: Option<string>, pages: nat)
    requires total == Then(rs, Paginate(st, query, fetch, after, pages))
    requires pages < MAX_PAGES && |st.ids| < TARGET_POSTS
    ensures var response := fetch(query, after);
      var rs' := rs + [Request(after, |st.ids|)];
      && (response.Failed? || response.children == [] ==> total == Scrape(st, rs', pages))
      && (response.Page? && response.children != [] ==>
            var m := Absorb(st, response.children);
            && (!m.complete ==> total == Scrape(m.store, rs', pages))
            && (m.complete && (response.after.None? || response.after.value == "") ==> total == Scrape(m.store, rs', pages + 1))
            && (m.complete && response.after.Some? && response.after.value != "" ==>
                  total == Then(rs', Paginate(m.store, query, fetch, response.after, pages + 1))))
  {
  }

  /** The requests of a phrase's scrape from the cursor `after` form a
      chain: the first carries `after`, each later one the cursor of the page
      before, which continued; and each was sent below the post target. */
  lemma {:induction false} PaginateChain(st: Store, query: string, fetch: (string, Option<string>) -> Response,
                                         after: Option<string>, pages: nat)
    ensures var rs := Paginate(st, query, fetch, after, pages).requests;
      && SentBelowTarget(rs)
      && (|rs| > 0 ==> rs[0].cursor == after)
      && (forall k :: 0 <= k < |rs| - 1 ==>
            Continues(fetch(query, rs[k].cursor)) && rs[k + 1].cursor == fetch(query, rs[k].cursor).after)
    decreases MAX_PAGES - pages
  {
    if pages < MAX_PAGES && |st.ids| < TARGET_POSTS {
      var response := fetch(query, after);
      var req := Request(after, |st.ids|);
      if response.Page? && response.children != [] {
        var m := Absorb(st, response.children);
        if m.complete && response.after.Some? && response.after.value != "" {
          var rest := Paginate(m.store, query, fetch, response.after, pages + 1);
          PaginateChain(m.store, query, fetch, response.after, pages + 1);
          ShapeStep(query, fetch, req, rest.requests);
        }
      }
    }
  }

  /** A phrase's scrape from `pages` pages processed sends no more than the
      page budget left, and ends on a page that does not continue, on the
      page budget, or on the post target. */
  lemma {:induction false} PaginateStops(st: Store, query: string, fetch: (string, Option<string>) -> Response,
                                         after: Option<string>, pages: nat)
    requires pages <= MAX_PAGES
    ensures var r := Paginate(st, query, fetch, after, pages);
      && |r.requests| <= MAX_PAGES - pages
      && ((|r.requests| > 0 && !Continues(fetch(query, r.requests[|r.requests| - 1].cursor)))
          || r.pages == MAX_PAGES || |r.store.ids| >= TARGET_POSTS)
    decreases MAX_PAGES - pages
  {
    if pages < MAX_PAGES && |st.ids| < TARGET_POSTS {
      var response := fetch(query, after);
      var req := Request(after, |st.ids|);
      if response.Page? && response.children != [] {
        var m := Absorb(st, response.children);
        if m.complete && response.after.Some? && response.after.value != "" {
          var rest := Paginate(m.store, query, fetch, response.after, pages + 1);
          PaginateStops(m.store, query, fetch, response.after, pages + 1);
          var rs := [req] + rest.requests;
          assert |rest.requests| > 0 ==> rs[|rs| - 1] == rest.requests[|rest.requests| - 1];
        }
      }
    }
  }

  /** `pages_scraped` counts the pages merged whole: one per request, less
      the last when its page was not. */
  lemma {:induction false} PaginateCounts(st: Store, query: string, fetch: (string, Option<string>) -> Response,
                                          after: Option<string>, pages: nat)
    ensures var r := Paginate(st, query, fetch, after, pages);
      r.pages == pages + PagesOf(query, fetch, r.requests)
    decreases MAX_PAGES - pages
  {
    if pages < MAX_PAGES && |st.ids| < TARGET_POSTS {
      var response := fetch(query, after);
      var req := Request(after, |st.ids|);
      if response.Page? && response.children != [] {
        var m := Absorb(st, response.children);
        if m.complete && response.after.Some? && response.after.value != "" {
          var rest := Paginate(m.store, query, fetch, response.after, pages + 1);
          PaginateCounts(m.store, query, fetch, response.after, pages + 1);
          var rs := [req] + rest.requests;
          assert |rest.requests| > 0 ==> rs[|rs| - 1] == rest.requests[|rest.requests| - 1];
        }
      }
    }
  }

  /** A request whose page continues, put before a chain that starts with
      that page's cursor, extends the chain. */
  lemma ShapeStep(query: string, fetch: (string, Option<string>) -> Response, req: Request, rest: seq<Request>)
    requires req.stored < TARGET_POSTS && SentBelowTarget(rest)
    requires Continues(fetch(query, req.cursor))
    requires |rest| > 0 ==> rest[0].cursor == fetch(query, req.cursor).after
    requires forall k :: 0 <= k < |rest| - 1 ==>
               Continues(fetch(query, rest[k].cursor)) && rest[k + 1].cursor == fetch(query, rest[k].cursor).after
    ensures var rs := [req] + rest;
      && SentBelowTarget(rs)
      && (forall k :: 0 <= k < |rs| - 1 ==>
            Continues(fetch(query, rs[k].cursor)) && rs[k + 1].cursor == fetch(query, rs[k].cursor).after)
  {
    var rs := [req] + rest;
    forall k | 0 <= k < |rs| - 1
      ensures Continues(fetch(query, rs[k].cursor)) && rs[k + 1].cursor == fetch(query, rs[k].cursor).after
    {
      if k > 0 {
        assert rs[k] == rest[k - 1] && rs[k + 1] == rest[k];
      }
    }
    assert forall k :: 0 < k < |rs| ==> rs[k] == rest[k - 1];
  }

  /** What a whole scrape of one phrase from the store `st` promises: the
      store stays well formed and only grows, by exactly the pages of the
      requests merged in order; the requests form a cursor chain, each sent
      below the post target, at most `MAX_PAGES` of them; and the scrape ends
      on a page that does not continue, on the page budget, or on the post
      target. */
  lemma ScrapeFacts(st: Store, query: string, fetch: (string, Option<string>) -> Response)
    requires WellFormed(st)
    ensures var r := Paginate(st, query, fetch, None, 0);
      && WellFormed(r.store) && Extends(st, r.store)
      && r.store == Collected(st, query, fetch, r.requests)
      && |r.requests| <= MAX_PAGES && 0 <= PagesOf(query, fetch, r.requests) <= MAX_PAGES
      && SentBelowTarget(r.requests) && Chained(query, fetch, r.requests)
      && r.pages == PagesOf(query, fetch, r.requests)
      && ((|r.requests| > 0 && !Continues(fetch(query, r.requests[|r.requests| - 1].cursor)))
          || r.pages == MAX_PAGES || |r.store.ids| >= TARGET_POSTS)
  {
    var r := Paginate(st, query, fetch, None, 0);
    PaginateCollects(st, query, fetch, None, 0);
    PaginateChain(st, query, fetch, None, 0);
    PaginateStops(st, query, fetch, None, 0);
    PaginateCounts(st, query, fetch, None, 0);
    CollectedExtends(st, query, fetch, r.requests);
  }

  /** What one phrase's scrape stores is exactly the pages of the requests
      it sent, merged in order. */
  lemma {:induction false} PaginateCollects(st: Store, query: string, fetch: (string, Option<string>) -> Response,
                                            after: Option<string>, pages: nat)
    ensures var r := Paginate(st, query, fetch, after, pages);
      r.store == Collected(st, query, fetch, r.requests)
    decreases MAX_PAGES - pages
  {
    if pages < MAX_PAGES && |st.ids| < TARGET_POSTS {
      var response := fetch(query, after);
      var req := Request(after, |st.ids|);
      if response.Failed? || response.children == [] {
        assert Absorb(st, PageChildren(response)).store == st;
      } else {
        var m := Absorb(st, response.children);
        if m.complete && response.after.Some? && response.after.value != "" {
          var rest := Paginate(m.store, query, fetch, response.after, pages + 1);
          PaginateCollects(m.store, query, fetch, response.after, pages + 1);
          assert ([req] + rest.requests)[1..] == rest.requests;
        }
      }
    }
  }

  /** Merging pages keeps the store well formed and only extends it. */
  lemma {:induction false} CollectedExtends(st: Store, query: string, fetch: (string, Option<string>) -> Response, rs: seq<Request>)
    requires WellFormed(st)
    ensures WellFormed(Collected(st, query, fetch, rs)) && Extends(st, Collected(st, query, fetch, rs))
    decreases |rs|
  {
    if rs != [] {
      var next := Absorb(st, PageChildren(fetch(query, rs[0].cursor))).store;
      AbsorbExtends(st, PageChildren(fetch(query, rs[0].cursor)));
      CollectedExtends(next, query, fetch, rs[1..]);
      ExtendsTransitive(st, next, Collected(st, query, fetch, rs));
    }
  }

  /** Line 95: the phrases scraped in turn, each from the store the
      previous one left. */
  function ScrapedAll(st: Store, queries: seq<string>, fetch: (string, Option<string>) -> Response): Store
    decreases |queries|
  {
    if queries == [] then st
    else Paginate(ScrapedAll(st, queries[..|queries| - 1], fetch), queries[|queries| - 1], fetch, None, 0).store
  }

  /** After every phrase the store is well formed and extends the one the
      scrape began with. */
  lemma {:induction false} ScrapedAllExtends(st: Store, queries: seq<string>, fetch: (string, Option<string>) -> Response)
    requires WellFormed(st)
    ensures WellFormed(ScrapedAll(st, queries, fetch)) && Extends(st, ScrapedAll(st, queries, fetch))
    decreases |queries|
  {
    if queries != [] {
      var prev := ScrapedAll(st, queries[..|queries| - 1], fetch);
      var q := queries[|queries| - 1];
      ScrapedAllExtends(st, queries[..|queries| - 1], fetch);
      PaginateCollects(prev, q, fetch, None, 0);
      CollectedExtends(prev, q, fetch, Paginate(prev, q, fetch, None, 0).requests);
      ExtendsTransitive(st, prev, ScrapedAll(st, queries, fetch));
    }
  }

  /** One row of the Reddit CSV. */
  datatype PostRow = PostRow(index: nat, symbol: string, title: string, text: string, score: int,
                             comments: int, timestampRaw: string, timestampIso: string, postId: string)

  /** `post.get('selftext') or post.get('url', '')`: the body, or the link
      when the body is missing or empty. */
  function TextCell(p: Post): (r: string)
    ensures p.selftext.Some? && p.selftext.value != "" ==> r == p.selftext.value
    ensures p.selftext.None? || p.selftext.value == "" ==> r == p.url.GetOr("")
  {
    if p.selftext.Some? && p.selftext.value != "" then p.selftext.value else p.url.GetOr("")
  }

  /** The row of the post at 0-based position `i`: numbered `i + 1`, absent
      fields read as '' or 0, and both timestamp cells '' when `created_utc`
      is missing or 0. `show` is `str` on the timestamp and `isoFormat` the
      UTC ISO rendering, None where it raises. */
  function PostRowAt(symbol: string, i: nat, p: Post, show: int -> string, isoFormat: int -> Option<string>): (row: PostRow)
    ensures row.index == i + 1 && row.symbol == symbol && row.postId == p.name.GetOr("")
    ensures row.title == p.title.GetOr("") && row.text == TextCell(p)
    ensures row.score == p.score.GetOr(0) && row.comments == p.numComments.GetOr(0)
    ensures p.createdUtc.None? || p.createdUtc.value == 0 ==> row.timestampRaw == "" && row.timestampIso == ""
    ensures p.createdUtc.Some? && p.createdUtc.value != 0 ==>
              row.timestampRaw == show(p.createdUtc.value) && row.timestampIso == isoFormat(p.createdUtc.value).GetOr("")
  {
    var created := p.createdUtc.GetOr(0);
    PostRow(i + 1, symbol, p.title.GetOr(""), TextCell(p), p.score.GetOr(0), p.numComments.GetOr(0),
            if created != 0 then show(created) else "",
            if created != 0 then isoFormat(created).GetOr("") else "",
            p.name.GetOr(""))
  }

  /** The post store of the script, `all_unique_posts`. */
  class PostStore {
    var ids: seq<string>
    var posts: map<string, Post>

    function Contents(): Store
      reads this
    {
      Store(ids, posts)
    }

    ghost predicate Valid()
      reads this
    {
      WellFormed(Contents())
    }

    /** `all_unique_posts = {}` */
    constructor ()
      ensures Valid() && ids == [] && posts == map[]
    {
      ids := [];
      posts := map[];
    }

    /** The merge loop of lines 128-133, on one page of results. */
    method MergePage(children: seq<Post>) returns (newPosts: nat, complete: bool)
      modifies this
      ensures MergeOutcome(Contents(), newPosts, complete) == Absorb(old(Contents()), children)
    {
      ghost var total := Absorb(Contents(), children);
      newPosts := 0;
      var i := 0;
      while i < |children|
        invariant 0 <= i <= |children|
        invariant Absorb(Contents(), children[i..]).store == total.store
        invariant newPosts + Absorb(Contents(), children[i..]).newPosts == total.newPosts
        invariant Absorb(Contents(), children[i..]).complete == total.complete
      {
        assert children[i..][0] == children[i] && children[i..][1..] == children[i + 1..];
        match children[i].name {
          case None =>
            complete := false;
            return;
          case Some(id) =>
            if id !in posts {
              ids := ids + [id];
              posts := posts[id := children[i]];
              newPosts := newPosts + 1;
            }
        }
        i := i + 1;
      }
      complete := true;
    }

    /** The `while` loop of lines 101-148 for one search phrase, with the
        search as `fetch(query, after)`. A page is requested only while fewer
        than 50 pages were processed and fewer than 2000 posts are stored;
        the first request carries no cursor and each next one the cursor of
        the page before; the loop goes on until the budget is spent or a
        response ends it; `pages_scraped` counts the pages merged whole. */
    method ScrapeQuery(query: string, fetch: (string, Option<string>) -> Response)
      returns (requests: seq<Request>, pages: nat)
      requires Valid()
      modifies this
      ensures Valid()
      ensures Scrape(Contents(), requests, pages) == Paginate(old(Contents()), query, fetch, None, 0)
    {
      ghost var total := Paginate(Contents(), query, fetch, None, 0);
      var after: Option<string> := None;
      pages := 0;
      requests := [];
      assert [] + total.requests == total.requests;
      while pages < MAX_PAGES && |ids| < TARGET_POSTS
        invariant Valid()
        invariant pages == |requests|
        invariant total == Then(requests, Paginate(Contents(), query, fetch, after, pages))
        decreases MAX_PAGES - pages
      {
        var response := fetch(query, after);
        PaginateAdvance(total, requests, Contents(), query, fetch, after, pages);
        requests := requests + [Request(after, |ids|)];
        if response.Failed? || response.children == [] {
          break;
        }
        ghost var before := Contents();
        var newPosts, complete := MergePage(response.children);
        AbsorbExtends(before, response.children);
        if !complete {
          break;
        }
        after := response.after;
        pages := pages + 1;
        if after.None? || after.value == "" {
          break;
        }
      }
    }

    /** The loop of line 95: every search phrase in turn, all filling the one
        store. */
    method ScrapeAll(queries: seq<string>, fetch: (string, Option<string>) -> Response)
      requires Valid()
      modifies this
      ensures Valid() && Extends(old(Contents()), Contents())
      ensures Contents() == ScrapedAll(old(Contents()), queries, fetch)
    {
      for q := 0 to |queries|
        invariant Valid() && Extends(old(Contents()), Contents())
        invariant Contents() == ScrapedAll(old(Contents()), queries[..q], fetch)
      {
        ghost var before := Contents();
        var _, _ := ScrapeQuery(queries[q], fetch);
        ScrapeFacts(before, queries[q], fetch);
        ExtendsTransitive(old(Contents()), before, Contents());
        assert queries[..q + 1][..q] == queries[..q];
      }
      assert queries[..|queries|] == queries;
    }

    /** The loop of lines 154-173: one row per stored post, in insertion
        order, numbered from 1; the post id column lists the stored ids. */
    method BuildRows(symbol: string, show: int -> string, isoFormat: int -> Option<string>)
      returns (rows: seq<PostRow>)
      requires Valid()
      ensures |rows| == |ids|
      ensures forall i :: 0 <= i < |ids| ==> rows[i] == PostRowAt(symbol, i, posts[ids[i]], show, isoFormat)
      ensures forall i :: 0 <= i < |rows| ==> rows[i].index == i + 1 && rows[i].postId == ids[i]
    {
      rows := [];
      for i := 0 to |ids|
        invariant |rows| == i
        invariant forall k :: 0 <= k < i ==> rows[k] == PostRowAt(symbol, k, posts[ids[k]], show, isoFormat)
      {
        assert ids[i] in posts;
        var post := posts[ids[i]];
        var created := post.createdUtc.GetOr(0);
        var timestampIso := "";
        if created != 0 {
          timestampIso := isoFormat(created).GetOr("");
        }
        rows := rows + [PostRow(i + 1, symbol, post.title.GetOr(""), TextCell(post),
                                post.score.GetOr(0), post.numComments.GetOr(0),
                                if created != 0 then show(created) else "", timestampIso,
                                post.name.GetOr(""))];
      }
      forall i | 0 <= i < |rows| ensures rows[i].postId == ids[i] {
        assert ids[i] in posts;
      }
    }
  }


  /** The script for one ticker: the queries, the scrape over all of them
      into an empty store, and the rows. The rows are numbered 1..N and no
      post id appears twice. */
  method ScrapeReddit(symbol: string, name: Option<string>, fetch: (string, Option<string>) -> Response,
                      show: int -> string, isoFormat: int -> Option<string>)
    returns (queries: seq<string>, rows: seq<PostRow>)
    ensures queries == RedditQueries.GetQueries(symbol, name)
    ensures var st := ScrapedAll(Store([], map[]), queries, fetch);
      && |rows| == |st.ids|
      && forall i :: 0 <= i < |rows| ==>
           st.ids[i] in st.posts && rows[i] == PostRowAt(symbol, i, st.posts[st.ids[i]], show, isoFormat)
    ensures forall i :: 0 <= i < |rows| ==> rows[i].index == i + 1 && rows[i].symbol == symbol
    ensures forall i, j :: 0 <= i < j < |rows| ==> rows[i].postId != rows[j].postId
  {
    queries := RedditQueries.GetQueries(symbol, name);
    var store := new PostStore();
    store.ScrapeAll(queries, fetch);
    rows := store.BuildRows(symbol, show, isoFormat);
  }
}
