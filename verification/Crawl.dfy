/** The documentation crawler: a pool of workers over a shared queue. Between two
    awaits a worker runs alone, so a run is any interleaving of these steps. */
module Crawl {
  import opened Wrappers

  type Url = string

  /** What fetching a page yields. */
  datatype Source = Source(status: nat, playground: bool, links: seq<string>)

  /** A resolved link, its fragment already removed. */
  datatype Address = Address(host: string, text: Url)

  datatype Page = Page(url: Url, playground: bool, links: seq<string>)

  const DOCS_HOST := "localhost:8000"

  predicate Contains(s: string, sub: string)
  {
    exists i | 0 <= i <= |s| :: sub <= s[i..]
  }

  /** The links the loop passes over without resolving them. */
  predicate Ignored(href: string)
  {
    href == "" || "mailto:" <= href || "tel:" <= href || "javascript:" <= href
  }

  /** A site: its root, its pages and how links resolve; resolving may throw. */
  datatype Site = Site(root: Url, source: Url -> Source, resolve: (string, Url) -> Option<Address>)
  {
    /** The page a link leads the crawler to. */
    function Target(href: string, base: Url): Option<Url>
    {
      if Ignored(href) then None
      else
        var a := resolve(href, base);
        if a.Some? && a.value.host == DOCS_HOST && !Contains(a.value.text, "/livereload")
        then Some(a.value.text) else None
    }

    ghost predicate Links(u: Url, v: Url)
    {
      exists href <- source(u).links :: Target(href, u) == Some(v)
    }

    /** Processing the page throws nothing. */
    predicate Good(u: Url)
    {
      200 <= source(u).status < 400 && forall href <- source(u).links :: Ignored(href) || resolve(href, u).Some?
    }

    ghost predicate IsPath(p: seq<Url>)
    {
      p != [] && p[0] == root && forall i | 0 <= i < |p| - 1 :: Links(p[i], p[i + 1])
    }

    ghost predicate Reachable(u: Url)
    {
      exists p :: IsPath(p) && p[|p| - 1] == u
    }

    lemma RootReachable()
      ensures Reachable(root)
    {
      assert IsPath([root]);
    }

    lemma LinkReachable(u: Url, v: Url)
      requires Reachable(u) && Links(u, v)
      ensures Reachable(v)
    {
      var p :| IsPath(p) && p[|p| - 1] == u;
      assert IsPath(p + [v]);
    }

    /** A set that holds the root and all links from its pages holds every
        reachable page. */
    lemma ClosedHoldsReachable(s: set<Url>, u: Url)
      requires root in s && (forall a, b | a in s && Links(a, b) :: b in s) && Reachable(u)
      ensures u in s
    {
      var p :| IsPath(p) && p[|p| - 1] == u;
      for i := 0 to |p| - 1
        invariant p[i] in s
      {
        assert Links(p[i], p[i + 1]);
      }
    }

    function Recorded(u: Url): Page { Page(u, source(u).playground, source(u).links) }
  }

  /** Where a worker stands: not running, waiting for a page, or about to report
      whether there may be more work. */
  datatype Worker = Free | Fetching(url: Url) | Returning(more: bool)

  function UrlsOf(pages: seq<Page>): seq<Url> { seq(|pages|, i requires 0 <= i < |pages| => pages[i].url) }

  ghost predicate Distinct(s: seq<Url>)
  {
    forall i, j | 0 <= i < j < |s| :: s[i] != s[j]
  }

  /** How much the pool can still do without visiting a new page. */
  function Weight(ws: seq<Worker>, n: nat): nat
  {
    if ws == [] then 0 else Weight(ws[..|ws| - 1], n) + WeightOf(ws[|ws| - 1], n)
  }

  function WeightOf(w: Worker, n: nat): nat
  {
    match w
    case Free => 0
    case Returning(false) => 1
    case Returning(true) => n + 1
    case Fetching(_) => n + 2
  }

  lemma {:induction false} WeightUpdate(ws: seq<Worker>, n: nat, i: nat, w: Worker)
    requires i < |ws|
    ensures Weight(ws[i := w], n) == Weight(ws, n) - WeightOf(ws[i], n) + WeightOf(w, n)
  {
    var k := |ws| - 1;
    if i < k {
      WeightUpdate(ws[..k], n, i, w);
      assert ws[i := w][..k] == ws[..k][i := w];
    } else {
      assert ws[i := w][..k] == ws[..k];
    }
  }

  /** A finite site. */
  ghost predicate ClosedUniverse(site: Site, universe: set<Url>)
  {
    site.root in universe && forall u, v | u in universe && site.Links(u, v) :: v in universe
  }

  /** The queue holds reachable pages, each once and none visited. */
  ghost predicate QueueOk(site: Site, universe: set<Url>, queue: seq<Url>, visited: set<Url>)
  {
    && Distinct(queue) && (forall u <- queue :: u !in visited && site.Reachable(u) && u in universe)
    && (forall u <- visited :: site.Reachable(u) && u in universe)
    && (site.root in visited || site.root in queue)
  }

  ghost predicate PagesOk(site: Site, pages: seq<Page>, visited: set<Url>)
  {
    && Distinct(UrlsOf(pages))
    && forall p <- pages :: p.url in visited && p == site.Recorded(p.url) && site.Good(p.url)
  }

  /** Every visited page is recorded or being fetched, by one worker. */
  ghost predicate WorkersOk(pages: seq<Page>, visited: set<Url>, workers: seq<Worker>)
  {
    && (forall w <- workers :: w.Fetching? ==> w.url in visited && w.url !in UrlsOf(pages))
    && (forall i, j | 0 <= i < j < |workers| && workers[i].Fetching? && workers[j].Fetching? ::
          workers[i].url != workers[j].url)
    && (forall u <- visited :: u in UrlsOf(pages) || Fetching(u) in workers)
  }

  /** Where a recorded page leads has been visited or is queued. */
  ghost predicate LinksOk(site: Site, pages: seq<Page>, visited: set<Url>, queue: seq<Url>)
  {
    forall p <- pages, v | site.Links(p.url, v) :: v in visited || v in queue
  }

  class Crawler {
    const site: Site
    ghost const universe: set<Url>
    var queue: seq<Url>
    var visited: set<Url>
    var pages: seq<Page>
    var workers: seq<Worker>

    /** What every step keeps. */
    ghost predicate Valid()
      reads this
    {
      && QueueOk(site, universe, queue, visited) && PagesOk(site, pages, visited)
      && WorkersOk(pages, visited, workers) && LinksOk(site, pages, visited, queue)
      && ClosedUniverse(site, universe)
    }

    /** Whenever the queue is non-empty, some worker will still call `control`. */
    ghost predicate Live()
      reads this
    {
      queue == [] || exists w <- workers :: w.Fetching? || w == Returning(true)
    }

    constructor (site: Site, maxJobs: nat, ghost universe: set<Url>)
      requires ClosedUniverse(site, universe)
      ensures Valid() && this.site == site && this.universe == universe
      ensures |workers| == maxJobs && forall w <- workers :: w.Free?
    {
      this.site, this.universe := site, universe;
      queue, visited, pages := [site.root], {}, [];
      workers := seq(maxJobs, _ => Free);
      new;
      site.RootReachable();
    }

    /** `spawn`, up to the job's first await: take a page from the queue, or
        report that there is nothing to do. */
    method Spawn(i: nat)
      requires Valid() && i < |workers| && workers[i].Free?
      modifies this
      ensures Valid() && |workers| == |old(workers)| && workers == old(workers)[i := workers[i]]
      ensures if old(queue) == [] then
          queue == [] && visited == old(visited) && workers[i] == Returning(false)
        else
          && queue == old(queue)[1..] && workers[i] == Fetching(old(queue)[0])
          && visited == old(visited) + {old(queue)[0]} && old(queue)[0] !in old(visited)
      ensures pages == old(pages)
    {
      var url := if queue == [] then None else Some(queue[0]);
      if queue != [] { queue := queue[1..]; }
      if url.None? || url.value in visited {
        StillIn(workers, i, Returning(false));
        workers := workers[i := Returning(false)];
      } else {
        StillIn(workers, i, Fetching(url.value));
        assert forall u :: u in old(queue) <==> u in queue || u == url.value;
        visited := visited + {url.value};
        workers := workers[i := Fetching(url.value)];
        assert workers[i] in workers;
      }
    }

    /** The job's loop over the links of its page. */
    method QueueLinks(url: Url) returns (thrown: bool)
      requires QueueOk(site, universe, queue, visited) && url in visited && ClosedUniverse(site, universe)
      modifies `queue
      ensures QueueOk(site, universe, queue, visited) && forall u <- old(queue) :: u in queue
      ensures thrown <==> exists href <- site.source(url).links :: !Ignored(href) && site.resolve(href, url).None?
      ensures !thrown ==> forall v | site.Links(url, v) :: v in visited || v in queue
    {
      var links := site.source(url).links;
      for k := 0 to |links|
        invariant QueueOk(site, universe, queue, visited) && forall u <- old(queue) :: u in queue
        invariant forall j | 0 <= j < k :: Ignored(links[j]) || site.resolve(links[j], url).Some?
        invariant forall j | 0 <= j < k ::
          var t := site.Target(links[j], url); t.Some? ==> t.value in visited || t.value in queue
      {
        thrown := QueueLink(url, links[k]);
        if thrown { return; }
      }
      thrown := false;
    }

    /** One link: ignored, unresolvable, of another host, known already, or queued. */
    method QueueLink(url: Url, href: string) returns (thrown: bool)
      requires QueueOk(site, universe, queue, visited) && url in visited && ClosedUniverse(site, universe)
      requires href in site.source(url).links
      modifies `queue
      ensures QueueOk(site, universe, queue, visited) && forall u <- old(queue) :: u in queue
      ensures thrown <==> !Ignored(href) && site.resolve(href, url).None?
      ensures var t := site.Target(href, url); !thrown && t.Some? ==> t.value in visited || t.value in queue
    {
      if Ignored(href) { return false; }
      var absolute := site.resolve(href, url);
      if absolute.None? { return true; }
      if absolute.value.host != DOCS_HOST { return false; }
      var absStr := absolute.value.text;
      if absStr !in visited && !Contains(absStr, "/livereload") && absStr !in queue {
        assert site.Target(href, url) == Some(absStr);
        assert site.Links(url, absStr);
        site.LinkReachable(url, absStr);
        queue := queue + [absStr];
      }
      thrown := false;
    }

    /** The rest of the job once the page is there: record it and queue its new
        links. A bad status or an unresolvable link throws. */
    method Finish(i: nat) returns (thrown: bool)
      requires Valid() && i < |workers| && workers[i].Fetching?
      modifies this
      ensures thrown <==> !site.Good(old(workers)[i].url)
      ensures !thrown ==> Valid() && workers == old(workers)[i := Returning(true)] && visited == old(visited)
    {
      var url := workers[i].url;
      assert workers[i] in workers;
      var status := site.source(url).status;
      if !(200 <= status < 400) { return true; }
      FinishedPages(pages, site.Recorded(url));
      StillIn(workers, i, Returning(true));
      pages := pages + [site.Recorded(url)];
      thrown := QueueLinks(url);
      if thrown { return; }
      workers := workers[i := Returning(true)];
    }

    /** `control`: spawn every free worker. The snapshot of free workers and the
        running state agree, for spawning one worker frees no other. */
    method Control()
      requires Valid() && exists w <- workers :: w.Free?
      modifies this
      ensures Valid() && Live() && |workers| == |old(workers)| && old(visited) <= visited
      ensures visited == old(visited) ==> Weight(workers, |workers|) <= Weight(old(workers), |workers|) + |workers|
    {
      var n := |workers|;
      ghost var first :| 0 <= first < n && workers[first].Free?;
      for i := 0 to n
        invariant Valid() && |workers| == n && old(visited) <= visited
        invariant visited == old(visited) ==> Weight(workers, n) <= Weight(old(workers), n) + i
        invariant forall k | i <= k < n :: workers[k] == old(workers)[k]
        invariant first < i ==> Live()
      {
        if workers[i].Free? {
          ghost var before := workers;
          Spawn(i);
          WeightUpdate(before, n, i, workers[i]);
          assert workers[i] in workers;
        } else {
          assert first != i;
        }
      }
    }

    /** A worker that reports becomes free, and calls `control` if it found work. */
    method Resume(i: nat)
      requires Valid() && Live() && i < |workers| && workers[i].Returning?
      modifies this
      ensures Valid() && Live() && |workers| == |old(workers)| && old(visited) <= visited
      ensures visited == old(visited) ==> Weight(workers, |workers|) < Weight(old(workers), |workers|)
    {
      var more := workers[i].more;
      StillIn(workers, i, Free);
      WeightUpdate(workers, |workers|, i, Free);
      workers := workers[i := Free];
      if more {
        assert workers[i] in workers && workers[i].Free?;
        Control();
      }
    }

    predicate Busy()
      reads this
    {
      exists w <- workers :: !w.Free?
    }

    /** Whichever worker the event loop runs next. */
    method AnyRunning() returns (i: nat)
      requires Busy()
      ensures i < |workers| && !workers[i].Free?
    {
      var w :| w in workers && !w.Free?;
      i :| 0 <= i < |workers| && workers[i] == w;
    }

    /** One step of one worker: less work is left afterwards. */
    method Step(i: nat) returns (thrown: bool)
      requires Valid() && Live() && i < |workers| && !workers[i].Free?
      modifies this
      ensures thrown ==> exists u :: site.Reachable(u) && !site.Good(u)
      ensures !thrown ==> Valid() && Live() && |workers| == |old(workers)|
      ensures !thrown ==>
        || |universe - visited| < |universe - old(visited)|
        || (visited == old(visited) && Weight(workers, |workers|) < Weight(old(workers), |workers|))
    {
      thrown := false;
      if workers[i].Fetching? {
        assert workers[i] in workers;
        WeightUpdate(workers, |workers|, i, Returning(true));
        thrown := Finish(i);
        if !thrown { assert workers[i] in workers; }
      } else {
        Resume(i);
        Remaining(universe, old(visited), visited);
      }
    }
  }

  /** `parallel` on the crawl job: it returns when no worker is running. The
      choice of the next worker is arbitrary, so this covers every interleaving. */
  method CrawlSite(site: Site, maxJobs: nat, ghost universe: set<Url>) returns (r: Option<seq<Page>>)
    requires ClosedUniverse(site, universe) && maxJobs >= 1
    ensures r.Some? <==> forall u | site.Reachable(u) :: site.Good(u)
    ensures r.Some? ==> forall u :: site.Reachable(u) <==> exists p <- r.value :: p.url == u
    ensures r.Some? ==> forall i, j | 0 <= i < j < |r.value| :: r.value[i].url != r.value[j].url
    ensures r.Some? ==> forall p <- r.value ::
      p.playground == site.source(p.url).playground && p.links == site.source(p.url).links
  {
    var c := new Crawler(site, maxJobs, universe);
    assert c.workers[0] in c.workers;
    c.Control();
    while c.Busy()
      invariant fresh(c) && c.site == site && c.universe == universe && c.Valid() && c.Live()
      decreases |universe - c.visited|, Weight(c.workers, |c.workers|)
    {
      var i := c.AnyRunning();
      var thrown := c.Step(i);
      if thrown { return None; }
    }
    AllRecorded(c);
    ByUrl(c.pages);
    r := Some(c.pages);
  }

  lemma ByUrl(pages: seq<Page>)
    ensures forall u :: u in UrlsOf(pages) <==> exists p <- pages :: p.url == u
    ensures Distinct(UrlsOf(pages)) <==> forall i, j | 0 <= i < j < |pages| :: pages[i].url != pages[j].url
  {
    var urls := UrlsOf(pages);
    assert forall i | 0 <= i < |pages| :: urls[i] == pages[i].url;
    assert forall p <- pages :: p.url in urls;
  }

  /** Links that are empty or begin with `mailto:`, `tel:` or `javascript:` are passed over. */
  lemma IgnoredAre(href: string)
    ensures Ignored(href) <==>
      || href == "" || (|href| >= 7 && href[..7] == "mailto:") || (|href| >= 4 && href[..4] == "tel:")
      || (|href| >= 11 && href[..11] == "javascript:")
  {
  }

  /** Of the others those lead on that resolve to the documentation's host, at any text
      in which `/livereload` does not occur. */
  lemma Followed(site: Site, href: string, base: Url, v: Url)
    ensures site.Target(href, base) == Some(v) <==>
      && !Ignored(href) && site.resolve(href, base) == Some(Address("localhost:8000", v))
      && forall i: nat :: !Occurs("/livereload", v, i)
  {
    OccursContains("/livereload", v);
  }

  predicate Occurs(sub: string, s: string, i: nat) { i + |sub| <= |s| && s[i..i + |sub|] == sub }

  lemma OccursContains(sub: string, s: string)
    ensures Contains(s, sub) <==> exists i: nat :: Occurs(sub, s, i)
  {
    forall i: nat | i <= |s| ensures sub <= s[i..] <==> Occurs(sub, s, i) {
      if |sub| <= |s[i..]| { assert s[i..][..|sub|] == s[i..i + |sub|]; }
    }
    if i: nat :| Occurs(sub, s, i) { assert sub <= s[i..]; }
  }

  /** A page is good if its status is from 200 to 399 and every link not passed over resolves. */
  lemma GoodAre(site: Site, u: Url)
    ensures site.Good(u) <==>
      && 200 <= site.source(u).status <= 399
      && forall href <- site.source(u).links :: Ignored(href) || site.resolve(href, u) != None
  {
  }

  /** Visiting more leaves less to visit. */
  lemma Remaining(universe: set<Url>, before: set<Url>, after: set<Url>)
    requires before <= after <= universe
    ensures before != after ==> |universe - after| < |universe - before|
  {
    if before != after {
      assert universe - after < universe - before;
      var rest := universe - after;
      assert universe - before == rest + (universe - before - rest);
    }
  }

  /** When no worker is running, exactly the reachable pages are recorded. */
  lemma AllRecorded(c: Crawler)
    requires c.Valid() && c.Live() && forall w <- c.workers :: w.Free?
    ensures forall u :: u in UrlsOf(c.pages) <==> c.site.Reachable(u)
    ensures forall u | c.site.Reachable(u) :: c.site.Good(u)
  {
    var urls := UrlsOf(c.pages);
    assert forall u :: u in urls ==> exists p <- c.pages :: p.url == u;
    assert forall p <- c.pages :: p.url in urls;
    forall u | c.site.Reachable(u) ensures u in urls && c.site.Good(u) {
      forall a, b | a in c.visited && c.site.Links(a, b) ensures b in c.visited {
        assert a in urls;
      }
      c.site.ClosedHoldsReachable(c.visited, u);
    }
  }

  lemma StillIn(ws: seq<Worker>, i: nat, w: Worker)
    requires i < |ws|
    ensures forall x <- ws :: x != ws[i] ==> x in ws[i := w]
    ensures forall x <- ws[i := w] :: x == w || x in ws
  {
    forall x | x in ws && x != ws[i] ensures x in ws[i := w] {
      var k :| 0 <= k < |ws| && ws[k] == x;
      assert ws[i := w][k] == x;
    }
  }

  lemma FinishedPages(pages: seq<Page>, p: Page)
    ensures UrlsOf(pages + [p]) == UrlsOf(pages) + [p.url]
  {
  }
}
