/** Outlook discovery: bounded paging over a server that may throttle, stall or never end. */
module Outlook {
  import opened Prelude
  import opened SyncEngine
  import Text

  const MAX_PAGES := 200
  const MAX_RETRIES := 3
  const MAX_DELAY := 30

  datatype DeltaItem = DeltaItem(id: string, removed: bool)

  datatype DeltaPage = DeltaPage(items: seq<DeltaItem>, nextLink: Option<string>, deltaLink: Option<string>)

  /** The answer to one request; `Failed` covers transport errors, other statuses and bad payloads. */
  datatype HttpReply = Throttled(retryAfter: Option<nat>) | Gone | Delta(page: DeltaPage) | Failed(error: ProviderError)

  /** The answer to the `n`-th request of a run, when it asks for `url`. */
  type Server = (string, nat) -> HttpReply

  const TOO_MANY_PAGES := InvalidData("exceeded maximum page limit")
  const NO_CURSOR := InvalidData("completed without returning delta cursor")

  // ---------------------------------------------------------------- one request with retries

  datatype Sent = Sent(reply: HttpReply, requests: nat, slept: nat)

  function Pow2(n: nat): nat {
    if n == 0 then 1 else 2 * Pow2(n - 1)
  }

  function Delay(retryAfter: Option<nat>, attempts: nat): nat {
    Min(if retryAfter.Some? then retryAfter.value else Pow2(attempts), MAX_DELAY)
  }

  /** The `n`-th request of the run and its retries, `attempts` of them already used. */
  function Send(server: Server, url: string, n: nat, attempts: nat): Sent
    requires attempts <= MAX_RETRIES
    decreases MAX_RETRIES - attempts
  {
    var reply := server(url, n);
    if reply.Throttled? && attempts < MAX_RETRIES then
      var rest := Send(server, url, n + 1, attempts + 1);
      Sent(rest.reply, rest.requests + 1, rest.slept + Delay(reply.retryAfter, attempts + 1))
    else Sent(reply, 1, 0)
  }

  /** At most four attempts and ninety seconds of backoff. */
  lemma {:induction false} SendLimits(server: Server, url: string, n: nat, attempts: nat)
    requires attempts <= MAX_RETRIES
    ensures 1 <= Send(server, url, n, attempts).requests <= MAX_RETRIES - attempts + 1
    ensures Send(server, url, n, attempts).slept <= 30 * (MAX_RETRIES - attempts)
    decreases MAX_RETRIES - attempts
  {
    if server(url, n).Throttled? && attempts < MAX_RETRIES {
      SendLimits(server, url, n + 1, attempts + 1);
    }
  }

  /** The answer is that of the last attempt; a throttled one is final only after all four. */
  lemma {:induction false} SendAnswers(server: Server, url: string, n: nat, attempts: nat)
    requires attempts <= MAX_RETRIES
    ensures var s := Send(server, url, n, attempts);
            && s.requests > 0
            && s.reply == server(url, n + s.requests - 1)
            && (s.reply.Throttled? ==> s.requests == MAX_RETRIES - attempts + 1)
            && (forall i | n <= i < n + s.requests - 1 :: server(url, i).Throttled?)
    decreases MAX_RETRIES - attempts
  {
    if server(url, n).Throttled? && attempts < MAX_RETRIES {
      SendAnswers(server, url, n + 1, attempts + 1);
    }
  }

  /**
   * A server that only throttles: without `Retry-After` the pauses are 2, 4 and 8 seconds, with it
   * that many, up to 30.
   */
  lemma BackoffSchedule(server: Server, url: string, n: nat, retryAfter: Option<nat>)
    requires forall i | n <= i <= n + MAX_RETRIES :: server(url, i) == Throttled(retryAfter)
    ensures Send(server, url, n, 0)
         == Sent(Throttled(retryAfter), 4, if retryAfter.Some? then 3 * Min(retryAfter.value, 30) else 14)
  {
    assert Pow2(1) == 2 && Pow2(2) == 4 && Pow2(3) == 8;
    hide Send;
    SendStep(server, url, n, 0);
    SendStep(server, url, n + 1, 1);
    SendStep(server, url, n + 2, 2);
    SendStep(server, url, n + 3, 3);
  }

  lemma SendStep(server: Server, url: string, n: nat, attempts: nat)
    requires attempts <= MAX_RETRIES
    ensures var reply, s := server(url, n), Send(server, url, n, attempts);
            if reply.Throttled? && attempts < MAX_RETRIES then
              var rest, delay := Send(server, url, n + 1, attempts + 1), Delay(reply.retryAfter, attempts + 1);
              s == Sent(rest.reply, rest.requests + 1, rest.slept + delay) && delay <= 30
            else s == Sent(reply, 1, 0)
  {
  }

  method SendRequestWithRetry(server: Server, url: string, n: nat) returns (reply: HttpReply, requests: nat, slept: nat)
    ensures Sent(reply, requests, slept) == Send(server, url, n, 0)
    ensures requests <= MAX_RETRIES + 1 && slept <= 90
  {
    hide Send, Delay;
    var attempts := 0;
    requests, slept := 0, 0;
    while true
      invariant attempts == requests <= MAX_RETRIES
      invariant slept <= 30 * attempts
      invariant var rest := Send(server, url, n + requests, attempts);
                Send(server, url, n, 0) == Sent(rest.reply, requests + rest.requests, slept + rest.slept)
      decreases MAX_RETRIES - attempts
    {
      reply := server(url, n + requests);
      SendStep(server, url, n + requests, attempts);
      requests := requests + 1;
      if reply.Throttled? && attempts < MAX_RETRIES {
        attempts := attempts + 1;
        slept := slept + Delay(reply.retryAfter, attempts);
        continue;
      }
      return;
    }
  }

  // ---------------------------------------------------------------- following the links

  datatype End = Link(delta: string) | Stop(error: ProviderError)

  datatype Trip = Trip(pages: seq<DeltaPage>, end: End, requests: nat, slept: nat)

  /** What a walk from `url` of at most `left` more pages reads; `gone` is what a 410 status means to the caller. */
  function Follow(server: Server, url: string, n: nat, left: nat, gone: ProviderError): Trip
    decreases left
  {
    if left == 0 then Trip([], Stop(TOO_MANY_PAGES), 0, 0)
    else
      var s := Send(server, url, n, 0);
      match s.reply
      case Throttled(_) => Trip([], Stop(RateLimited), s.requests, s.slept)
      case Gone => Trip([], Stop(gone), s.requests, s.slept)
      case Failed(e) => Trip([], Stop(e), s.requests, s.slept)
      case Delta(p) =>
        if p.deltaLink.Some? then Trip([p], Link(p.deltaLink.value), s.requests, s.slept)
        else if p.nextLink.None? then Trip([p], Stop(NO_CURSOR), s.requests, s.slept)
        else
          var rest := Follow(server, p.nextLink.value, n + s.requests, left - 1, gone);
          Trip([p] + rest.pages, rest.end, s.requests + rest.requests, s.slept + rest.slept)
  }

  /** The page another request continues from, if the walk goes on. */
  predicate LeadsOn(reply: HttpReply) {
    reply.Delta? && reply.page.deltaLink.None? && reply.page.nextLink.Some?
  }

  lemma FollowStep(server: Server, url: string, n: nat, left: nat, gone: ProviderError)
    ensures var s, t := Send(server, url, n, 0), Follow(server, url, n, left, gone);
            if left > 0 && LeadsOn(s.reply) then
              var p := s.reply.page;
              var rest := Follow(server, p.nextLink.value, n + s.requests, left - 1, gone);
              t == Trip([p] + rest.pages, rest.end, s.requests + rest.requests, s.slept + rest.slept)
            else
              t == if left == 0 then Trip([], Stop(TOO_MANY_PAGES), 0, 0) else LastTrip(s, gone)
  {
  }

  /** A walk that ends with this answer. */
  function LastTrip(s: Sent, gone: ProviderError): Trip {
    match s.reply
    case Throttled(_) => Trip([], Stop(RateLimited), s.requests, s.slept)
    case Gone => Trip([], Stop(gone), s.requests, s.slept)
    case Failed(e) => Trip([], Stop(e), s.requests, s.slept)
    case Delta(p) =>
      Trip([p], if p.deltaLink.Some? then Link(p.deltaLink.value) else Stop(NO_CURSOR), s.requests, s.slept)
  }

  /** Against any server a walk ends: four attempts and ninety seconds of backoff a page. */
  lemma {:induction false} WalkLimits(server: Server, url: string, n: nat, left: nat, gone: ProviderError)
    ensures var t := Follow(server, url, n, left, gone);
            |t.pages| <= left && t.requests <= 4 * left && t.slept <= 90 * left
    decreases left
  {
    FollowStep(server, url, n, left, gone);
    hide Follow, Send;
    var s := Send(server, url, n, 0);
    SendLimits(server, url, n, 0);
    if left > 0 && LeadsOn(s.reply) {
      WalkLimits(server, s.reply.page.nextLink.value, n + s.requests, left - 1, gone);
    }
  }

  /** The link that asks for page `i` of a walk. */
  function LinkTo(url: string, pages: seq<DeltaPage>, i: nat): Option<string>
    requires i <= |pages|
  {
    if i == 0 then Some(url) else pages[i - 1].nextLink
  }

  /** Some request of the run from number `n` on, when it asks for `link`, is answered by `reply`. */
  ghost predicate Answered(server: Server, link: Option<string>, n: nat, reply: HttpReply) {
    link.Some? && exists m: nat :: n <= m && server(link.value, m) == reply
  }

  /** The error a walk reports: what the last answer was, or that the pages ran out. */
  ghost predicate StopsFor(e: ProviderError, server: Server, url: string, pages: seq<DeltaPage>, n: nat, left: nat,
                           gone: ProviderError) {
    var link := LinkTo(url, pages, |pages|);
    || (|pages| == left && e == TOO_MANY_PAGES)
    || (pages != [] && link.None? && e == NO_CURSOR)
    || (Answered(server, link, n, Gone) && e == gone)
    || Answered(server, link, n, HttpReply.Failed(e))
    || (e == RateLimited && exists retryAfter :: Answered(server, link, n, Throttled(retryAfter)))
  }

  /**
   * The pages are the server's own, each at the link its predecessor names and the first at `url`; a walk that
   * stops has its reason in what the server answered at the next link, or in the absence of one.
   */
  ghost predicate Explained(t: Trip, server: Server, url: string, n: nat, left: nat, gone: ProviderError) {
    && (forall i | 0 <= i < |t.pages| :: Answered(server, LinkTo(url, t.pages, i), n, Delta(t.pages[i])))
    && (t.end.Stop? ==> StopsFor(t.end.error, server, url, t.pages, n, left, gone))
  }

  /** A walk reads what the server answers, and nothing else. */
  lemma {:induction false} WalkReadsTheServer(server: Server, url: string, n: nat, left: nat, gone: ProviderError)
    ensures Explained(Follow(server, url, n, left, gone), server, url, n, left, gone)
    decreases left
  {
    FollowStep(server, url, n, left, gone);
    FirstReply(server, url, n);
    hide Send, Follow, LastTrip, Explained, Answered;
    var s := Send(server, url, n, 0);
    if left == 0 {
      PagesRanOut(server, url, n, gone);
    } else if LeadsOn(s.reply) {
      WalkReadsTheServer(server, s.reply.page.nextLink.value, n + s.requests, left - 1, gone);
      OneMorePage(server, url, n, s, Follow(server, s.reply.page.nextLink.value, n + s.requests, left - 1, gone),
                  left, gone);
    } else {
      LastAnswer(server, url, n, s, left, gone);
    }
  }

  lemma FirstReply(server: Server, url: string, n: nat)
    ensures Answered(server, Some(url), n, Send(server, url, n, 0).reply)
  {
    SendAnswers(server, url, n, 0);
    hide Send;
  }

  lemma AnsweredEarlier(server: Server, link: Option<string>, n: nat, more: nat, reply: HttpReply)
    requires Answered(server, link, n + more, reply)
    ensures Answered(server, link, n, reply)
  {
  }

  lemma OneMorePage(server: Server, url: string, n: nat, s: Sent, rest: Trip, left: nat, gone: ProviderError)
    requires left > 0 && LeadsOn(s.reply) && Answered(server, Some(url), n, s.reply)
    requires Explained(rest, server, s.reply.page.nextLink.value, n + s.requests, left - 1, gone)
    ensures Explained(Trip([s.reply.page] + rest.pages, rest.end, s.requests + rest.requests, s.slept + rest.slept),
                      server, url, n, left, gone)
  {
    hide Answered, StopsFor;
    var next, pages := s.reply.page.nextLink.value, [s.reply.page] + rest.pages;
    forall i | 0 <= i < |pages| ensures Answered(server, LinkTo(url, pages, i), n, Delta(pages[i])) {
      if i > 0 {
        assert Answered(server, LinkTo(next, rest.pages, i - 1), n + s.requests, Delta(rest.pages[i - 1]));
        AnsweredEarlier(server, LinkTo(next, rest.pages, i - 1), n, s.requests, Delta(rest.pages[i - 1]));
      }
    }
    if rest.end.Stop? {
      StopsEarlier(rest.end.error, server, url, pages, next, rest.pages, n, s.requests, left, gone);
    }
  }

  lemma StopsEarlier(e: ProviderError, server: Server, url: string, pages: seq<DeltaPage>, next: string,
                     rest: seq<DeltaPage>, n: nat, more: nat, left: nat, gone: ProviderError)
    requires left > 0 && StopsFor(e, server, next, rest, n + more, left - 1, gone)
    requires |pages| == |rest| + 1 && LinkTo(url, pages, |pages|) == LinkTo(next, rest, |rest|)
    ensures StopsFor(e, server, url, pages, n, left, gone)
  {
    var link := LinkTo(next, rest, |rest|);
    hide Answered, LinkTo;
    forall reply | Answered(server, link, n + more, reply) ensures Answered(server, link, n, reply) {
      AnsweredEarlier(server, link, n, more, reply);
    }
  }

  lemma PagesRanOut(server: Server, url: string, n: nat, gone: ProviderError)
    ensures Explained(Trip([], Stop(TOO_MANY_PAGES), 0, 0), server, url, n, 0, gone)
  {
    hide Answered;
  }

  /** The answer that ends a walk. */
  lemma LastAnswer(server: Server, url: string, n: nat, s: Sent, left: nat, gone: ProviderError)
    requires left > 0 && Answered(server, Some(url), n, s.reply) && !LeadsOn(s.reply)
    ensures Explained(LastTrip(s, gone), server, url, n, left, gone)
  {
    hide Answered;
    if s.reply.Throttled? {
      assert Answered(server, Some(url), n, Throttled(s.reply.retryAfter));
    }
  }

  /**
   * A walk yields a cursor exactly when its last page carries a delta link; every page before
   * the last carried only a link to the next.
   */
  lemma {:induction false} WalkYieldsCursorIff(server: Server, url: string, n: nat, left: nat, gone: ProviderError)
    ensures var t := Follow(server, url, n, left, gone);
            && (forall i | 0 <= i < |t.pages| - 1 :: t.pages[i].deltaLink.None? && t.pages[i].nextLink.Some?)
            && (t.end.Link? <==> t.pages != [] && t.pages[|t.pages| - 1].deltaLink.Some?)
            && (t.end.Link? ==> t.pages[|t.pages| - 1].deltaLink == Some(t.end.delta))
    decreases left
  {
    FollowStep(server, url, n, left, gone);
    hide Send, Follow;
    var s := Send(server, url, n, 0);
    if left > 0 && LeadsOn(s.reply) {
      WalkYieldsCursorIff(server, s.reply.page.nextLink.value, n + s.requests, left - 1, gone);
    }
  }

  /** Neither limit reads as an expired cursor or a rejected token, so neither is tried again. */
  lemma LimitsAreDataErrors()
    ensures TOO_MANY_PAGES.InvalidData? && NO_CURSOR.InvalidData?
  {
  }

  /** Against a server that always names a next page, a walk reads two hundred pages and gives up. */
  lemma EndlessWalk(server: Server, url: string, n: nat, gone: ProviderError)
    requires forall link, m :: LeadsOn(server(link, m))
    ensures var t := Follow(server, url, n, MAX_PAGES, gone);
            |t.pages| == 200 && t.end == Stop(TOO_MANY_PAGES) && t.requests == 200 && t.slept == 0
  {
    hide Follow;
    EndlessWithin(server, url, n, MAX_PAGES, gone);
  }

  lemma {:induction false} EndlessWithin(server: Server, url: string, n: nat, left: nat, gone: ProviderError)
    requires forall link, m :: LeadsOn(server(link, m))
    ensures var t := Follow(server, url, n, left, gone);
            |t.pages| == left && t.end == Stop(TOO_MANY_PAGES) && t.requests == left && t.slept == 0
    decreases left
  {
    FollowStep(server, url, n, left, gone);
    SendStep(server, url, n, 0);
    hide Follow, Send;
    if left > 0 {
      assert LeadsOn(server(url, n));
      EndlessWithin(server, server(url, n).page.nextLink.value, n + 1, left - 1, gone);
    }
  }

  // ---------------------------------------------------------------- the lists of a walk

  function Ids(items: seq<DeltaItem>, removed: bool): seq<string> {
    if items == [] then []
    else
      var last := items[|items| - 1];
      Ids(items[..|items| - 1], removed) + if last.removed == removed then [last.id] else []
  }

  function AllItems(pages: seq<DeltaPage>): seq<DeltaItem> {
    if pages == [] then [] else AllItems(pages[..|pages| - 1]) + pages[|pages| - 1].items
  }

  function ItemIds(items: seq<DeltaItem>): seq<string> {
    seq(|items|, i requires 0 <= i < |items| => items[i].id)
  }

  lemma IdsPush(items: seq<DeltaItem>, x: DeltaItem, removed: bool)
    ensures Ids(items + [x], removed) == Ids(items, removed) + if x.removed == removed then [x.id] else []
  {
    assert (items + [x])[..|items|] == items;
  }

  lemma AllItemsPush(pages: seq<DeltaPage>, p: DeltaPage)
    ensures AllItems(pages + [p]) == AllItems(pages) + p.items
  {
    assert (pages + [p])[..|pages|] == pages;
  }

  /** Item number `item` of page number `page`. */
  datatype Place = Place(page: nat, item: nat)

  predicate IsPlace(pages: seq<DeltaPage>, at: Place) {
    at.page < |pages| && at.item < |pages[at.page].items|
  }

  function ItemAt(pages: seq<DeltaPage>, at: Place): DeltaItem
    requires IsPlace(pages, at)
  {
    pages[at.page].items[at.item]
  }

  predicate Wanted(pages: seq<DeltaPage>, at: Place, kinds: set<bool>) {
    IsPlace(pages, at) && ItemAt(pages, at).removed in kinds
  }

  predicate Earlier(x: Place, y: Place) {
    x.page < y.page || (x.page == y.page && x.item < y.item)
  }

  /** One entry for every item of one of the kinds (removed or not), in the order of the pages and their items. */
  ghost predicate Lists(ids: seq<string>, pages: seq<DeltaPage>, kinds: set<bool>) {
    exists at: seq<Place> :: ListsAt(ids, pages, kinds, at)
  }

  ghost predicate ListsAt(ids: seq<string>, pages: seq<DeltaPage>, kinds: set<bool>, at: seq<Place>) {
    && |at| == |ids|
    && (forall k | 0 <= k < |at| :: Wanted(pages, at[k], kinds) && ItemAt(pages, at[k]).id == ids[k])
    && (forall k, l | 0 <= k < l < |at| :: Earlier(at[k], at[l]))
    && (forall x | Wanted(pages, x, kinds) :: x in at)
  }

  lemma ListsNone(kinds: set<bool>)
    ensures Lists([], [], kinds)
  {
    assert ListsAt([], [], kinds, []);
  }

  /** One more item at the end of the last page is one more place, after all others. */
  lemma OneMorePlace(pages: seq<DeltaPage>, p: DeltaPage, x: DeltaItem, kinds: set<bool>, y: Place)
    ensures var before, after, here := pages + [p], pages + [p.(items := p.items + [x])], Place(|pages|, |p.items|);
            && (Wanted(after, y, kinds) <==> Wanted(before, y, kinds) || (y == here && x.removed in kinds))
            && (Wanted(before, y, kinds) ==> ItemAt(after, y) == ItemAt(before, y) && Earlier(y, here))
            && IsPlace(after, here) && ItemAt(after, here) == x
  {
  }

  lemma ListsPushAt(ids: seq<string>, pages: seq<DeltaPage>, p: DeltaPage, x: DeltaItem, kinds: set<bool>,
                    at: seq<Place>)
    requires ListsAt(ids, pages + [p], kinds, at)
    ensures var after := pages + [p.(items := p.items + [x])];
            if x.removed in kinds then ListsAt(ids + [x.id], after, kinds, at + [Place(|pages|, |p.items|)])
            else ListsAt(ids, after, kinds, at)
  {
    var before, after, here := pages + [p], pages + [p.(items := p.items + [x])], Place(|pages|, |p.items|);
    forall y: Place
      ensures Wanted(after, y, kinds) <==> Wanted(before, y, kinds) || (y == here && x.removed in kinds)
      ensures Wanted(before, y, kinds) ==> ItemAt(after, y) == ItemAt(before, y) && Earlier(y, here)
    {
      OneMorePlace(pages, p, x, kinds, y);
    }
    OneMorePlace(pages, p, x, kinds, here);
    hide Wanted, IsPlace, Earlier, ItemAt;
    assert forall k | 0 <= k < |at| :: Wanted(before, at[k], kinds);
  }

  lemma ListsPush(ids: seq<string>, pages: seq<DeltaPage>, p: DeltaPage, x: DeltaItem, kinds: set<bool>)
    requires Lists(ids, pages + [p], kinds)
    ensures Lists(if x.removed in kinds then ids + [x.id] else ids, pages + [p.(items := p.items + [x])], kinds)
  {
    var at :| ListsAt(ids, pages + [p], kinds, at);
    ListsPushAt(ids, pages, p, x, kinds, at);
    hide ListsAt;
  }

  lemma EmptyPagePlaces(pages: seq<DeltaPage>, p: DeltaPage, kinds: set<bool>, y: Place)
    requires p.items == []
    ensures Wanted(pages + [p], y, kinds) <==> Wanted(pages, y, kinds)
    ensures Wanted(pages, y, kinds) ==> ItemAt(pages + [p], y) == ItemAt(pages, y)
  {
  }

  lemma EmptyPageAt(ids: seq<string>, pages: seq<DeltaPage>, p: DeltaPage, kinds: set<bool>, at: seq<Place>)
    requires ListsAt(ids, pages, kinds, at) && p.items == []
    ensures ListsAt(ids, pages + [p], kinds, at)
  {
    forall y: Place
      ensures Wanted(pages + [p], y, kinds) <==> Wanted(pages, y, kinds)
      ensures Wanted(pages, y, kinds) ==> ItemAt(pages + [p], y) == ItemAt(pages, y)
    {
      EmptyPagePlaces(pages, p, kinds, y);
    }
    hide Wanted, IsPlace, Earlier, ItemAt;
    assert forall k | 0 <= k < |at| :: Wanted(pages, at[k], kinds);
  }

  lemma ListsEmptyPage(ids: seq<string>, pages: seq<DeltaPage>, p: DeltaPage, kinds: set<bool>)
    requires Lists(ids, pages, kinds) && p.items == []
    ensures Lists(ids, pages + [p], kinds)
  {
    var at :| ListsAt(ids, pages, kinds, at);
    EmptyPageAt(ids, pages, p, kinds, at);
    hide ListsAt;
  }

  lemma {:induction false} ListsPage(ids: seq<string>, pages: seq<DeltaPage>, p: DeltaPage, removed: bool)
    requires Lists(ids, pages, {removed})
    ensures Lists(ids + Ids(p.items, removed), pages + [p], {removed})
    decreases |p.items|
  {
    hide Lists;
    if p.items == [] {
      ListsEmptyPage(ids, pages, p, {removed});
      assert ids + Ids(p.items, removed) == ids;
    } else {
      var n := |p.items| - 1;
      var init, x := p.(items := p.items[..n]), p.items[n];
      ListsPage(ids, pages, init, removed);
      ListsPush(ids + Ids(init.items, removed), pages, init, x, {removed});
      assert init.items + [x] == p.items;
      assert init.(items := init.items + [x]) == p;
      if x.removed == removed {
        assert ids + Ids(p.items, removed) == ids + Ids(init.items, removed) + [x.id];
      } else {
        assert Ids(p.items, removed) == Ids(init.items, removed);
      }
    }
  }

  lemma {:induction false} ListsWholePage(ids: seq<string>, pages: seq<DeltaPage>, p: DeltaPage)
    requires Lists(ids, pages, {true, false})
    ensures Lists(ids + ItemIds(p.items), pages + [p], {true, false})
    decreases |p.items|
  {
    hide Lists;
    if p.items == [] {
      ListsEmptyPage(ids, pages, p, {true, false});
      assert ids + ItemIds(p.items) == ids;
    } else {
      var n := |p.items| - 1;
      var init, x := p.(items := p.items[..n]), p.items[n];
      ListsWholePage(ids, pages, init);
      ListsPush(ids + ItemIds(init.items), pages, init, x, {true, false});
      assert init.items + [x] == p.items;
      assert init.(items := init.items + [x]) == p;
      assert ids + ItemIds(p.items) == ids + ItemIds(init.items) + [x.id];
    }
  }

  lemma {:induction false} IdsConcat(xs: seq<DeltaItem>, ys: seq<DeltaItem>, removed: bool)
    ensures Ids(xs + ys, removed) == Ids(xs, removed) + Ids(ys, removed)
  {
    if ys == [] {
      assert xs + ys == xs;
    } else {
      assert (xs + ys)[..|xs + ys| - 1] == xs + ys[..|ys| - 1];
      IdsConcat(xs, ys[..|ys| - 1], removed);
    }
  }

  lemma {:induction false} GatheredKind(pages: seq<DeltaPage>, removed: bool)
    ensures Lists(Ids(AllItems(pages), removed), pages, {removed})
  {
    hide Lists;
    if pages == [] {
      ListsNone({removed});
      assert Ids([], removed) == [] && AllItems(pages) == [];
    } else {
      var init, p := pages[..|pages| - 1], pages[|pages| - 1];
      GatheredKind(init, removed);
      assert pages == init + [p] && AllItems(pages) == AllItems(init) + p.items;
      hide AllItems;
      IdsConcat(AllItems(init), p.items, removed);
      ListsPage(Ids(AllItems(init), removed), init, p, removed);
    }
  }

  lemma {:induction false} GatheredAll(pages: seq<DeltaPage>)
    ensures Lists(ItemIds(AllItems(pages)), pages, {true, false})
  {
    hide Lists;
    if pages == [] {
      ListsNone({true, false});
      assert ItemIds([]) == [] && AllItems(pages) == [];
    } else {
      var init, p := pages[..|pages| - 1], pages[|pages| - 1];
      GatheredAll(init);
      assert pages == init + [p] && AllItems(pages) == AllItems(init) + p.items;
      hide AllItems;
      assert ItemIds(AllItems(init) + p.items) == ItemIds(AllItems(init)) + ItemIds(p.items);
      ListsWholePage(ItemIds(AllItems(init)), init, p);
    }
  }

  /** What the loops gather is the list of the items of each kind, and of all items. */
  lemma GatheredLists(pages: seq<DeltaPage>)
    ensures Lists(Ids(AllItems(pages), true), pages, {true})
    ensures Lists(Ids(AllItems(pages), false), pages, {false})
    ensures Lists(ItemIds(AllItems(pages)), pages, {true, false})
  {
    hide *;
    GatheredKind(pages, true);
    GatheredKind(pages, false);
    GatheredAll(pages);
  }

  /** In particular an identifier is listed exactly when some page has such an item. */
  lemma ListedIff(ids: seq<string>, pages: seq<DeltaPage>, kinds: set<bool>, id: string)
    requires Lists(ids, pages, kinds)
    ensures id in ids <==> exists at :: Wanted(pages, at, kinds) && ItemAt(pages, at).id == id
  {
    var all :| ListsAt(ids, pages, kinds, all);
    hide Wanted, IsPlace, Earlier;
    if at :| Wanted(pages, at, kinds) && ItemAt(pages, at).id == id {
      var k :| 0 <= k < |all| && all[k] == at;
      assert ids[k] == id;
    }
    if id in ids {
      var k :| 0 <= k < |ids| && ids[k] == id;
      assert Wanted(pages, all[k], kinds);
    }
  }

  // ---------------------------------------------------------------- the walks

  /** Reading on from here completes the walk. */
  ghost predicate Continues(t: Trip, read: seq<DeltaPage>, requests: nat, slept: nat, rest: Trip) {
    t == Trip(read + rest.pages, rest.end, requests + rest.requests, slept + rest.slept)
  }

  /** How one page request leaves the walk: ended, with or without a last page, or going on. */
  datatype Progress = Ended(end: End, last: Option<DeltaPage>) | GoesOn(page: DeltaPage, link: string)

  function ProgressOf(reply: HttpReply, gone: ProviderError): Progress {
    match reply
    case Throttled(_) => Ended(Stop(RateLimited), None)
    case Gone => Ended(Stop(gone), None)
    case Failed(e) => Ended(Stop(e), None)
    case Delta(page) =>
      if page.deltaLink.Some? then Ended(Link(page.deltaLink.value), Some(page))
      else if page.nextLink.None? then Ended(Stop(NO_CURSOR), Some(page))
      else GoesOn(page, page.nextLink.value)
  }

  /** The walk `t` after the pages `read` and one more request: over, or still to go on with `rest`. */
  ghost predicate Follows(t: Trip, read: seq<DeltaPage>, out: Progress, requests: nat, slept: nat, rest: Trip) {
    match out
    case Ended(end, None) => end.Stop? && t == Trip(read, end, requests, slept)
    case Ended(end, Some(p)) => t == Trip(read + [p], end, requests, slept)
    case GoesOn(p, _) => Continues(t, read + [p], requests, slept, rest)
  }

  function NextUrl(out: Progress): string {
    if out.GoesOn? then out.link else ""
  }

  lemma FollowOn(server: Server, t: Trip, read: seq<DeltaPage>, url: string, requests: nat, slept: nat, left: nat,
                 gone: ProviderError, s: Sent)
    requires left > 0 && Continues(t, read, requests, slept, Follow(server, url, requests, left, gone))
    requires s == Send(server, url, requests, 0)
    ensures var out := ProgressOf(s.reply, gone);
            Follows(t, read, out, requests + s.requests, slept + s.slept,
                    Follow(server, NextUrl(out), requests + s.requests, left - 1, gone))
  {
    FollowJoined(server, url, requests, left, gone);
    hide *;
    RoundOn(t, read, requests, slept, s,
            Follow(server, NextUrl(ProgressOf(s.reply, gone)), requests + s.requests, left - 1, gone), gone);
  }

  /** A walk that goes on from this answer with `rest`, or ends with it. */
  function Joined(s: Sent, rest: Trip, gone: ProviderError): Trip {
    if LeadsOn(s.reply)
    then Trip([s.reply.page] + rest.pages, rest.end, s.requests + rest.requests, s.slept + rest.slept)
    else LastTrip(s, gone)
  }

  lemma FollowJoined(server: Server, url: string, n: nat, left: nat, gone: ProviderError)
    requires left > 0
    ensures var s := Send(server, url, n, 0);
            Follow(server, url, n, left, gone)
            == Joined(s, Follow(server, NextUrl(ProgressOf(s.reply, gone)), n + s.requests, left - 1, gone), gone)
  {
    FollowStep(server, url, n, left, gone);
    hide Follow, Send;
  }

  lemma RoundOn(t: Trip, read: seq<DeltaPage>, requests: nat, slept: nat, s: Sent, rest: Trip, gone: ProviderError)
    requires Continues(t, read, requests, slept, Joined(s, rest, gone))
    ensures Follows(t, read, ProgressOf(s.reply, gone), requests + s.requests, slept + s.slept, rest)
  {
    if LeadsOn(s.reply) {
      assert read + ([s.reply.page] + rest.pages) == read + [s.reply.page] + rest.pages;
    }
  }

  /** One round of the paging loop. */
  method ReadPage(server: Server, ghost t: Trip, ghost read: seq<DeltaPage>, url: string, requests: nat, slept: nat,
                  ghost left: nat, gone: ProviderError)
    returns (out: Progress, requests': nat, slept': nat)
    requires left > 0 && Continues(t, read, requests, slept, Follow(server, url, requests, left, gone))
    ensures Follows(t, read, out, requests', slept', Follow(server, NextUrl(out), requests', left - 1, gone))
  {
    hide *;
    var reply, more, pause := SendRequestWithRetry(server, url, requests);
    FollowOn(server, t, read, url, requests, slept, left, gone, Sent(reply, more, pause));
    requests', slept', out := requests + more, slept + pause, ProgressOf(reply, gone);
  }

  /** The cursor of a walk is the delta link of its last page; a walk that stops reports its error. */
  ghost predicate ReportsWalk(r: Result<SyncPage, ProviderError>, t: Trip) {
    match t.end
    case Stop(e) => r == Err(e)
    case Link(delta) => r.Ok? && r.value.nextCursor == delta && r.value.deletedIds == [] && r.value.restoredIds == []
  }

  /**
   * Changes since the stored delta link: the removed items of the walk's pages are trashed and all others are
   * new, each list with one entry per item in the order of the pages.
   */
  method IncrementalSync(server: Server, cursor: string)
    returns (r: Result<SyncPage, ProviderError>, requests: nat, slept: nat)
    ensures var t := Follow(server, cursor, 0, MAX_PAGES, CursorExpired);
            && requests == t.requests && slept == t.slept && ReportsWalk(r, t)
            && (r.Ok? ==> Lists(r.value.newIds, t.pages, {false}) && Lists(r.value.trashedIds, t.pages, {true}))
    ensures requests <= 4 * MAX_PAGES && slept <= 90 * MAX_PAGES
  {
    ghost var t := Follow(server, cursor, 0, MAX_PAGES, CursorExpired);
    WalkLimits(server, cursor, 0, MAX_PAGES, CursorExpired);
    GatheredLists(t.pages);
    ContinuesAtStart(t);
    hide Follow, Continues, Ids, AllItems, Lists;
    ghost var read: seq<DeltaPage> := [];
    var newIds, trashedIds, url := [], [], cursor;
    var pageCount := 0;
    requests, slept := 0, 0;
    while true
      invariant 0 <= pageCount <= MAX_PAGES
      invariant Continues(t, read, requests, slept, Follow(server, url, requests, MAX_PAGES - pageCount, CursorExpired))
      invariant newIds == Ids(AllItems(read), false) && trashedIds == Ids(AllItems(read), true)
      decreases MAX_PAGES - pageCount
    {
      pageCount := pageCount + 1;
      if pageCount > MAX_PAGES {
        NoPagesLeft(server, t, read, url, requests, slept, CursorExpired);
        return Err(TOO_MANY_PAGES), requests, slept;
      }
      var out;
      out, requests, slept := ReadPage(server, t, read, url, requests, slept, MAX_PAGES - pageCount + 1, CursorExpired);
      if out.Ended? && out.last.None? {
        return Err(out.end.error), requests, slept;
      }
      var page := if out.Ended? then out.last.value else out.page;
      newIds, trashedIds := SortItems(AllItems(read), page.items, newIds, trashedIds);
      AllItemsPush(read, page);
      read := read + [page];
      if out.Ended? {
        r := match out.end
             case Link(delta) => Ok(SyncPage(newIds, trashedIds, [], [], delta))
             case Stop(e) => Err(e);
        return;
      }
      url := out.link;
    }
  }

  lemma ContinuesAtStart(t: Trip)
    ensures Continues(t, [], 0, 0, t)
    ensures Ids(AllItems([]), false) == [] && Ids(AllItems([]), true) == [] && ItemIds(AllItems([])) == []
  {
    assert [] + t.pages == t.pages;
  }

  lemma NoPagesLeft(server: Server, t: Trip, read: seq<DeltaPage>, url: string, requests: nat, slept: nat,
                    gone: ProviderError)
    requires Continues(t, read, requests, slept, Follow(server, url, requests, 0, gone))
    ensures t == Trip(read, Stop(TOO_MANY_PAGES), requests, slept)
  {
    assert read + [] == read;
  }

  method SortItems(ghost before: seq<DeltaItem>, items: seq<DeltaItem>, newIds: seq<string>, trashedIds: seq<string>)
    returns (newIds': seq<string>, trashedIds': seq<string>)
    requires newIds == Ids(before, false) && trashedIds == Ids(before, true)
    ensures newIds' == Ids(before + items, false) && trashedIds' == Ids(before + items, true)
  {
    newIds', trashedIds' := newIds, trashedIds;
    assert before + items[..0] == before;
    for i := 0 to |items|
      invariant newIds' == Ids(before + items[..i], false) && trashedIds' == Ids(before + items[..i], true)
    {
      assert before + items[..i + 1] == before + items[..i] + [items[i]];
      IdsPush(before + items[..i], items[i], false);
      IdsPush(before + items[..i], items[i], true);
      if items[i].removed {
        trashedIds' := trashedIds' + [items[i].id];
      } else {
        newIds' := newIds' + [items[i].id];
      }
    }
    assert items[..|items|] == items;
  }

  /** The listing of the inbox that asks for pages of `maxResults` items. */
  function InitialUrl(maxResults: nat): string {
    "https://graph.microsoft.com/v1.0" + "/me/mailFolders/inbox/messages/delta?$top=" + Text.Decimal(maxResults)
  }

  /** The first `maxResults` identifiers over all items of the walk's pages, removed or not. */
  method InitialSync(server: Server, maxResults: nat, gone: ProviderError)
    returns (r: Result<SyncPage, ProviderError>, requests: nat, slept: nat)
    ensures var t := Follow(server, InitialUrl(maxResults), 0, MAX_PAGES, gone);
            && requests == t.requests && slept == t.slept && ReportsWalk(r, t)
            && (r.Ok? ==> r.value.trashedIds == [] && FirstOf(r.value.newIds, t.pages, maxResults))
    ensures requests <= 4 * MAX_PAGES && slept <= 90 * MAX_PAGES
  {
    var url := InitialUrl(maxResults);
    ghost var t := Follow(server, url, 0, MAX_PAGES, gone);
    WalkLimits(server, url, 0, MAX_PAGES, gone);
    GatheredLists(t.pages);
    ContinuesAtStart(t);
    hide Follow, Continues, AllItems, Lists;
    ghost var read: seq<DeltaPage> := [];
    var ids := [];
    var pageCount := 0;
    requests, slept := 0, 0;
    while true
      invariant 0 <= pageCount <= MAX_PAGES
      invariant Continues(t, read, requests, slept, Follow(server, url, requests, MAX_PAGES - pageCount, gone))
      invariant var all := ItemIds(AllItems(read)); ids == all[..Min(|all|, maxResults)]
      decreases MAX_PAGES - pageCount
    {
      pageCount := pageCount + 1;
      if pageCount > MAX_PAGES {
        NoPagesLeft(server, t, read, url, requests, slept, gone);
        return Err(TOO_MANY_PAGES), requests, slept;
      }
      var out;
      out, requests, slept := ReadPage(server, t, read, url, requests, slept, MAX_PAGES - pageCount + 1, gone);
      if out.Ended? && out.last.None? {
        return Err(out.end.error), requests, slept;
      }
      var page := if out.Ended? then out.last.value else out.page;
      ids := TakeItems(AllItems(read), page.items, ids, maxResults);
      AllItemsPush(read, page);
      read := read + [page];
      if out.Ended? {
        r := match out.end
             case Link(delta) => Ok(SyncPage(ids, [], [], [], delta))
             case Stop(e) => Err(e);
        return;
      }
      url := out.link;
    }
  }

  /** The first `k` entries, or all of them, of the list of all items. */
  ghost predicate FirstOf(ids: seq<string>, pages: seq<DeltaPage>, k: nat) {
    exists all :: Lists(all, pages, {true, false}) && ids == all[..Min(|all|, k)]
  }

  method TakeItems(ghost before: seq<DeltaItem>, items: seq<DeltaItem>, ids: seq<string>, maxResults: nat)
    returns (ids': seq<string>)
    requires var all := ItemIds(before); ids == all[..Min(|all|, maxResults)]
    ensures var all := ItemIds(before + items); ids' == all[..Min(|all|, maxResults)]
  {
    ids' := ids;
    assert before + items[..0] == before;
    for i := 0 to |items|
      invariant var all := ItemIds(before + items[..i]); ids' == all[..Min(|all|, maxResults)]
    {
      assert before + items[..i + 1] == before + items[..i] + [items[i]];
      assert ItemIds(before + items[..i + 1]) == ItemIds(before + items[..i]) + [items[i].id];
      if |ids'| < maxResults {
        ids' := ids' + [items[i].id];
      }
    }
    assert items[..|items|] == items;
  }
}
