/**
 Exchange rates and dollar prices behind one cache of thirty seconds.

 A request looks into the cache, and on a miss waits for the price server before it stores and returns the
 answer. Other requests may run while it waits. Times are milliseconds; prices are exact reals, and zero
 where the server's answer has none.
 */
module PriceService {

  const CACHE_DURATION: int := 30000

  datatype Request = UsdPrice(token: string) | ExchangeRate(fromToken: string, toToken: string)

  datatype Response = Failed | Prices(first: real, second: real)

  datatype PriceCache = PriceCache(rate: real, timestamp: int)

  type Cache = map<string, PriceCache>

  /** What a request does at once: return a value, or ask the server. */
  datatype Begun = Answer(value: real) | Fetch

  /** What the server's answer leads to. */
  datatype Finished = Finished(value: real, stored: bool)

  /** The key under which a request looks and stores; `upper` is the language's upper-casing of a string. */
  function Key(upper: string -> string, r: Request): string {
    match r
    case UsdPrice(token) => upper(token) + "/USD"
    case ExchangeRate(from, to) => upper(from) + "/" + upper(to)
  }

  function Fallback(pair: string): real {
    if pair == "ETH/APT" then 500.0 else if pair == "APT/ETH" then 0.002 else 1.0
  }

  predicate Fresh(cache: Cache, key: string, now: int) {
    key in cache && now - cache[key].timestamp < CACHE_DURATION
  }

  /** Unknown tokens have no price, and only the two cross-chain pairs are ever fetched. */
  function Begin(upper: string -> string, cache: Cache, r: Request, now: int): Begun {
    var key := Key(upper, r);
    match r
    case UsdPrice(token) =>
      if upper(token) != "ETH" && upper(token) != "APT" then Answer(0.0)
      else if Fresh(cache, key, now) then Answer(cache[key].rate) else Fetch
    case ExchangeRate(from, to) =>
      if Fresh(cache, key, now) then Answer(cache[key].rate)
      else if (from == "ETH" && to == "APT") || (from == "APT" && to == "ETH") then Fetch
      else Answer(Fallback(key))
  }

  /** A failed fetch is answered without being stored; a missing price counts as failure for a pair only. */
  function Finish(upper: string -> string, r: Request, response: Response): Finished {
    match r
    case UsdPrice(_) => if response.Failed? then Finished(0.0, false) else Finished(response.first, true)
    case ExchangeRate(_, _) =>
      if response.Failed? || response.first == 0.0 || response.second == 0.0 then Finished(Fallback(Key(upper, r)), false)
      else Finished(response.first / response.second, true)
  }

  // ---------- Runs of overlapping requests ----------

  /** A request waiting for the server, with the time and the number of stores so far when it began. */
  datatype Waiting = Waiting(request: Request, began: int, seen: nat)

  /** A successful fetch, as stored. */
  datatype Store = Store(key: string, rate: real, at: int, seen: nat)

  /** A value returned from the cache. */
  datatype Served = Served(key: string, rate: real, at: int)

  datatype State = State(
    now: int,
    cache: Cache,
    waiting: map<nat, Waiting>,
    next: nat,
    stores: seq<Store>,
    served: seq<Served>)

  datatype Event = Tick(elapsed: nat) | Request(request: Request) | Respond(ticket: nat, response: Response)

  function Step(upper: string -> string, s: State, e: Event): State {
    match e
    case Tick(elapsed) => s.(now := s.now + elapsed)
    case Request(r) =>
      if Begin(upper, s.cache, r, s.now).Fetch?
      then s.(waiting := s.waiting[s.next := Waiting(r, s.now, |s.stores|)], next := s.next + 1)
      else if Fresh(s.cache, Key(upper, r), s.now) && !Unpriced(upper, r)
      then s.(served := s.served + [Served(Key(upper, r), Begin(upper, s.cache, r, s.now).value, s.now)])
      else s
    case Respond(ticket, response) =>
      if ticket !in s.waiting then s
      else
        var w := s.waiting[ticket];
        var f := Finish(upper, w.request, response);
        var s' := s.(waiting := s.waiting - {ticket});
        if !f.stored then s'
        else s'.(cache := s.cache[Key(upper, w.request) := PriceCache(f.value, s.now)],
                 stores := s.stores + [Store(Key(upper, w.request), f.value, s.now, w.seen)])
  }

  /** A dollar price that is answered with zero whatever the cache holds. */
  predicate Unpriced(upper: string -> string, r: Request) {
    r.UsdPrice? && upper(r.token) != "ETH" && upper(r.token) != "APT"
  }

  function Run(upper: string -> string, start: int, events: seq<Event>): State {
    if events == [] then State(start, map[], map[], 0, [], [])
    else Step(upper, Run(upper, start, events[..|events| - 1]), events[|events| - 1])
  }

  // ---------- What every run keeps ----------

  /** What the cache must hold under a key: the last value stored there. */
  predicate IsLatest(stores: seq<Store>, i: int, key: string) {
    0 <= i < |stores| && stores[i].key == key && forall j :: i < j < |stores| ==> stores[j].key != key
  }

  ghost predicate CacheIsLatest(s: State) {
    && (forall key :: key in s.cache ==>
          exists i :: IsLatest(s.stores, i, key) && s.cache[key] == PriceCache(s.stores[i].rate, s.stores[i].at))
    && (forall i :: 0 <= i < |s.stores| ==> s.stores[i].key in s.cache)
  }

  ghost predicate InOrder(s: State) {
    && (forall i, j :: 0 <= i < j < |s.stores| ==> s.stores[i].at <= s.stores[j].at)
    && (forall i :: 0 <= i < |s.stores| ==> s.stores[i].at <= s.now && s.stores[i].seen <= i)
    && (forall t :: t in s.waiting ==> s.waiting[t].began <= s.now && s.waiting[t].seen <= |s.stores|)
  }

  /** No store among the first `seen` under this key is less than thirty seconds before `at`. */
  ghost predicate Apart(stores: seq<Store>, seen: nat, key: string, at: int) {
    forall i :: 0 <= i < seen && i < |stores| && stores[i].key == key ==> at - stores[i].at >= 30000
  }

  ghost predicate Spaced(upper: string -> string, s: State) {
    && (forall t :: t in s.waiting ==>
          Apart(s.stores, s.waiting[t].seen, Key(upper, s.waiting[t].request), s.waiting[t].began))
    && (forall j :: 0 <= j < |s.stores| ==> Apart(s.stores, s.stores[j].seen, s.stores[j].key, s.stores[j].at))
  }

  /** The value was stored under that key less than thirty seconds earlier. */
  ghost predicate ServedFrom(stores: seq<Store>, v: Served) {
    exists i :: 0 <= i < |stores| && stores[i].key == v.key && stores[i].rate == v.rate
                && 0 <= v.at - stores[i].at < 30000
  }

  ghost predicate AllServedFresh(s: State) {
    forall k :: 0 <= k < |s.served| ==> ServedFrom(s.stores, s.served[k])
  }

  ghost predicate Invariant(upper: string -> string, s: State) {
    CacheIsLatest(s) && InOrder(s) && Spaced(upper, s) && AllServedFresh(s)
  }

  /** A fetch happens only on a miss, and a hit returns what the cache holds. */
  lemma {:induction false} BeginFacts(upper: string -> string, cache: Cache, r: Request, now: int)
    ensures var key, begun := Key(upper, r), Begin(upper, cache, r, now);
      && (begun.Fetch? ==> !Fresh(cache, key, now))
      && (Fresh(cache, key, now) && !Unpriced(upper, r) ==> begun == Answer(cache[key].rate))
  {
    hide Key, Fallback;
  }

  lemma {:induction false} WaitKeeps(upper: string -> string, s: State, r: Request)
    requires Invariant(upper, s) && !Fresh(s.cache, Key(upper, r), s.now)
    ensures Invariant(upper, s.(waiting := s.waiting[s.next := Waiting(r, s.now, |s.stores|)], next := s.next + 1))
  {
    hide Key, Fresh, IsLatest, ServedFrom;
    StaleMeansApart(s, Key(upper, r));
  }

  lemma {:induction false} ServeKeeps(upper: string -> string, s: State, key: string)
    requires Invariant(upper, s) && Fresh(s.cache, key, s.now)
    ensures Invariant(upper, s.(served := s.served + [Served(key, s.cache[key].rate, s.now)]))
  {
    hide Key, Apart;
    var i :| IsLatest(s.stores, i, key) && s.cache[key] == PriceCache(s.stores[i].rate, s.stores[i].at);
    assert ServedFrom(s.stores, Served(key, s.cache[key].rate, s.now));
    hide IsLatest, ServedFrom;
  }

  lemma {:induction false} BeginKeeps(upper: string -> string, s: State, r: Request)
    requires Invariant(upper, s)
    ensures Invariant(upper, Step(upper, s, Event.Request(r)))
  {
    hide Key, Begin, Fresh, Invariant;
    BeginFacts(upper, s.cache, r, s.now);
    if Begin(upper, s.cache, r, s.now).Fetch? {
      WaitKeeps(upper, s, r);
    } else if Fresh(s.cache, Key(upper, r), s.now) && !Unpriced(upper, r) {
      ServeKeeps(upper, s, Key(upper, r));
    }
  }

  lemma {:induction false} StaleMeansApart(s: State, key: string)
    requires CacheIsLatest(s) && InOrder(s) && !Fresh(s.cache, key, s.now)
    ensures Apart(s.stores, |s.stores|, key, s.now)
  {
    if key in s.cache {
      var i :| IsLatest(s.stores, i, key) && s.cache[key] == PriceCache(s.stores[i].rate, s.stores[i].at);
    }
  }

  /** The state after a successful answer to request `w`. */
  function Stored(s: State, ticket: nat, store: Store): State {
    s.(waiting := s.waiting - {ticket}, cache := s.cache[store.key := PriceCache(store.rate, store.at)],
       stores := s.stores + [store])
  }

  lemma {:induction false} StoreKeepsCache(s: State, ticket: nat, store: Store)
    requires CacheIsLatest(s)
    ensures CacheIsLatest(Stored(s, ticket, store))
  {
    var after := Stored(s, ticket, store);
    forall key | key in after.cache
      ensures exists i :: IsLatest(after.stores, i, key)
                          && after.cache[key] == PriceCache(after.stores[i].rate, after.stores[i].at)
    {
      if key == store.key {
        assert IsLatest(after.stores, |s.stores|, key);
      } else {
        var i :| IsLatest(s.stores, i, key) && s.cache[key] == PriceCache(s.stores[i].rate, s.stores[i].at);
        assert IsLatest(after.stores, i, key);
      }
    }
  }

  lemma {:induction false} StoreKeepsServed(s: State, ticket: nat, store: Store)
    requires AllServedFresh(s)
    ensures AllServedFresh(Stored(s, ticket, store))
  {
    var after := Stored(s, ticket, store);
    forall k | 0 <= k < |s.served|
      ensures ServedFrom(after.stores, s.served[k])
    {
      var v := s.served[k];
      var i :| 0 <= i < |s.stores| && s.stores[i].key == v.key && s.stores[i].rate == v.rate
               && 0 <= v.at - s.stores[i].at < 30000;
      assert after.stores[i] == s.stores[i];
    }
  }

  lemma {:induction false} StoreKeepsSpacing(upper: string -> string, s: State, ticket: nat, rate: real)
    requires InOrder(s) && Spaced(upper, s) && ticket in s.waiting
    ensures var w := s.waiting[ticket];
      var after := Stored(s, ticket, Store(Key(upper, w.request), rate, s.now, w.seen));
      InOrder(after) && Spaced(upper, after)
  {
    hide Key;
  }

  lemma {:induction false} StepKeeps(upper: string -> string, s: State, e: Event)
    requires Invariant(upper, s)
    ensures Invariant(upper, Step(upper, s, e))
  {
    match e
    case Tick(elapsed) =>
    case Request(r) => BeginKeeps(upper, s, r);
    case Respond(ticket, response) =>
      if ticket in s.waiting {
        var w := s.waiting[ticket];
        var f := Finish(upper, w.request, response);
        if f.stored {
          var store := Store(Key(upper, w.request), f.value, s.now, w.seen);
          StoreKeepsCache(s, ticket, store);
          StoreKeepsServed(s, ticket, store);
          StoreKeepsSpacing(upper, s, ticket, f.value);
          hide CacheIsLatest, AllServedFresh, InOrder, Spaced;
        }
      }
  }

  lemma {:induction false} RunKeeps(upper: string -> string, start: int, events: seq<Event>)
    ensures Invariant(upper, Run(upper, start, events))
    decreases |events|
  {
    if events != [] {
      hide Step;
      RunKeeps(upper, start, events[..|events| - 1]);
      StepKeeps(upper, Run(upper, start, events[..|events| - 1]), events[|events| - 1]);
    }
  }

  /** In every run a value returned from the cache was stored under that key less than thirty seconds before. */
  lemma {:induction false} ServedAlwaysFresh(upper: string -> string, start: int, events: seq<Event>, k: nat)
    requires k < |Run(upper, start, events).served|
    ensures ServedFrom(Run(upper, start, events).stores, Run(upper, start, events).served[k])
  {
    hide Run, ServedFrom;
    RunKeeps(upper, start, events);
  }

  /**
   In every run, of two fetches stored under one key less than thirty seconds apart, the later request began
   before the earlier one was stored. So requests that do not overlap are at least thirty seconds apart.
   */
  lemma {:induction false} CloseFetchesOverlap(upper: string -> string, start: int, events: seq<Event>, i: nat, j: nat)
    requires var stores := Run(upper, start, events).stores;
      i < j < |stores| && stores[i].key == stores[j].key && stores[j].at - stores[i].at < 30000
    ensures Run(upper, start, events).stores[j].seen <= i
  {
    hide Run;
    RunKeeps(upper, start, events);
    var stores := Run(upper, start, events).stores;
    assert Apart(stores, stores[j].seen, stores[j].key, stores[j].at);
  }

  /** Overlapping requests can be stored at any distance, even at the same moment. */
  lemma {:induction false} OverlapAllowsAnyGap(upper: string -> string, start: int, gap: nat)
    requires upper("ETH") == "ETH"
    ensures var r := UsdPrice("ETH");
      var events := [Event.Request(r), Event.Request(r), Respond(0, Prices(1.0, 0.0)), Tick(gap), Respond(1, Prices(2.0, 0.0))];
      var stores := Run(upper, start, events).stores;
      |stores| == 2 && stores[0].key == stores[1].key && stores[1].at - stores[0].at == gap
  {
    var r := UsdPrice("ETH");
    var a, c, d, e := Event.Request(r), Respond(0, Prices(1.0, 0.0)), Tick(gap), Respond(1, Prices(2.0, 0.0));
    var s := Run(upper, start, []);
    MissFetches(upper, s, r);
    var s1 := Step(upper, s, a);
    MissFetches(upper, s1, r);
    var s2 := Step(upper, s1, a);
    hide Key, Begin, Fresh, Unpriced;
    assert s2.waiting[0] == Waiting(r, start, 0) && s2.waiting[1] == Waiting(r, start, 0);
    var s3 := Step(upper, s2, c);
    assert s3.stores == [Store(Key(upper, r), 1.0, start, 0)] && s3.now == start;
    var s4 := Step(upper, s3, d);
    var s5 := Step(upper, s4, e);
    assert s5.stores == s3.stores + [Store(Key(upper, r), 2.0, start + gap, 0)];
    RunOfFive(upper, start, a, a, c, d, e);
  }

  lemma {:induction false} MissFetches(upper: string -> string, s: State, r: Request)
    requires r == UsdPrice("ETH") && upper("ETH") == "ETH" && s.cache == map[]
    ensures Step(upper, s, Event.Request(r))
         == s.(waiting := s.waiting[s.next := Waiting(r, s.now, |s.stores|)], next := s.next + 1)
  {
    hide Key;
  }

  lemma {:induction false} RunOfFive(upper: string -> string, start: int, a: Event, b: Event, c: Event, d: Event, e: Event)
    ensures Run(upper, start, [a, b, c, d, e])
         == Step(upper, Step(upper, Step(upper, Step(upper, Step(upper, Run(upper, start, []), a), b), c), d), e)
  {
    RunSnoc(upper, start, [], a);
    RunSnoc(upper, start, [a], b);
    RunSnoc(upper, start, [a, b], c);
    RunSnoc(upper, start, [a, b, c], d);
    RunSnoc(upper, start, [a, b, c, d], e);
    hide Run, Step;
    assert [] + [a] == [a] && [a] + [b] == [a, b] && [a, b] + [c] == [a, b, c] && [a, b, c] + [d] == [a, b, c, d];
    assert [a, b, c, d] + [e] == [a, b, c, d, e];
  }

  lemma {:induction false} RunSnoc(upper: string -> string, start: int, events: seq<Event>, e: Event)
    ensures Run(upper, start, events + [e]) == Step(upper, Run(upper, start, events), e)
  {
    hide Step;
    assert (events + [e])[..|events + [e]| - 1] == events;
  }

  // ---------- The service ----------

  predicate CrossChain(fromToken: string, toToken: string) {
    (fromToken == "ETH" && toToken == "APT") || (fromToken == "APT" && toToken == "ETH")
  }

  /** A rate to use when there is none: 500 APT for one ETH, 0.002 ETH for one APT, and one for one otherwise. */
  ghost predicate IsFallback(pair: string, value: real) {
    && (pair == "ETH/APT" ==> value == 500.0) && (pair == "APT/ETH" ==> value == 0.002)
    && (pair != "ETH/APT" && pair != "APT/ETH" ==> value == 1.0)
  }

  /** The server's answer has every price that the request needs. */
  predicate Priced(r: Request, response: Response) {
    response.Prices? && (r.ExchangeRate? ==> response.first != 0.0 && response.second != 0.0)
  }

  /** The price, or how many of the second token one of the first is worth; without prices zero, or the fallback. */
  ghost predicate AnsweredWith(upper: string -> string, r: Request, response: Response, value: real) {
    if Priced(r, response) then
      if r.UsdPrice? then value == response.first else value * response.second == response.first
    else
      if r.UsdPrice? then value == 0.0 else IsFallback(upper(r.fromToken) + "/" + upper(r.toToken), value)
  }

  lemma {:induction false} FinishMeans(upper: string -> string, r: Request, response: Response)
    ensures AnsweredWith(upper, r, response, Finish(upper, r, response).value)
    ensures Finish(upper, r, response).stored <==> Priced(r, response)
  {
    KeyText(upper, r);
    if r.ExchangeRate? && Priced(r, response) {
      assert response.first / response.second * response.second == response.first;
    }
    hide Key;
  }

  /** The cache is fresh under a key exactly when a value was stored there less than thirty seconds ago. */
  lemma {:induction false} FreshIff(upper: string -> string, s: State, key: string)
    requires Invariant(upper, s)
    ensures Fresh(s.cache, key, s.now) <==> !Apart(s.stores, |s.stores|, key, s.now)
  {
    hide Spaced, AllServedFresh, Key;
    if Fresh(s.cache, key, s.now) {
      var i :| IsLatest(s.stores, i, key) && s.cache[key] == PriceCache(s.stores[i].rate, s.stores[i].at);
      assert s.stores[i].key == key && s.now - s.stores[i].at < 30000;
    } else {
      StaleMeansApart(s, key);
    }
  }

  lemma {:induction false} RunTwo(upper: string -> string, start: int, events: seq<Event>, elapsed: nat, e: Event)
    ensures var s := Run(upper, start, events);
      Run(upper, start, events + [Tick(elapsed), e]) == Step(upper, s.(now := s.now + elapsed), e)
  {
    hide Run, Step;
    RunSnoc(upper, start, events, Tick(elapsed));
    RunSnoc(upper, start, events + [Tick(elapsed)], e);
    assert events + [Tick(elapsed)] + [e] == events + [Tick(elapsed), e];
    TickStep(upper, Run(upper, start, events), elapsed);
  }

  lemma {:induction false} TickStep(upper: string -> string, s: State, elapsed: nat)
    ensures Step(upper, s, Tick(elapsed)) == s.(now := s.now + elapsed)
  {
    hide Begin, Finish, Key, Fresh;
  }

  /** What beginning a request at a later time does to a run. */
  lemma {:induction false} BeginAt(upper: string -> string, start: int, events: seq<Event>, elapsed: nat, r: Request)
    ensures var s := Run(upper, start, events);
      var after := Run(upper, start, events + [Tick(elapsed), Event.Request(r)]);
      && after.now == s.now + elapsed && after.cache == s.cache && after.stores == s.stores
      && (Begin(upper, s.cache, r, after.now).Fetch? ==>
            s.next in after.waiting && after.waiting[s.next] == Waiting(r, after.now, |s.stores|))
  {
    RunTwo(upper, start, events, elapsed, Event.Request(r));
    hide Run, Key, Fresh, Begin, Unpriced;
  }

  /** What the cache holds under a key at a later time. */
  lemma {:induction false} CachedAt(upper: string -> string, start: int, events: seq<Event>, elapsed: nat, key: string)
    ensures var s := Run(upper, start, events);
      var now := s.now + elapsed;
      && (Fresh(s.cache, key, now) <==> !Apart(s.stores, |s.stores|, key, now))
      && (Fresh(s.cache, key, now) ==> ServedFrom(s.stores, Served(key, s.cache[key].rate, now)))
  {
    var s := Run(upper, start, events);
    var later := s.(now := s.now + elapsed);
    hide *;
    RunKeeps(upper, start, events);
    StepKeeps(upper, s, Tick(elapsed));
    TickStep(upper, s, elapsed);
    FreshIff(upper, later, key);
    if Fresh(later.cache, key, later.now) {
      HitIsServed(upper, later, key);
    }
  }

  /**
   The answer to a request: prices are returned and stored, and all values stored under their key before the request began
   are at least thirty seconds older; without prices nothing is stored.
   */
  ghost predicate Completes(upper: string -> string, before: State, after: State, ticket: nat, response: Response,
                            value: real, now: int)
    requires ticket in before.waiting
  {
    var r, seen := before.waiting[ticket].request, before.waiting[ticket].seen;
    && AnsweredWith(upper, r, response, value)
    && (!Priced(r, response) ==> after.stores == before.stores && after.cache == before.cache)
    && (Priced(r, response) ==>
          var key := if r.UsdPrice? then upper(r.token) + "/USD" else upper(r.fromToken) + "/" + upper(r.toToken);
          && after.cache == before.cache[key := PriceCache(value, now)]
          && after.stores == before.stores + [Store(key, value, now, seen)] && Apart(after.stores, seen, key, now))
  }

  /** What an answer at a later time does to a run. */
  lemma {:induction false} CompleteAt(upper: string -> string, start: int, events: seq<Event>, elapsed: nat,
                                      ticket: nat, response: Response)
    requires ticket in Run(upper, start, events).waiting
    ensures var s := Run(upper, start, events);
      var after := Run(upper, start, events + [Tick(elapsed), Respond(ticket, response)]);
      var r, now := s.waiting[ticket].request, s.now + elapsed;
      var f := Finish(upper, r, response);
      && after.cache == (if f.stored then s.cache[Key(upper, r) := PriceCache(f.value, now)] else s.cache)
      && Completes(upper, s, after, ticket, response, f.value, now)
  {
    var s := Run(upper, start, events);
    FinishMeans(upper, s.waiting[ticket].request, response);
    KeyText(upper, s.waiting[ticket].request);
    RunTwo(upper, start, events, elapsed, Respond(ticket, response));
    RunKeeps(upper, start, events + [Tick(elapsed), Respond(ticket, response)]);
    hide Run, Key, Finish, AnsweredWith, Priced;
    var after := Run(upper, start, events + [Tick(elapsed), Respond(ticket, response)]);
    if Finish(upper, s.waiting[ticket].request, response).stored {
      var j := |s.stores|;
      assert Apart(after.stores, after.stores[j].seen, after.stores[j].key, after.stores[j].at);
    }
  }

  lemma {:induction false} KeyText(upper: string -> string, r: Request)
    ensures Key(upper, r) == if r.UsdPrice? then upper(r.token) + "/USD" else upper(r.fromToken) + "/" + upper(r.toToken)
  {
  }

  lemma {:induction false} HitIsServed(upper: string -> string, s: State, key: string)
    requires Invariant(upper, s) && Fresh(s.cache, key, s.now)
    ensures ServedFrom(s.stores, Served(key, s.cache[key].rate, s.now))
  {
    hide Spaced, AllServedFresh;
    var i :| IsLatest(s.stores, i, key) && s.cache[key] == PriceCache(s.stores[i].rate, s.stores[i].at);
  }

  /**
   The service with its cache. Its events are the requests and answers it has seen, with the time between them; the
   clock does not run backwards.
   */
  class Service {
    const upper: string -> string
    ghost const start: int
    ghost var events: seq<Event>
    var cache: Cache

    /** All that has happened so far. */
    ghost function Log(): State
      reads this
    {
      Run(upper, start, events)
    }

    ghost predicate Valid()
      reads this
    {
      cache == Log().cache
    }

    /** No value was stored under this key in the thirty seconds before. */
    ghost predicate NothingRecent(key: string, now: int)
      reads this
    {
      Apart(Log().stores, |Log().stores|, key, now)
    }

    constructor (upper: string -> string, ghost start: int)
      ensures this.upper == upper && this.start == start && Valid() && events == []
    {
      this.upper, this.start, this.events, this.cache := upper, start, [], map[];
    }

    /**
     Fetches exactly when the token is known and nothing was stored for it in the last thirty seconds. Otherwise a known
     token gets a value stored for it within that time, and an unknown one zero.
     */
    method BeginUSDPrice(token: string, now: int) returns (begun: Begun)
      requires Valid() && now >= Log().now
      modifies this`events
      ensures Valid() && Log().now == now && Log().stores == old(Log().stores)
      ensures events == old(events) + [Tick(now - old(Log().now)), Event.Request(UsdPrice(token))]
      ensures begun.Fetch? <==> !Unpriced(upper, UsdPrice(token)) && NothingRecent(upper(token) + "/USD", now)
      ensures begun.Fetch? ==>
        old(Log().next) in Log().waiting && Log().waiting[old(Log().next)].request == UsdPrice(token)
      ensures begun.Answer? ==>
        if Unpriced(upper, UsdPrice(token)) then begun.value == 0.0
        else ServedFrom(Log().stores, Served(upper(token) + "/USD", begun.value, now))
    {
      ghost var r := UsdPrice(token);
      BeginAt(upper, start, events, now - Log().now, r);
      CachedAt(upper, start, events, now - Log().now, Key(upper, r));
      events := events + [Tick(now - Log().now), Event.Request(r)];
      hide Run, Apart, ServedFrom;
      if upper(token) != "ETH" && upper(token) != "APT" { return Answer(0.0); }
      var cacheKey := upper(token) + "/USD";
      if cacheKey in cache && now - cache[cacheKey].timestamp < CACHE_DURATION { return Answer(cache[cacheKey].rate); }
      return Fetch;
    }

    /**
     Fetches exactly one of the two cross-chain pairs, when nothing was stored for it in the last thirty seconds. Otherwise
     the value was stored for the pair within that time, or it is the fallback of a pair that is never fetched.
     */
    method BeginExchangeRate(fromToken: string, toToken: string, now: int) returns (begun: Begun)
      requires Valid() && now >= Log().now
      modifies this`events
      ensures Valid() && Log().now == now && Log().stores == old(Log().stores)
      ensures events == old(events) + [Tick(now - old(Log().now)), Event.Request(ExchangeRate(fromToken, toToken))]
      ensures begun.Fetch? ==>
        old(Log().next) in Log().waiting && Log().waiting[old(Log().next)].request == ExchangeRate(fromToken, toToken)
      ensures var pair := upper(fromToken) + "/" + upper(toToken);
        && (begun.Fetch? <==> CrossChain(fromToken, toToken) && NothingRecent(pair, now))
        && (begun.Answer? ==>
              if NothingRecent(pair, now) then IsFallback(pair, begun.value)
              else ServedFrom(Log().stores, Served(pair, begun.value, now)))
    {
      ghost var r := ExchangeRate(fromToken, toToken);
      BeginAt(upper, start, events, now - Log().now, r);
      CachedAt(upper, start, events, now - Log().now, Key(upper, r));
      events := events + [Tick(now - Log().now), Event.Request(r)];
      hide Run, Apart, ServedFrom;
      var pair := upper(fromToken) + "/" + upper(toToken);
      if pair in cache && now - cache[pair].timestamp < CACHE_DURATION { return Answer(cache[pair].rate); }
      if (fromToken == "ETH" && toToken == "APT") || (fromToken == "APT" && toToken == "ETH") { return Fetch; }
      return Answer(Fallback(pair));
    }

    /** The part of either request after the wait. */
    method Complete(r: Request, response: Response, now: int, ghost ticket: nat) returns (value: real)
      requires Valid() && now >= Log().now && ticket in Log().waiting && Log().waiting[ticket].request == r
      modifies this`cache, this`events
      ensures Valid() && events == old(events) + [Tick(now - old(Log().now)), Respond(ticket, response)]
      ensures Completes(upper, old(Log()), Log(), ticket, response, value, now)
    {
      ghost var elapsed := now - Log().now;
      CompleteAt(upper, start, events, elapsed, ticket, response);
      events := events + [Tick(elapsed), Respond(ticket, response)];
      hide Run, Key, Finish, Completes;
      var stored;
      value, stored := Evaluate(r, response);
      if stored {
        var key := Key(upper, r);
        cache := cache[key := PriceCache(value, now)];
      }
    }

    /** What the answer is worth, and whether it is kept. */
    method Evaluate(r: Request, response: Response) returns (value: real, stored: bool)
      ensures Finished(value, stored) == Finish(upper, r, response)
    {
      if response.Failed? { return if r.UsdPrice? then 0.0 else Fallback(Key(upper, r)), false; }
      if r.ExchangeRate? && (response.first == 0.0 || response.second == 0.0) { return Fallback(Key(upper, r)), false; }
      return if r.UsdPrice? then response.first else response.first / response.second, true;
    }
  }
}
