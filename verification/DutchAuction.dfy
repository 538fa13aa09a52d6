/**
 The Dutch auction: a rate that falls by a fixed amount after every interval, down to a floor. The order
 engine prices fills with one formula and the swap page displays another. Rates and times are exact reals.
 */
module DutchAuction {

  datatype Auction = Auction(
    startTimestamp: real,
    duration: real,
    startRate: real,
    endRate: real,
    decrementInterval: real,
    decrementAmount: real)

  /** A falling auction: what the page builds and the engine prices. */
  predicate Falling(a: Auction) {
    a.decrementInterval > 0.0 && a.decrementAmount >= 0.0 && a.startRate >= a.endRate && a.duration >= 0.0
  }

  function Max(x: real, y: real): real {
    if x >= y then x else y
  }

  /** Whole intervals since the start; negative before it. */
  function Drops(a: Auction, now: real): int
    requires a.decrementInterval > 0.0
  {
    ((now - a.startTimestamp) / a.decrementInterval).Floor
  }

  /** What k drops take off the rate. */
  function Decrease(a: Auction, k: int): real {
    Times(k as real, a.decrementAmount)
  }

  /** The time that k intervals take. */
  function Span(a: Auction, k: int): real {
    Times(k as real, a.decrementInterval)
  }

  function SteppedRate(a: Auction, now: real): real
    requires a.decrementInterval > 0.0
  {
    Max(a.startRate - Decrease(a, Drops(a, now)), a.endRate)
  }

  /** The engine: the start rate before the auction, the end rate after it. */
  function CurrentRate(a: Auction, now: real): real
    requires a.decrementInterval > 0.0
  {
    if now < a.startTimestamp then a.startRate
    else if now >= a.startTimestamp + a.duration then a.endRate
    else SteppedRate(a, now)
  }

  predicate IsAcceptableOffer(a: Auction, offered: real, now: real)
    requires a.decrementInterval > 0.0
  {
    offered >= CurrentRate(a, now)
  }

  /** The page: the stepped rate at all times. */
  function DisplayedRate(a: Auction, now: real): real
    requires a.decrementInterval > 0.0
  {
    SteppedRate(a, now)
  }

  /** The page's countdown to the next drop, before it is rounded up to whole seconds. */
  function NextDropIn(a: Auction, now: real): real
    requires a.decrementInterval > 0.0
  {
    Max(0.0, a.startTimestamp + Span(a, Drops(a, now) + 1) - now)
  }

  // ---------- Arithmetic ----------

  /** A product, named so that proofs can treat it as a whole. */
  function Times(x: real, d: real): real {
    x * d
  }

  lemma {:induction false} TimesMonotone(x: real, y: real, d: real)
    requires d >= 0.0
    ensures x <= y ==> Times(x, d) <= Times(y, d)
    ensures x < y && d > 0.0 ==> Times(x, d) < Times(y, d)
  {
  }

  lemma {:induction false} TimesPlusOne(x: real, d: real)
    ensures Times(x + 1.0, d) == Times(x, d) + d
  {
  }

  lemma {:induction false} TimesQuotient(x: real, d: real)
    requires d > 0.0
    ensures Times(x / d, d) == x
  {
  }

  lemma {:induction false} FloorBounds(x: real, d: real)
    requires d > 0.0
    ensures Times((x / d).Floor as real, d) <= x < Times(((x / d).Floor + 1) as real, d)
  {
    hide Times;
    var q := x / d;
    TimesQuotient(x, d);
    TimesMonotone(q.Floor as real, q, d);
    TimesMonotone(q, (q.Floor + 1) as real, d);
  }

  lemma {:induction false} MoreDropsLower(a: Auction, k: int, m: int)
    requires a.decrementAmount >= 0.0 && k <= m
    ensures Decrease(a, k) <= Decrease(a, m) && Decrease(a, 0) == 0.0 && Decrease(a, -1) == -a.decrementAmount
  {
    TimesMonotone(k as real, m as real, a.decrementAmount);
  }

  lemma {:induction false} MoreDropsLonger(a: Auction, k: int, m: int)
    requires a.decrementInterval > 0.0 && k <= m
    ensures Span(a, k) <= Span(a, m) && Span(a, 0) == 0.0 && Span(a, k + 1) == Span(a, k) + a.decrementInterval
  {
    TimesMonotone(k as real, m as real, a.decrementInterval);
    TimesPlusOne(k as real, a.decrementInterval);
  }

  /** `now` lies in the interval that its number of drops starts. */
  lemma {:induction false} DropsBounds(a: Auction, now: real)
    requires a.decrementInterval > 0.0
    ensures Span(a, Drops(a, now)) <= now - a.startTimestamp < Span(a, Drops(a, now) + 1)
  {
    hide Times;
    FloorBounds(now - a.startTimestamp, a.decrementInterval);
  }

  lemma {:induction false} DropsMonotone(a: Auction, t: real, u: real)
    requires a.decrementInterval > 0.0 && t <= u
    ensures Drops(a, t) <= Drops(a, u)
  {
    hide Drops, Span;
    DropsBounds(a, t);
    DropsBounds(a, u);
    if Drops(a, u) < Drops(a, t) {
      MoreDropsLonger(a, Drops(a, u) + 1, Drops(a, t));
    }
  }

  lemma {:induction false} DropsNonNegative(a: Auction, now: real)
    requires a.decrementInterval > 0.0
    ensures now >= a.startTimestamp <==> Drops(a, now) >= 0
  {
    hide Drops, Span;
    DropsBounds(a, now);
    var k := Drops(a, now);
    if k < 0 {
      MoreDropsLonger(a, k + 1, 0);
    } else {
      MoreDropsLonger(a, 0, k);
    }
  }

  // ---------- The engine's rate ----------

  /** The engine's rate never rises and stays between the two rates. */
  lemma {:induction false} RateNeverRises(a: Auction, t: real, u: real)
    requires Falling(a) && t <= u
    ensures a.endRate <= CurrentRate(a, u) <= CurrentRate(a, t) <= a.startRate
  {
    hide Drops, Decrease;
    DropsMonotone(a, t, u);
    DropsNonNegative(a, t);
    DropsNonNegative(a, u);
    MoreDropsLower(a, Drops(a, t), Drops(a, u));
    if u >= a.startTimestamp {
      MoreDropsLower(a, 0, Drops(a, u));
    }
    if t >= a.startTimestamp {
      MoreDropsLower(a, 0, Drops(a, t));
    }
  }

  /** An offer that is good enough now stays good enough. */
  lemma {:induction false} AcceptableStaysAcceptable(a: Auction, offered: real, t: real, u: real)
    requires Falling(a) && t <= u && IsAcceptableOffer(a, offered, t)
    ensures IsAcceptableOffer(a, offered, u)
  {
    hide CurrentRate;
    RateNeverRises(a, t, u);
  }

  /** The displayed rate holds up to the announced next drop, and the countdown is within one interval. */
  lemma {:induction false} ConstantUntilNextDrop(a: Auction, now: real, later: real)
    requires a.decrementInterval > 0.0 && now <= later < now + NextDropIn(a, now)
    ensures DisplayedRate(a, later) == DisplayedRate(a, now)
    ensures 0.0 < NextDropIn(a, now) <= a.decrementInterval
  {
    hide Drops, Span, Decrease;
    DropsMonotone(a, now, later);
    DropsBounds(a, now);
    DropsBounds(a, later);
    MoreDropsLonger(a, Drops(a, now), Drops(a, now));
    if Drops(a, later) > Drops(a, now) {
      MoreDropsLonger(a, Drops(a, now) + 1, Drops(a, later));
    }
  }

  /** Within the auction, from the end of the k-th interval to the end of the next, exactly k drops have been made. */
  lemma {:induction false} RateAtStep(a: Auction, k: nat, now: real)
    requires a.decrementInterval > 0.0 && now < a.startTimestamp + a.duration
    requires a.startTimestamp + k as real * a.decrementInterval <= now
    requires now < a.startTimestamp + (k + 1) as real * a.decrementInterval
    ensures CurrentRate(a, now) == Max(a.startRate - k as real * a.decrementAmount, a.endRate)
  {
    DropsNonNegative(a, now);
    DropsBounds(a, now);
    assert Span(a, k) == k as real * a.decrementInterval && Span(a, k + 1) == (k + 1) as real * a.decrementInterval;
    assert Decrease(a, k) == k as real * a.decrementAmount;
    MoreDropsLonger(a, 0, k);
    hide Drops, Span, Decrease;
    if Drops(a, now) < k {
      MoreDropsLonger(a, Drops(a, now) + 1, k);
    } else if Drops(a, now) > k {
      MoreDropsLonger(a, k + 1, Drops(a, now));
    }
  }

  /** The number of drops after which the rate is no longer above the offer. */
  function DropsTo(a: Auction, offered: real): int
    requires a.decrementAmount > 0.0
  {
    -((offered - a.startRate) / a.decrementAmount).Floor
  }

  lemma {:induction false} DropsToExact(a: Auction, offered: real)
    requires a.decrementAmount > 0.0 && offered < a.startRate
    ensures var k := DropsTo(a, offered);
      k > 0 && a.startRate - Decrease(a, k) <= offered < a.startRate - Decrease(a, k - 1)
  {
    var f := ((offered - a.startRate) / a.decrementAmount).Floor;
    FloorBounds(offered - a.startRate, a.decrementAmount);
    assert Decrease(a, -f) == -Times(f as real, a.decrementAmount);
    assert Decrease(a, -f - 1) == -Times((f + 1) as real, a.decrementAmount);
    if f >= 0 {
      TimesMonotone(0.0, f as real, a.decrementAmount);
    }
  }

  lemma {:induction false} AcceptableInsideIff(a: Auction, offered: real, now: real)
    requires Falling(a) && a.decrementAmount > 0.0 && a.endRate <= offered < a.startRate
    requires a.startTimestamp <= now < a.startTimestamp + a.duration
    ensures IsAcceptableOffer(a, offered, now) <==> now >= a.startTimestamp + Span(a, DropsTo(a, offered))
  {
    var k, n := DropsTo(a, offered), Drops(a, now);
    DropsToExact(a, offered);
    DropsBounds(a, now);
    hide Drops, Span, Decrease, DropsTo;
    if n >= k {
      MoreDropsLower(a, k, n);
      MoreDropsLonger(a, k, n);
    } else {
      MoreDropsLower(a, n, k - 1);
      MoreDropsLonger(a, n + 1, k);
    }
  }

  /**
   When an offer is good enough: one at the start rate or above always, one below the end rate never, and one in between
   from the drop on that brings the rate down to it, and in any case from the end of the auction on.
   */
  lemma {:induction false} AcceptableFromIff(a: Auction, offered: real, now: real)
    requires Falling(a)
    ensures IsAcceptableOffer(a, offered, now) <==>
      || offered >= a.startRate
      || (offered >= a.endRate && now >= a.startTimestamp + a.duration)
      || (offered >= a.endRate && a.decrementAmount > 0.0
          && now >= a.startTimestamp + DropsTo(a, offered) as real * a.decrementInterval)
  {
    RateNeverRises(a, now, now);
    if a.endRate <= offered < a.startRate && now < a.startTimestamp + a.duration {
      if a.decrementAmount == 0.0 {
        NoDecrease(a, Drops(a, now));
      } else {
        DropsToExact(a, offered);
        assert Span(a, DropsTo(a, offered)) == DropsTo(a, offered) as real * a.decrementInterval;
        MoreDropsLonger(a, 0, DropsTo(a, offered));
        hide Drops, Span, DropsTo, Decrease;
        if now >= a.startTimestamp {
          AcceptableInsideIff(a, offered, now);
        }
      }
    }
  }

  /** The countdown ends exactly when the current interval does. */
  lemma {:induction false} NextDropAt(a: Auction, k: int, now: real)
    requires a.decrementInterval > 0.0
    requires a.startTimestamp + k as real * a.decrementInterval <= now
    requires now < a.startTimestamp + (k + 1) as real * a.decrementInterval
    ensures now + NextDropIn(a, now) == a.startTimestamp + (k + 1) as real * a.decrementInterval
  {
    DropsBounds(a, now);
    assert Span(a, k) == k as real * a.decrementInterval && Span(a, k + 1) == (k + 1) as real * a.decrementInterval;
    hide Drops, Span;
    if Drops(a, now) < k {
      MoreDropsLonger(a, Drops(a, now) + 1, k);
    } else if Drops(a, now) > k {
      MoreDropsLonger(a, k + 1, Drops(a, now));
    }
  }

  // ---------- Page and engine ----------

  /** The page shows the auction until its end. */
  predicate Shown(a: Auction, now: real) {
    now < a.startTimestamp + a.duration
  }

  /** The displayed rate never rises, and from the start of the auction on it stays between the two rates. */
  lemma {:induction false} DisplayNeverRises(a: Auction, t: real, u: real)
    requires Falling(a) && t <= u
    ensures a.endRate <= DisplayedRate(a, u) <= DisplayedRate(a, t)
    ensures t >= a.startTimestamp ==> DisplayedRate(a, t) <= a.startRate
  {
    hide Drops, Decrease;
    DropsMonotone(a, t, u);
    DropsNonNegative(a, t);
    MoreDropsLower(a, Drops(a, t), Drops(a, u));
    if t >= a.startTimestamp {
      MoreDropsLower(a, 0, Drops(a, t));
    }
  }

  /** While the auction is shown, the page shows the engine's rate exactly once it has started, or if the rate never falls. */
  lemma {:induction false} DisplayMatchesEngineIff(a: Auction, now: real)
    requires Falling(a) && Shown(a, now)
    ensures DisplayedRate(a, now) == CurrentRate(a, now) <==> now >= a.startTimestamp || a.decrementAmount == 0.0
  {
    hide Drops, Decrease;
    DropsNonNegative(a, now);
    if now < a.startTimestamp {
      MoreDropsLower(a, Drops(a, now), -1);
      if a.decrementAmount == 0.0 {
        NoDecrease(a, Drops(a, now));
      }
    }
  }

  lemma {:induction false} NoDecrease(a: Auction, k: int)
    requires a.decrementAmount == 0.0
    ensures Decrease(a, k) == 0.0
  {
  }

  /** The auction the page submits: from 3 percent above the market to 3 percent below it in eight steps of 15 seconds. */
  function PageAuction(marketRate: real, startTimestamp: real): Auction {
    Auction(startTimestamp, 120.0, marketRate * 1.03, marketRate * 0.97, 15.0, marketRate * 0.06 / 8.0)
  }

  /** For it the page's formula and the engine agree from the start on, and the floor is met exactly from its end on. */
  lemma {:induction false} PageAuctionExact(marketRate: real, startTimestamp: real, now: real)
    requires marketRate > 0.0 && now >= startTimestamp
    ensures var a := PageAuction(marketRate, startTimestamp);
      && Falling(a)
      && DisplayedRate(a, now) == CurrentRate(a, now)
      && (CurrentRate(a, now) == a.endRate <==> now >= startTimestamp + 120.0)
  {
    var a := PageAuction(marketRate, startTimestamp);
    var k := Drops(a, now);
    PageSteps(marketRate, startTimestamp);
    DropsBounds(a, now);
    hide Drops, Span, Decrease;
    if now < startTimestamp + 120.0 {
      DisplayMatchesEngineIff(a, now);
      if k >= 8 {
        MoreDropsLonger(a, 8, k);
      }
      MoreDropsLower(a, k, 7);
    } else {
      if k <= 7 {
        MoreDropsLonger(a, k + 1, 8);
      }
      MoreDropsLower(a, 8, k);
    }
  }

  lemma {:induction false} PageSteps(marketRate: real, startTimestamp: real)
    requires marketRate > 0.0
    ensures var a := PageAuction(marketRate, startTimestamp);
      && Falling(a) && Span(a, 8) == 120.0
      && a.startRate - Decrease(a, 8) == a.endRate && a.startRate - Decrease(a, 7) > a.endRate
  {
    var a := PageAuction(marketRate, startTimestamp);
    assert Decrease(a, 8) == 8.0 * (marketRate * 0.06 / 8.0) == marketRate * 0.06;
    assert Decrease(a, 7) == 7.0 * (marketRate * 0.06 / 8.0) == marketRate * 0.0525;
  }

  /** Fifteen seconds lower its rate by three quarters of a percent of the market rate, eight times. */
  lemma {:induction false} PageRateAtStep(marketRate: real, startTimestamp: real, k: nat, now: real)
    requires marketRate > 0.0 && k < 8
    requires startTimestamp + 15.0 * k as real <= now < startTimestamp + 15.0 * (k + 1) as real
    ensures var a := PageAuction(marketRate, startTimestamp);
      DisplayedRate(a, now) == CurrentRate(a, now) == marketRate * (1.03 - 0.0075 * k as real)
  {
    var a := PageAuction(marketRate, startTimestamp);
    PageAuctionExact(marketRate, startTimestamp, now);
    assert k as real * a.decrementInterval == 15.0 * k as real;
    assert (k + 1) as real * a.decrementInterval == 15.0 * (k + 1) as real;
    RateAtStep(a, k, now);
    assert k as real * a.decrementAmount == marketRate * (0.0075 * k as real);
    TimesMonotone(0.0075 * k as real, 0.06, marketRate);
    hide CurrentRate, DisplayedRate;
  }

  /** Before it the engine asks 3 percent more than the market rate, and from its end on 3 percent less. */
  lemma {:induction false} PageRateOutside(marketRate: real, startTimestamp: real, now: real)
    requires marketRate > 0.0
    ensures var rate := CurrentRate(PageAuction(marketRate, startTimestamp), now);
      && (now < startTimestamp ==> rate == 1.03 * marketRate)
      && (now >= startTimestamp + 120.0 ==> rate == 0.97 * marketRate)
  {
  }
}
