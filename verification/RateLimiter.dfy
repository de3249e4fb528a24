// The classifier's fixed-window rate limiter, in the 64-bit arithmetic of the C program.
module RateLimiter {
  import opened Wrappers

  const WINDOW_NS := 1_000_000_000
  const TWO64 := 0x1_0000_0000_0000_0000

  // A limit of 0 means none.
  datatype Limits = Limits(bytes: U64, packets: U64)

  datatype RateState = RateState(windowStart: U64, bytes: U64, packets: U64)

  datatype Offer = Offer(now: U64, bytes: U32)

  function Add64(a: U64, b: U64): U64 {
    (a as int + b as int) % TWO64
  }

  function Sub64(a: U64, b: U64): U64 {
    (a as int - b as int) % TWO64
  }

  function Opened(s: RateState, now: U64): RateState {
    if s.windowStart == 0 || Sub64(now, s.windowStart) >= WINDOW_NS then RateState(now, 0, 0) else s
  }

  // The locked section of rate_allowed: the next state and the answer.
  function Step(l: Limits, s: RateState, o: Offer): (RateState, bool) {
    var w := Opened(s, o.now);
    var refused :=
      || (l.bytes > 0 && (w.bytes >= l.bytes || o.bytes > Sub64(l.bytes, w.bytes)))
      || (l.packets > 0 && w.packets >= l.packets);
    if refused then (w, false)
    else (RateState(w.windowStart, Add64(w.bytes, o.bytes), Add64(w.packets, 1)), true)
  }

  /* What the limits and counters mean, for bytes and for packets alike. */

  datatype Unit = Bytes | Packets

  function Limit(l: Limits, u: Unit): nat {
    if u.Bytes? then l.bytes else l.packets
  }

  function Used(s: RateState, u: Unit): nat {
    if u.Bytes? then s.bytes else s.packets
  }

  function Cost(o: Offer, u: Unit): nat {
    if u.Bytes? then o.bytes else 1
  }

  // Limits a validated policy can produce: some limit set, u32 packets, u32 * 125000 bytes.
  predicate Configured(l: Limits) {
    && (l.bytes > 0 || l.packets > 0)
    && l.packets <= 0xFFFF_FFFF
    && l.bytes <= 0xFFFF_FFFF * 125_000
  }

  predicate Sane(l: Limits, s: RateState) {
    && (forall u :: Limit(l, u) > 0 ==> Used(s, u) <= Limit(l, u))
    && s.packets <= s.bytes <= 0xFFFF_FFFF * s.packets
  }

  // Offers after `since`, at times that do not run backwards; a frame has at least one byte.
  predicate Ordered(since: nat, offers: seq<Offer>)
    decreases |offers|
  {
    offers == [] ||
    (since <= offers[0].now && offers[0].now > 0 && offers[0].bytes > 0 && Ordered(offers[0].now, offers[1..]))
  }

  predicate WindowFits(s: RateState, now: U64) {
    s.windowStart != 0 ==> s.windowStart <= now
  }

  // The window test in plain arithmetic; a new window starts empty.
  lemma OpenedIsExact(l: Limits, s: RateState, now: U64)
    requires Sane(l, s) && WindowFits(s, now) && now > 0
    ensures var w := Opened(s, now);
            && w == (if s.windowStart == 0 || now >= s.windowStart + WINDOW_NS then RateState(now, 0, 0) else s)
            && Sane(l, w) && 0 < w.windowStart <= now < w.windowStart + WINDOW_NS
  {
    assert Used(RateState(now, 0, 0), Bytes) == 0 && Used(RateState(now, 0, 0), Packets) == 0;
  }

  ghost predicate Fits(l: Limits, w: RateState, o: Offer) {
    forall u :: Limit(l, u) > 0 ==> Used(w, u) + Cost(o, u) <= Limit(l, u)
  }

  lemma FitsMeans(l: Limits, w: RateState, o: Offer)
    ensures Fits(l, w, o) <==>
              && (l.bytes > 0 ==> w.bytes + o.bytes <= l.bytes)
              && (l.packets > 0 ==> w.packets + 1 <= l.packets)
  {
    assert Limit(l, Bytes) == l.bytes && Limit(l, Packets) == l.packets;
    assert Used(w, Bytes) == w.bytes && Used(w, Packets) == w.packets;
    assert Cost(o, Bytes) == o.bytes && Cost(o, Packets) == 1;
  }

  // The step once the window is settled.
  lemma AdmitIsExact(l: Limits, s: RateState, o: Offer)
    requires Configured(l) && Sane(l, Opened(s, o.now)) && o.bytes > 0
    ensures var w, r := Opened(s, o.now), Step(l, s, o);
            && (r.1 <==> Fits(l, w, o))
            && r.0 == (if r.1 then RateState(w.windowStart, w.bytes + o.bytes, w.packets + 1) else w)
  {
    var w := Opened(s, o.now);
    SaneMeans(l, w);
    FitsMeans(l, w, o);
  }

  lemma AdmittedIsSane(l: Limits, w: RateState, o: Offer)
    requires Sane(l, w) && Fits(l, w, o) && o.bytes > 0
    requires w.bytes + o.bytes < TWO64 && w.packets + 1 < TWO64
    ensures Sane(l, RateState(w.windowStart, w.bytes + o.bytes, w.packets + 1))
  {
    SaneMeans(l, w);
    FitsMeans(l, w, o);
    SaneMeans(l, RateState(w.windowStart, w.bytes + o.bytes, w.packets + 1));
  }

  // No counter and no subtraction wraps, a packet is refused exactly when admitting it would
  // exceed a limit, and the state afterwards is sane again.
  lemma StepIsExact(l: Limits, s: RateState, o: Offer)
    requires Configured(l) && Sane(l, s) && WindowFits(s, o.now)
    requires o.now > 0 && o.bytes > 0
    ensures var w, r := Opened(s, o.now), Step(l, s, o);
            && (r.1 <==> Fits(l, w, o))
            && r.0 == (if r.1 then RateState(w.windowStart, w.bytes + o.bytes, w.packets + 1) else w)
            && Sane(l, r.0)
            && w == (if s.windowStart == 0 || o.now >= s.windowStart + 1_000_000_000 then RateState(o.now, 0, 0) else s)
            && 0 < r.0.windowStart <= o.now < r.0.windowStart + 1_000_000_000
  {
    OpenedIsExact(l, s, o.now);
    AdmitIsExact(l, s, o);
    if Step(l, s, o).1 {
      AdmittedIsSane(l, Opened(s, o.now), o);
    }
  }

  lemma SaneMeans(l: Limits, s: RateState)
    ensures Sane(l, s) <==>
              && (l.bytes > 0 ==> s.bytes <= l.bytes) && (l.packets > 0 ==> s.packets <= l.packets)
              && s.packets <= s.bytes <= 0xFFFF_FFFF * s.packets
  {
    assert Limit(l, Bytes) == l.bytes && Limit(l, Packets) == l.packets;
    assert Used(s, Bytes) == s.bytes && Used(s, Packets) == s.packets;
  }

  /* Bounds over runs. */

  // The cost of the offers admitted at times in [from, until).
  function Admitted(l: Limits, s: RateState, offers: seq<Offer>, u: Unit, from: nat, until: nat): nat
    decreases |offers|
  {
    if offers == [] then 0
    else
      var (next, ok) := Step(l, s, offers[0]);
      (if ok && from <= offers[0].now < until then Cost(offers[0], u) else 0)
      + Admitted(l, next, offers[1..], u, from, until)
  }

  // What is left of the current window.
  lemma {:induction false} WithinOneWindow(l: Limits, s: RateState, offers: seq<Offer>, u: Unit, from: nat, until: nat)
    requires Configured(l) && Sane(l, s) && Ordered(s.windowStart, offers)
    requires s.windowStart > 0 && Limit(l, u) > 0
    requires until <= s.windowStart + WINDOW_NS
    ensures Admitted(l, s, offers, u, from, until) <= Limit(l, u) - Used(s, u)
    decreases |offers|
  {
    if offers != [] {
      StepIsExact(l, s, offers[0]);
      var next := Step(l, s, offers[0]).0;
      OrderedFromWindow(next, offers);
      if offers[0].now < until {
        WithinOneWindow(l, next, offers[1..], u, from, until);
      } else {
        NothingAfter(l, next, offers[1..], u, from, until, offers[0].now);
      }
    }
  }

  lemma OrderedFromWindow(next: RateState, offers: seq<Offer>)
    requires offers != [] && Ordered(0, offers) && next.windowStart <= offers[0].now
    ensures Ordered(next.windowStart, offers[1..])
  {
  }

  lemma {:induction false} NothingAfter(l: Limits, s: RateState, offers: seq<Offer>, u: Unit,
                                        from: nat, until: nat, since: nat)
    requires Ordered(since, offers) && until <= since
    ensures Admitted(l, s, offers, u, from, until) == 0
    decreases |offers|
  {
    if offers != [] {
      NothingAfter(l, Step(l, s, offers[0]).0, offers[1..], u, from, until, offers[0].now);
    }
  }

  // The current window and the one after it.
  lemma {:induction false} WithinTwoWindows(l: Limits, s: RateState, offers: seq<Offer>, u: Unit, from: nat, until: nat)
    requires Configured(l) && Sane(l, s) && Ordered(s.windowStart, offers)
    requires s.windowStart > 0 && Limit(l, u) > 0
    requires until <= s.windowStart + 2 * WINDOW_NS
    ensures Admitted(l, s, offers, u, from, until) <= 2 * Limit(l, u) - Used(s, u)
    decreases |offers|
  {
    if offers != [] {
      StepIsExact(l, s, offers[0]);
      var next := Step(l, s, offers[0]).0;
      OrderedFromWindow(next, offers);
      if next.windowStart == s.windowStart {
        WithinTwoWindows(l, next, offers[1..], u, from, until);
      } else {
        WithinOneWindow(l, next, offers[1..], u, from, until);
      }
    }
  }

  // Over any half-open second, from any state a run can be in, at most twice each limit passes.
  lemma {:induction false} AnySecondAdmitsAtMostTwice(l: Limits, s: RateState, offers: seq<Offer>, u: Unit, from: nat)
    requires Configured(l) && Sane(l, s) && Ordered(s.windowStart, offers)
    requires Limit(l, u) > 0
    ensures Admitted(l, s, offers, u, from, from + 1_000_000_000) <= 2 * Limit(l, u)
    decreases |offers|
  {
    if offers != [] {
      StepIsExact(l, s, offers[0]);
      var next := Step(l, s, offers[0]).0;
      OrderedFromWindow(next, offers);
      if offers[0].now < from {
        AnySecondAdmitsAtMostTwice(l, next, offers[1..], u, from);
      } else if next.windowStart == s.windowStart {
        WithinTwoWindows(l, s, offers, u, from, from + WINDOW_NS);
      } else {
        WithinOneWindow(l, next, offers[1..], u, from, from + WINDOW_NS);
      }
    }
  }

  // Where a frame can be larger than the byte limit, and so open a window without using it,
  // twice the limit is reached.
  lemma TwiceIsReached(limit: U32)
    requires 0 < limit < 0xFFFF_FFFF
    ensures var offers := [Offer(1, limit + 1), Offer(WINDOW_NS, limit), Offer(WINDOW_NS + 1, limit)];
            && Ordered(0, offers)
            && Admitted(Limits(limit, 0), RateState(0, 0, 0), offers, Bytes, WINDOW_NS, 2 * WINDOW_NS) == 2 * limit
  {
    var l := Limits(limit, 0);
    var a, b, c := Offer(1, limit + 1), Offer(WINDOW_NS, limit), Offer(WINDOW_NS + 1, limit);
    assert Step(l, RateState(0, 0, 0), a) == (RateState(1, 0, 0), false);
    assert Step(l, RateState(1, 0, 0), b) == (RateState(1, limit, 1), true);
    assert Step(l, RateState(1, limit, 1), c) == (RateState(WINDOW_NS + 1, limit, 1), true);
    assert [a, b, c][1..] == [b, c] && [b, c][1..] == [c] && [c][1..] == [];
    assert Admitted(l, RateState(1, limit, 1), [c], Bytes, WINDOW_NS, 2 * WINDOW_NS) == limit;
    assert Admitted(l, RateState(1, 0, 0), [b, c], Bytes, WINDOW_NS, 2 * WINDOW_NS) == 2 * limit;
    assert Ordered(WINDOW_NS + 1, []);
    assert Ordered(WINDOW_NS, [c]);
    assert Ordered(1, [b, c]);
    assert [a, b, c] != [] && [a, b, c][0] == a;
    assert Ordered(0, [a, b, c]);
    assert Admitted(l, RateState(0, 0, 0), [a, b, c], Bytes, WINDOW_NS, 2 * WINDOW_NS) == 2 * limit;
  }

  // Offers at one instant that together cost `amount`.
  function Burst(u: Unit, amount: nat, now: U64): seq<Offer>
    decreases amount
  {
    if amount == 0 then []
    else [Offer(now, Portion(u, amount))] + Burst(u, amount - Portion(u, amount), now)
  }

  // One packet, or as many bytes as one frame can have.
  function Portion(u: Unit, amount: nat): U32
    requires amount > 0
  {
    if u.Packets? then 1 else if amount < 0xFFFF_FFFF then amount else 0xFFFF_FFFF
  }

  // Only this limit is set.
  predicate OnlyLimit(l: Limits, u: Unit) {
    Configured(l) && if u.Bytes? then l.packets == 0 else l.bytes == 0
  }

  lemma {:induction false} BurstIsOrdered(u: Unit, amount: nat, since: nat, now: U64, rest: seq<Offer>)
    requires since <= now && now > 0 && Ordered(now, rest)
    ensures Ordered(since, Burst(u, amount, now) + rest)
    decreases amount
  {
    var offers := Burst(u, amount, now) + rest;
    if amount == 0 {
      assert offers == rest;
    } else {
      var left := amount - Portion(u, amount);
      BurstIsOrdered(u, left, now, now, rest);
      assert offers[0] == Offer(now, Portion(u, amount));
      assert offers[1..] == Burst(u, left, now) + rest;
    }
  }

  // A burst that fits the open window is admitted whole.
  lemma {:induction false} BurstIsAdmitted(l: Limits, s: RateState, u: Unit, amount: nat, now: U64, rest: seq<Offer>,
                                           from: nat, until: nat)
    returns (s': RateState)
    requires OnlyLimit(l, u) && Sane(l, s) && Used(s, u) + amount <= Limit(l, u)
    requires 0 < s.windowStart <= now < s.windowStart + WINDOW_NS && from <= now < until
    ensures s'.windowStart == s.windowStart && Sane(l, s')
    ensures Admitted(l, s, Burst(u, amount, now) + rest, u, from, until)
            == amount + Admitted(l, s', rest, u, from, until)
    decreases amount
  {
    var offers := Burst(u, amount, now) + rest;
    if amount == 0 {
      assert offers == rest;
      s' := s;
    } else {
      var o := offers[0];
      StepIsExact(l, s, o);
      FitsMeans(l, s, o);
      var next := Step(l, s, o).0;
      assert offers[1..] == Burst(u, amount - Cost(o, u), now) + rest;
      s' := BurstIsAdmitted(l, next, u, amount - Cost(o, u), now, rest, from, until);
    }
  }

  function Flood(l: Limits, u: Unit): seq<Offer>
    requires Limit(l, u) > 0
  {
    [Offer(1, 1)] + (Burst(u, Limit(l, u) - 1, WINDOW_NS) + (Burst(u, Limit(l, u), WINDOW_NS + 1) + []))
  }

  lemma OpeningFirst(l: Limits, s: RateState, offers: seq<Offer>, u: Unit, from: nat, until: nat)
    requires offers != [] && offers[0].now > 0
    ensures Admitted(l, s, offers, u, from, until) == Admitted(l, Opened(s, offers[0].now), offers, u, from, until)
  {
    assert Opened(Opened(s, offers[0].now), offers[0].now) == Opened(s, offers[0].now);
  }

  // Every limit, of either kind, comes within one of twice itself: the bound cannot be improved
  // by more than that.
  lemma AlmostTwiceIsReached(l: Limits, u: Unit)
    requires OnlyLimit(l, u)
    ensures Ordered(0, Flood(l, u))
    ensures Admitted(l, RateState(0, 0, 0), Flood(l, u), u, WINDOW_NS, 2 * WINDOW_NS) == 2 * Limit(l, u) - 1
  {
    var n := Limit(l, u);
    var second := Burst(u, n, WINDOW_NS + 1) + [];
    var first := Burst(u, n - 1, WINDOW_NS) + second;
    BurstIsOrdered(u, n, WINDOW_NS, WINDOW_NS + 1, []);
    BurstIsOrdered(u, n - 1, 1, WINDOW_NS, second);
    assert Flood(l, u)[1..] == first;
    var begun := RateState(1, 1, 1);
    FirstOfFlood(l, u);
    var full := BurstIsAdmitted(l, begun, u, n - 1, WINDOW_NS, second, WINDOW_NS, 2 * WINDOW_NS);
    OpeningFirst(l, full, second, u, WINDOW_NS, 2 * WINDOW_NS);
    var next := RateState(WINDOW_NS + 1, 0, 0);
    SaneMeans(l, next);
    var _ := BurstIsAdmitted(l, next, u, n, WINDOW_NS + 1, [], WINDOW_NS, 2 * WINDOW_NS);
  }

  // A one-byte packet at time 1 opens the first window.
  lemma FirstOfFlood(l: Limits, u: Unit)
    requires OnlyLimit(l, u)
    ensures Step(l, RateState(0, 0, 0), Offer(1, 1)) == (RateState(1, 1, 1), true)
    ensures Sane(l, RateState(1, 1, 1)) && Used(RateState(1, 1, 1), u) == 1
  {
    SaneMeans(l, RateState(1, 1, 1));
  }

  // Every frame fits an empty window.
  predicate FramesFit(l: Limits) {
    l.bytes == 0 || l.bytes >= 0xFFFF_FFFF
  }

  // A window opens with a packet that is admitted, so an open window is never unused.
  lemma OpenWindowsAreUsed(l: Limits, s: RateState, o: Offer, u: Unit)
    requires Configured(l) && FramesFit(l) && Sane(l, s) && WindowFits(s, o.now) && o.now > 0 && o.bytes > 0
    requires s.windowStart > 0 ==> Used(s, u) > 0
    ensures Used(Step(l, s, o).0, u) > 0
  {
    StepIsExact(l, s, o);
    FitsMeans(l, Opened(s, o.now), o);
  }

  // Then twice the limit is never quite reached.
  lemma {:induction false} NeverQuiteTwice(l: Limits, s: RateState, offers: seq<Offer>, u: Unit, from: nat)
    requires Configured(l) && FramesFit(l) && Sane(l, s) && Ordered(s.windowStart, offers)
    requires Limit(l, u) > 0 && (s.windowStart > 0 ==> Used(s, u) > 0)
    ensures Admitted(l, s, offers, u, from, from + WINDOW_NS) <= 2 * Limit(l, u) - 1
    decreases |offers|
  {
    if offers != [] {
      StepIsExact(l, s, offers[0]);
      OpenWindowsAreUsed(l, s, offers[0], u);
      var next := Step(l, s, offers[0]).0;
      OrderedFromWindow(next, offers);
      if offers[0].now < from {
        NeverQuiteTwice(l, next, offers[1..], u, from);
      } else if next.windowStart == s.windowStart {
        WithinTwoWindows(l, s, offers, u, from, from + WINDOW_NS);
      } else {
        WithinOneWindow(l, next, offers[1..], u, from, from + WINDOW_NS);
      }
    }
  }

  ghost predicate ReachesTwice(l: Limits, u: Unit, offers: seq<Offer>, from: nat) {
    && Ordered(0, offers)
    && Admitted(l, RateState(0, 0, 0), offers, u, from, from + WINDOW_NS) == 2 * Limit(l, u)
  }

  // Some run reaches twice the limit within a second if and only if it is a byte limit that a
  // single frame can exceed.
  lemma TwiceIsReachedIff(l: Limits, u: Unit)
    requires OnlyLimit(l, u)
    ensures (exists offers, from :: ReachesTwice(l, u, offers, from)) <==> u.Bytes? && l.bytes < 0xFFFF_FFFF
  {
    if u.Bytes? && l.bytes < 0xFFFF_FFFF {
      TwiceIsReached(l.bytes);
      assert l == Limits(l.bytes, 0);
      assert ReachesTwice(l, u, [Offer(1, l.bytes + 1), Offer(WINDOW_NS, l.bytes), Offer(WINDOW_NS + 1, l.bytes)],
                          WINDOW_NS);
    } else {
      SaneMeans(l, RateState(0, 0, 0));
      forall offers, from | ReachesTwice(l, u, offers, from) ensures false {
        NeverQuiteTwice(l, RateState(0, 0, 0), offers, u, from);
      }
    }
  }
}
