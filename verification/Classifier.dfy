// The classifier as the kernel runs it: a judgement, then the rate limiter's state.
module Classifier {
  import opened Wrappers
  import opened Policy
  import opened TcProgram
  import opened RateLimiter
  import MapCompiler
  import Frames

  function LimitsOf(cfg: Config): Limits {
    Limits(cfg.rateBytes, cfg.ratePackets)
  }

  const FreshRate := RateState(0, 0, 0)

  class Egress {
    var maps: Maps
    var rate: map<U32, RateState>

    // rate_allowed. The state is created on first use; `full` says whether the map then has no
    // room for it.
    method RateAllowed(cfg: Config, bytes: U32, now: U64, full: bool) returns (allowed: bool)
      modifies this`rate
      ensures LimitsOf(cfg) == Limits(0, 0) ==> allowed && rate == old(rate)
      ensures LimitsOf(cfg) != Limits(0, 0) ==>
                var s := if cfg.identity in old(rate) then old(rate)[cfg.identity] else RateState(0, 0, 0);
                var (next, ok) := Step(LimitsOf(cfg), s, Offer(now, bytes));
                if full && cfg.identity !in old(rate) then !allowed && rate == old(rate)
                else allowed == ok && rate == old(rate)[cfg.identity := next]
    {
      if cfg.rateBytes == 0 && cfg.ratePackets == 0 {
        return true;
      }
      if cfg.identity !in rate {
        if full {
          return false;
        }
        rate := rate[cfg.identity := FreshRate];
      }
      var (next, ok) := Step(LimitsOf(cfg), rate[cfg.identity], Offer(now, bytes));
      rate := rate[cfg.identity := next];
      allowed := ok;
    }

    // fluxvm_egress: TC_ACT_OK or TC_ACT_SHOT. A packet refused by policy spends no rate.
    method Run(ifindex: U32, frame: seq<U8>, length: U32, now: U64, full: bool) returns (pass: bool)
      modifies this`rate
      ensures ifindex !in maps.id || Parse(frame).Malformed? ==> !pass
      ensures ifindex in maps.id && IsBootstrap(Parse(frame)) ==> pass && rate == old(rate)
      ensures ifindex in maps.id && Parse(frame).OtherProtocol? ==> pass == maps.id[ifindex].defaultAllow
      ensures var verdict := TcProgram.Egress(maps, ifindex, Parse(frame));
              && (verdict.Shot? ==> !pass)
              && (verdict.Bootstrap? ==> pass)
              && (verdict.NonIp? ==> pass == verdict.allowed)
              && (verdict.Judged? && !verdict.allowed ==> !pass)
              && (!AllowedByPolicy(verdict) ==> rate == old(rate))
              && (AllowedByPolicy(verdict) ==>
                    var cfg := maps.id[ifindex];
                    if LimitsOf(cfg) == Limits(0, 0) then pass && rate == old(rate)
                    else
                      var s := if cfg.identity in old(rate) then old(rate)[cfg.identity] else RateState(0, 0, 0);
                      var (next, ok) := Step(LimitsOf(cfg), s, Offer(now, length));
                      if full && cfg.identity !in old(rate) then !pass && rate == old(rate)
                      else pass == ok && rate == old(rate)[cfg.identity := next])
    {
      Frames.OutsideThePolicy(maps, ifindex, frame);
      match TcProgram.Egress(maps, ifindex, Parse(frame)) {
        case Shot =>
          pass := false;
        case Bootstrap =>
          pass := true;
        case NonIp(allowed) =>
          pass := allowed;
        case Judged(allowed) =>
          pass := false;
          if allowed {
            pass := RateAllowed(maps.id[ifindex], length, now, full);
          }
      }
    }
  }

  // A validated policy's limits: 125,000 bytes a second per Mbps, and within what RateLimiter
  // proves its bounds for.
  lemma PolicyLimits(identity: U32, p: VmNetworkPolicy)
    requires Valid(p)
    ensures MapCompiler.Compilable(p)
    ensures var l := LimitsOf(MapCompiler.PolicyConfig(identity, p));
            && (p.maxEgressMbps.Some? ==> l.bytes == p.maxEgressMbps.value * 125_000 > 0)
            && (p.maxEgressPps.Some? ==> l.packets == p.maxEgressPps.value > 0)
            && (p.maxEgressMbps.None? ==> l.bytes == 0)
            && (p.maxEgressPps.None? ==> l.packets == 0)
            && (l != Limits(0, 0) ==> Configured(l))
  {
    if p.maxEgressMbps.Some? {
      MbpsIs125000BytesPerSecond(p.maxEgressMbps.value);
    }
  }
}
