/**
  Normalisation of numeric request parameters: a default for an absent
  parameter, `parseInt` for a present one, then `Math.min(Math.max(x, lo), hi)`.
  A present parameter is represented by what `parseInt` makes of it, so a
  non-numeric one is `Given(NaN)`; NaN passes through both Math calls.
 */
module Params {
  import opened Js

  datatype Param = Undefined | Given(parsed: Number)

  const MinSide := 1
  const MaxSide := 512
  const DefaultLimit := 50
  const MaxLimit := 255
  const DefaultPage := 1
  const MaxPage := 100000

  /** `p == undefined ? default : parseInt(p)` (the same as `parseInt(p == undefined ? default : p)` for an integer default). */
  function Parsed(p: Param, default: int): (n: Number)
    ensures p.Undefined? ==> n == Int(default)
    ensures p.Given? ==> n == p.parsed
  {
    match p
    case Undefined => Int(default)
    case Given(n) => n
  }

  /** The nearest point of [lo, hi] to x. */
  function Nearest(x: int, lo: int, hi: int): int
    requires lo <= hi
  {
    if x < lo then lo else if x > hi then hi else x
  }

  /** `Math.min(Math.max(<default or parseInt>, lo), hi)`. */
  function Clamp(p: Param, default: int, lo: int, hi: int): (r: Number)
    requires lo <= hi
    ensures r.NaN? <==> p == Given(NaN)
    ensures r.Int? ==> lo <= r.v <= hi
    ensures p.Undefined? ==> r == Int(Nearest(default, lo, hi))
    ensures p.Given? && p.parsed.Int? ==> r == Int(Nearest(p.parsed.v, lo, hi))
  {
    Min(Max(Parsed(p, default), Int(lo)), Int(hi))
  }

  /** Query parameter `w` or `h` of the pixel route. */
  function Side(p: Param): (r: Number)
    ensures r.NaN? <==> p == Given(NaN)
    ensures p.Undefined? ==> r == Int(1)
    ensures r.Int? ==> MinSide <= r.v <= MaxSide
    ensures p.Given? && p.parsed.Int? && MinSide <= p.parsed.v <= MaxSide ==> r == p.parsed
    ensures p.Given? && p.parsed.Int? && p.parsed.v < MinSide ==> r == Int(MinSide)
    ensures p.Given? && p.parsed.Int? && p.parsed.v > MaxSide ==> r == Int(MaxSide)
  {
    Clamp(p, 1, MinSide, MaxSide)
  }

  /** Query parameter `limit` of the stats command. */
  function Limit(p: Param): (r: Number)
    ensures r.NaN? <==> p == Given(NaN)
    ensures p.Undefined? ==> r == Int(DefaultLimit)
    ensures r.Int? ==> 1 <= r.v <= MaxLimit
    ensures p.Given? && p.parsed.Int? && 1 <= p.parsed.v <= MaxLimit ==> r == p.parsed
    ensures p.Given? && p.parsed.Int? ==> r == Int(Nearest(p.parsed.v, 1, MaxLimit))
  {
    Clamp(p, DefaultLimit, 1, MaxLimit)
  }

  /** Query parameter `page` of the stats command. */
  function Page(p: Param): (r: Number)
    ensures r.NaN? <==> p == Given(NaN)
    ensures p.Undefined? ==> r == Int(DefaultPage)
    ensures r.Int? ==> 1 <= r.v <= MaxPage
    ensures p.Given? && p.parsed.Int? && 1 <= p.parsed.v <= MaxPage ==> r == p.parsed
    ensures p.Given? && p.parsed.Int? ==> r == Int(Nearest(p.parsed.v, 1, MaxPage))
  {
    Clamp(p, DefaultPage, 1, MaxPage)
  }

  /**
    Query parameter `before` or `after` of the stats command. The upper clamp
    to Number.MAX_VALUE never changes an integer and is not modelled.
   */
  function DateBound(p: Param): (r: Number)
    ensures r.NaN? <==> p == Given(NaN)
    ensures p.Undefined? ==> r == Int(0)
    ensures r.Int? ==> r.v >= 0
    ensures p.Given? && p.parsed.Int? ==> r == Int(if p.parsed.v < 0 then 0 else p.parsed.v)
  {
    Max(Parsed(p, 0), Int(0))
  }

  /** A date bound takes part in the query iff `bound > 0`: never for NaN, 0 or an absent parameter. */
  lemma DateBoundApplied(p: Param)
    ensures Above(DateBound(p), 0) <==> p.Given? && p.parsed.Int? && p.parsed.v > 0
  {
  }

  /** Query parameter `red`, `green`, `blue` or `alpha` of the colour command. */
  function ChannelParam(p: Param): (r: Number)
    ensures r.NaN? <==> p == Given(NaN)
    ensures p.Undefined? ==> r == Int(0)
    ensures r.Int? ==> 0 <= r.v <= 255
    ensures p.Given? && p.parsed.Int? && 0 <= p.parsed.v <= 255 ==> r == p.parsed
    ensures p.Given? && p.parsed.Int? ==> r == Int(Nearest(p.parsed.v, 0, 255))
  {
    Clamp(p, 0, 0, 255)
  }

  /** Query parameter `c` of the pixel route: `parseInt(c == undefined ? 0 : c) >>> 0`. */
  function PackedColor(p: Param): (c: nat)
    ensures c < TwoTo32
    ensures p.Given? && p.parsed.Int? ==> (p.parsed.v - c) % TwoTo32 == 0
    ensures p.Given? && p.parsed.Int? && 0 <= p.parsed.v < TwoTo32 ==> c == p.parsed.v
    ensures p.Undefined? || p == Given(NaN) ==> c == 0
  {
    ToUint32(Parsed(p, 0))
  }
}
