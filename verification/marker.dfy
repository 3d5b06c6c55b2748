/** The robot marker on the map
    (`src/features/RobotMonitor/components/RobotMarker.tsx`): its base
    colours and its battery gauge. */
module Marker {
  import opened Arith
  import opened Wrappers
  import Dashboard

  /** Width of a full gauge bar, in pixels. */
  const GaugeWidth := 28

  /** Above this percentage the gauge fill is green. */
  const FillThreshold := 30

  /** The two gradient stops of the marker body. */
  datatype Colors = Colors(inner: string, outer: string)

  const CarryingColors := Colors("#2ecc71", "#27ae60")
  const IdleColors := Colors("#6ec1ff", "#2a9df4")

  /** `baseColor`: green when `Estado_Carga === true`, blue otherwise, an
      absent flag included. */
  function BaseColor(carrying: Option<bool>): (c: Colors)
    ensures c == CarryingColors <==> carrying == Some(true)
    ensures c == IdleColors <==> carrying != Some(true)
  {
    if carrying == Some(true) then CarryingColors else IdleColors
  }

  /** The positions of the robots whose marker is drawn green. */
  function CarryingMarkers(rs: seq<Dashboard.Robot>): set<nat> {
    set i: nat | i < |rs| && BaseColor(rs[i].carrying) == CarryingColors
  }

  /** The green markers on the map are exactly as many as `carryingCount`:
      the marker and the count both test `Estado_Carga === true`. */
  lemma CarryingMarkersCount(rs: seq<Dashboard.Robot>)
    ensures |CarryingMarkers(rs)| == Dashboard.Summarize(rs).carrying
  {
    assert CarryingMarkers(rs) == Dashboard.Positions(rs, Dashboard.Carrying, Some(true));
  }

  /** `batteryPct`: the reading clamped to `0..100`. */
  function BatteryPct(level: int): (pct: int)
    ensures 0 <= pct <= 100
    ensures 0 <= level <= 100 ==> pct == level
    ensures level < 0 ==> pct == 0
    ensures level > 100 ==> pct == 100
  {
    Clamp(level, 0, 100)
  }

  /** `batteryWidth`: `Math.round(pct / 100 * 28)`, the length of the bar. */
  function BatteryWidth(pct: int): (w: int)
    // the nearest whole pixel to pct percent of the bar
    ensures 200 * w - 100 <= 56 * pct < 200 * w + 100
    ensures 0 <= pct <= 100 ==> 0 <= w <= GaugeWidth
    ensures pct == 0 ==> w == 0
    ensures pct == 100 ==> w == GaugeWidth
    // the bar is empty only below 2% and full only from 99%
    ensures 0 <= pct ==> (w == 0 <==> pct <= 1)
    ensures pct <= 100 ==> (w == GaugeWidth <==> pct >= 99)
  {
    RoundDiv(GaugeWidth * pct, 100)
  }

  /** The integer bar length is `Math.round` of the exact `pct / 100 * 28`. */
  lemma BatteryWidthIsRound(pct: int)
    ensures BatteryWidth(pct) == Round(pct as real / 100.0 * 28.0)
  {
    var x := pct as real / 100.0 * 28.0;
    assert x * 100 as real == (GaugeWidth * pct) as real;
    RoundOfQuotient(x, GaugeWidth * pct, 100);
  }

  /** `pct / 100 * 28` is never closer than 1/50 to a half, so the rounding of
      the floating-point product cannot go either way. */
  lemma BatteryWidthNoTie(pct: int, k: int)
    ensures Abs(56 * pct - (200 * k + 100)) >= 4
  {
    var m := 14 * pct - 50 * k - 25;
    assert 56 * pct - (200 * k + 100) == 4 * m;
    assert m % 2 == 1 by {
      assert 14 * pct - 50 * k == 2 * (7 * pct - 25 * k);
    }
  }

  /** A fuller battery never draws a shorter bar. */
  lemma BatteryWidthMonotone(p: int, q: int)
    requires p <= q
    ensures BatteryWidth(p) <= BatteryWidth(q)
  {
    RoundDivMonotone(GaugeWidth * p, GaugeWidth * q, 100);
  }

  /** The two gauge fills. */
  datatype Fill = Healthy | Low

  /** The fill colour string. */
  function FillColor(f: Fill): string {
    match f
    case Healthy => "#a6f3a6"
    case Low => "#ffb3b3"
  }

  /** The gauge fill: green above 30%, red otherwise. */
  function GaugeFill(pct: int): (f: Fill)
    ensures f == Healthy <==> pct > FillThreshold
    ensures FillColor(f) == "#a6f3a6" <==> pct > FillThreshold
    ensures FillColor(f) == "#ffb3b3" <==> pct <= FillThreshold
  {
    if pct > FillThreshold then Healthy else Low
  }

  /** The whole gauge for one battery reading. */
  datatype Gauge = Gauge(pct: int, width: int, fill: Fill)

  function GaugeOf(level: int): (g: Gauge)
    ensures 0 <= g.pct <= 100 && 0 <= g.width <= GaugeWidth
    ensures 0 <= level <= 100 ==> g.pct == level
    ensures g.fill == Healthy <==> level > FillThreshold
    ensures level <= 0 ==> g.width == 0
    ensures level >= 100 ==> g.width == GaugeWidth
  {
    var pct := BatteryPct(level);
    Gauge(pct, BatteryWidth(pct), GaugeFill(pct))
  }

  /** The marker gauge and the sidebar card agree only roughly: a green card
      bar always comes with a green gauge and a green gauge never with a red
      card bar, but readings in `21..30` show an amber bar over a red gauge. */
  lemma GaugeAgreesWithCard(level: int)
    ensures Dashboard.BatteryBand(level) == Dashboard.Green ==> GaugeOf(level).fill == Healthy
    ensures GaugeOf(level).fill == Healthy ==> Dashboard.BatteryBand(level) != Dashboard.Red
    ensures 20 < level <= 30 ==>
      Dashboard.BatteryBand(level) == Dashboard.Amber && GaugeOf(level).fill == Low
  {
  }
}
