/** The fleet summary of the monitor page
    (`src/features/RobotMonitor/RobotMonitor.tsx`): the robot counts, the
    rounded mean battery, and the colour and alert bands of each robot's
    card. The page computes the counts and the mean but does not currently
    render them. */
module Dashboard {
  import opened Arith
  import opened Wrappers

  /** A robot as the monitor page receives it. The boolean flags and the
      temperatures may be absent from the message (`None`); the JSON fields
      are `id`, `Posicion_X`, `Posicion_Y`, `Nivel_Bateria`,
      `Temperatura_Bateria`, `Temperatura_Motor`, `Estado_Carga` and
      `Estado_Operativo`. */
  datatype Robot = Robot(
    id: string,
    posX: int,
    posY: int,
    battery: int,
    batteryTemp: Option<int>,
    motorTemp: Option<int>,
    carrying: Option<bool>,
    operational: Option<bool>)

  /** The two boolean flags the page counts by. */
  datatype Flag = Carrying | Operational

  function FlagOf(r: Robot, f: Flag): Option<bool> {
    match f
    case Carrying => r.carrying
    case Operational => r.operational
  }

  // ---------------------------------------------------------------------
  // Counts

  /** `robots.filter(r => r.<flag> === v).length`, with `v` a boolean, or
      `None` for the robots whose flag is absent. */
  function CountIs(rs: seq<Robot>, f: Flag, v: Option<bool>): (n: nat)
    ensures n <= |rs|
    ensures n == 0 <==> forall i :: 0 <= i < |rs| ==> FlagOf(rs[i], f) != v
  {
    if |rs| == 0 then 0
    else CountIs(rs[..|rs| - 1], f, v) + (if FlagOf(rs[|rs| - 1], f) == v then 1 else 0)
  }

  /** The positions of the robots whose flag is `v`. */
  function Positions(rs: seq<Robot>, f: Flag, v: Option<bool>): set<nat> {
    set i: nat | i < |rs| && FlagOf(rs[i], f) == v
  }

  /** The count is the number of matching positions. */
  lemma {:induction false} CountIsPositions(rs: seq<Robot>, f: Flag, v: Option<bool>)
    ensures CountIs(rs, f, v) == |Positions(rs, f, v)|
  {
    if |rs| > 0 {
      var init := rs[..|rs| - 1];
      CountIsPositions(init, f, v);
      var last: nat := |rs| - 1;
      if FlagOf(rs[last], f) == v {
        assert Positions(rs, f, v) == Positions(init, f, v) + {last};
      } else {
        assert Positions(rs, f, v) == Positions(init, f, v);
      }
    }
  }

  /** Every robot is counted exactly once among true, false and absent. */
  lemma {:induction false} CountsPartition(rs: seq<Robot>, f: Flag)
    ensures CountIs(rs, f, Some(true)) + CountIs(rs, f, Some(false)) + CountIs(rs, f, None) == |rs|
  {
    if |rs| > 0 {
      CountsPartition(rs[..|rs| - 1], f);
      TriState(FlagOf(rs[|rs| - 1], f));
    }
  }

  /** An optional flag is true, false or absent. */
  lemma TriState(o: Option<bool>)
    ensures o == Some(true) || o == Some(false) || o == None
  {
    match o
    case None =>
    case Some(b) =>
      if b {
        assert o == Some(true);
      } else {
        assert o == Some(false);
      }
  }

  /** `activeCount`, `carryingCount`, `notCarryingCount`, `chargingCount`,
      `notChargingCount` and `avgBattery`. */
  datatype Summary = Summary(
    active: nat,
    carrying: nat,
    notCarrying: nat,
    charging: nat,
    notCharging: nat,
    avgBattery: int)

  /** Every robot carries flag `f`. */
  predicate FlagPresent(rs: seq<Robot>, f: Flag) {
    forall i :: 0 <= i < |rs| ==> FlagOf(rs[i], f).Some?
  }

  /** Every battery reading lies within `lo..hi`. */
  predicate BatteriesWithin(rs: seq<Robot>, lo: int, hi: int) {
    forall i :: 0 <= i < |rs| ==> lo <= rs[i].battery <= hi
  }

  /** The summary the page derives from the current fleet. */
  function Summarize(rs: seq<Robot>): (s: Summary)
    ensures s.active == |rs|
    ensures s.carrying + s.notCarrying <= s.active
    ensures s.charging + s.notCharging <= s.active
    ensures FlagPresent(rs, Carrying) ==> s.carrying + s.notCarrying == s.active
    ensures FlagPresent(rs, Operational) ==> s.charging + s.notCharging == s.active
    ensures s.charging == |Positions(rs, Operational, Some(false))|
    ensures s.notCharging == |Positions(rs, Operational, Some(true))|
    ensures s.carrying == |Positions(rs, Carrying, Some(true))|
    ensures s.notCarrying == |Positions(rs, Carrying, Some(false))|
    ensures |rs| == 0 ==> s.avgBattery == 0
    ensures BatteriesWithin(rs, 0, 100) ==> 0 <= s.avgBattery <= 100
  {
    CountsPartition(rs, Carrying);
    CountsPartition(rs, Operational);
    CountIsPositions(rs, Operational, Some(false));
    CountIsPositions(rs, Operational, Some(true));
    CountIsPositions(rs, Carrying, Some(true));
    CountIsPositions(rs, Carrying, Some(false));
    NoneAbsent(rs, Carrying);
    NoneAbsent(rs, Operational);
    AvgBatteryPercent(rs);
    Summary(
      |rs|,
      CountIs(rs, Carrying, Some(true)),
      CountIs(rs, Carrying, Some(false)),
      CountIs(rs, Operational, Some(false)),
      CountIs(rs, Operational, Some(true)),
      AvgBattery(rs))
  }

  /** When every robot has flag `f`, none is counted as lacking it. */
  lemma NoneAbsent(rs: seq<Robot>, f: Flag)
    ensures FlagPresent(rs, f) ==> CountIs(rs, f, None) == 0
  {
  }

  // ---------------------------------------------------------------------
  // Mean battery

  /** `robots.reduce((s, r) => s + Number(r.Nivel_Bateria), 0)`. */
  function BatterySum(rs: seq<Robot>): int {
    if |rs| == 0 then 0 else BatterySum(rs[..|rs| - 1]) + rs[|rs| - 1].battery
  }

  /** `avgBattery`: 0 for an empty fleet, else the mean battery rounded to
      the nearest integer, halves up. */
  function AvgBattery(rs: seq<Robot>): (avg: int)
    ensures |rs| == 0 ==> avg == 0
    ensures |rs| > 0 ==>
      2 * |rs| * avg - |rs| <= 2 * BatterySum(rs) < 2 * |rs| * avg + |rs|
  {
    if |rs| == 0 then 0 else RoundDiv(BatterySum(rs), |rs|)
  }

  /** The sum of `n` readings within `lo..hi` lies within `n lo .. n hi`. */
  lemma {:induction false} BatterySumWithin(rs: seq<Robot>, lo: int, hi: int)
    requires BatteriesWithin(rs, lo, hi)
    ensures |rs| * lo <= BatterySum(rs) <= |rs| * hi
  {
    if |rs| > 0 {
      var init := rs[..|rs| - 1];
      BatterySumWithin(init, lo, hi);
      assert |rs| * lo == |init| * lo + lo;
      assert |rs| * hi == |init| * hi + hi;
    }
  }

  /** The mean of a non-empty fleet lies between its lowest and highest
      readings, whatever bounds those are. */
  lemma AvgBatteryWithin(rs: seq<Robot>, lo: int, hi: int)
    requires |rs| > 0
    requires BatteriesWithin(rs, lo, hi)
    ensures lo <= AvgBattery(rs) <= hi
  {
    var n := |rs|;
    BatterySumWithin(rs, lo, hi);
    RoundDivMonotone(n * lo, BatterySum(rs), n);
    RoundDivMonotone(BatterySum(rs), n * hi, n);
    assert n * lo == lo * n;
    assert n * hi == hi * n;
    RoundDivExact(lo, n);
    RoundDivExact(hi, n);
  }

  /** Percentage readings average to a percentage. */
  lemma AvgBatteryPercent(rs: seq<Robot>)
    ensures BatteriesWithin(rs, 0, 100) ==> 0 <= AvgBattery(rs) <= 100
  {
    if |rs| > 0 && BatteriesWithin(rs, 0, 100) {
      AvgBatteryWithin(rs, 0, 100);
    }
  }

  /** A fleet whose readings are all equal averages to that reading. */
  lemma AvgBatteryUniform(rs: seq<Robot>, b: int)
    requires |rs| > 0
    requires BatteriesWithin(rs, b, b)
    ensures AvgBattery(rs) == b
  {
    AvgBatteryWithin(rs, b, b);
  }

  // ---------------------------------------------------------------------
  // Card bands

  /** The battery bar colours: green, amber, red. */
  datatype Band = Green | Amber | Red

  /** The bar colour for `Nivel_Bateria ?? 0`. */
  function BatteryBand(level: int): (b: Band)
    ensures b == Green <==> level > 50
    ensures b == Amber <==> 20 < level <= 50
    ensures b == Red <==> level <= 20
  {
    if level > 50 then Green else if level > 20 then Amber else Red
  }

  /** A fuller battery never shows a worse band. */
  lemma BatteryBandMonotone(a: int, b: int)
    requires a <= b
    ensures BatteryBand(a) == Green ==> BatteryBand(b) == Green
    ensures BatteryBand(b) == Red ==> BatteryBand(a) == Red
  {
  }

  /** The status badge: its text, background and text colour. */
  datatype Badge = Badge(text: string, background: string, color: string)

  /** The badge reads 'Operativo' in green when `Estado_Operativo` is true
      and 'En carga' in amber otherwise, an absent flag included. */
  function StatusBadge(r: Robot): (b: Badge)
    ensures b.text == "Operativo" <==> r.operational == Some(true)
    ensures b.text == "En carga" <==> r.operational != Some(true)
    ensures b.text == "Operativo" ==> b.background == "#d4edda" && b.color == "#155724"
    ensures b.text == "En carga" ==> b.background == "#fff3cd" && b.color == "#856404"
  {
    if r.operational == Some(true) then Badge("Operativo", "#d4edda", "#155724")
    else Badge("En carga", "#fff3cd", "#856404")
  }

  /** The positions of the robots whose badge reads 'En carga'. */
  function InChargePositions(rs: seq<Robot>): set<nat> {
    set i: nat | i < |rs| && StatusBadge(rs[i]).text == "En carga"
  }

  /** The 'En carga' badges outnumber `chargingCount` by exactly the robots
      whose `Estado_Operativo` is absent: the count tests `=== false`, the
      badge tests truthiness. */
  lemma InChargeBadges(rs: seq<Robot>)
    ensures |InChargePositions(rs)| == Summarize(rs).charging + CountIs(rs, Operational, None)
  {
    var f, a := Positions(rs, Operational, Some(false)), Positions(rs, Operational, None);
    forall i: nat | i < |rs|
      ensures i in InChargePositions(rs) <==> i in f + a
    {
      assert FlagOf(rs[i], Operational) == rs[i].operational;
      TriState(rs[i].operational);
    }
    assert InChargePositions(rs) == f + a;
    assert f !! a;
    CountIsPositions(rs, Operational, None);
  }

  /** Thresholds of the temperature alerts, in degrees. */
  const BatteryTempLimit := 60
  const MotorTempLimit := 80

  /** `(robot.Temperatura_Bateria ?? 0) > 60`: the battery reading turns red. */
  function BatteryTempAlert(t: Option<int>): (alert: bool)
    ensures alert <==> t.Some? && t.value > BatteryTempLimit
  {
    t.GetOr(0) > BatteryTempLimit
  }

  /** `(robot.Temperatura_Motor ?? 0) > 80`: the motor reading turns red. */
  function MotorTempAlert(t: Option<int>): (alert: bool)
    ensures alert <==> t.Some? && t.value > MotorTempLimit
  {
    t.GetOr(0) > MotorTempLimit
  }

  /** A hotter reading never clears an alert, and a motor reading that trips
      the motor alert would also trip the lower battery limit. */
  lemma TempAlertsMonotone(a: int, b: int)
    requires a <= b
    ensures BatteryTempAlert(Some(a)) ==> BatteryTempAlert(Some(b))
    ensures MotorTempAlert(Some(a)) ==> MotorTempAlert(Some(b))
    ensures MotorTempAlert(Some(a)) ==> BatteryTempAlert(Some(a))
  {
  }
}
