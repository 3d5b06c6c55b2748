/** The mock telemetry server (`server/server.js`): a fleet of robots that
    takes a bounded random walk on every fast tick, and a list of charging
    stations of which one drifts on every slow tick.

    `Math.random()` is replaced by explicit draws, reals in `[0, 1)`, taken
    in the order the source consumes them; timers, sockets and the emitted
    events are not modelled. */
module Simulator {
  import opened Arith
  import opened Wrappers

  /** The arena the robots walk in: `0..800 x 0..600`. */
  const ArenaWidth := 800
  const ArenaHeight := 600

  /** Robot temperatures stay within `20..30`. */
  const MinTemperature := 20
  const MaxTemperature := 30

  /** Batteries stay within `0..100` and never recharge. */
  const MinBattery := 0
  const MaxBattery := 100

  /** A position delta is an integer in `-10..10`. */
  const MaxDelta := 10

  /** Largest battery drop per fast tick. */
  const MaxDrop := 2

  /** The `carryStatus` strings `'carrying'` and `'not-carrying'`. */
  datatype Carry = Carrying | NotCarrying

  /** The station `status` strings `'occupied'` and `'not-occupied'`. */
  datatype Occupancy = Occupied | NotOccupied

  /** A robot record as the server keeps it; `status` (`'idle'`,
      `'moving'`) is carried along untouched. */
  datatype Robot = Robot(
    id: string,
    x: int,
    y: int,
    temperature: int,
    batteryStatus: int,
    carryStatus: Carry,
    status: string)

  /** A charging station record as the server keeps it. */
  datatype Station = Station(
    id: string,
    x: int,
    y: int,
    temperature: int,
    status: Occupancy)

  /** The fleet the server starts with. */
  const InitialRobots: seq<Robot> := [
    Robot("R1", 100, 100, 22, 90, NotCarrying, "idle"),
    Robot("R2", 300, 200, 23, 60, Carrying, "moving")
  ]

  /** The stations the server starts with. */
  const InitialStations: seq<Station> := [
    Station("S1", 920, 50, 22, NotOccupied),
    Station("S2", 50, 550, 24, Occupied)
  ]

  // ---------------------------------------------------------------------
  // Random draws

  /** A value `Math.random()` can return. */
  predicate IsDraw(u: real) {
    0.0 <= u < 1.0
  }

  /** `randomDelta()`: `Math.floor(u * 21) - 10`. */
  function RandomDelta(u: real): (d: int)
    requires IsDraw(u)
    ensures -MaxDelta <= d <= MaxDelta
  {
    (u * 21.0).Floor - 10
  }

  /** Every delta in `-10..10` is produced by some draw, so the walk can
      reach every neighbouring cell. */
  lemma RandomDeltaCovers(d: int)
    requires -MaxDelta <= d <= MaxDelta
    ensures IsDraw((d + 10) as real / 21.0)
    ensures RandomDelta((d + 10) as real / 21.0) == d
  {
    var u := (d + 10) as real / 21.0;
    assert u * 21.0 == (d + 10) as real;
  }

  /** `Math.floor(u * 3)`: the battery drop of one fast tick. */
  function BatteryDrop(u: real): (k: int)
    requires IsDraw(u)
    ensures 0 <= k <= MaxDrop
  {
    (u * 3.0).Floor
  }

  /** `Math.random() > 0.5 ? 1 : -1`: a unit step in either direction. */
  function UnitStep(u: real): (s: int)
    ensures s == 1 || s == -1
    ensures s == 1 <==> u > 0.5
  {
    if u > 0.5 then 1 else -1
  }

  /** `Math.floor(u * n)`: the index of the station a slow tick picks. */
  function StationIndex(u: real, n: int): (i: int)
    requires IsDraw(u)
    requires n > 0
    ensures 0 <= i < n
  {
    ScaledDrawBelow(u, n as real, u * n as real);
    (u * n as real).Floor
  }

  /** A draw scaled by a positive `n` stays in `[0, n)`. */
  lemma ScaledDrawBelow(u: real, n: real, un: real)
    requires IsDraw(u)
    requires n > 0.0
    requires un == u * n
    ensures 0.0 <= un < n
  {
    assert (1.0 - u) * n > 0.0;
  }

  /** Every station can be picked: the draw `i / n` selects index `i`. */
  lemma StationIndexCovers(i: int, n: int)
    requires 0 <= i < n
    ensures IsDraw(i as real / n as real)
    ensures StationIndex(i as real / n as real, n) == i
  {
    var u := i as real / n as real;
    assert u * n as real == i as real;
  }

  // ---------------------------------------------------------------------
  // Fast tick: robots

  /** The five draws one robot consumes in a fast tick, in source order:
      the x delta, the y delta, the temperature coin, the battery drop and
      the carry flip. */
  datatype RobotDraws = RobotDraws(dx: real, dy: real, heat: real, drop: real, flip: real)

  predicate ValidRobotDraws(d: RobotDraws) {
    IsDraw(d.dx) && IsDraw(d.dy) && IsDraw(d.heat) && IsDraw(d.drop) && IsDraw(d.flip)
  }

  /** What the draws decide for one robot, in integers and booleans. */
  datatype RobotStep = RobotStep(dx: int, dy: int, warmer: bool, drop: int, flip: bool)

  /** The steps the draws can produce. */
  predicate ValidStep(s: RobotStep) {
    && -MaxDelta <= s.dx <= MaxDelta
    && -MaxDelta <= s.dy <= MaxDelta
    && 0 <= s.drop <= MaxDrop
  }

  /** The step a robot's draws decide: the carry flag flips on a draw above
      0.9, the temperature rises on a coin above 0.5. */
  function StepOf(d: RobotDraws): (s: RobotStep)
    requires ValidRobotDraws(d)
    ensures ValidStep(s)
    ensures s.flip <==> d.flip > 0.9
    ensures s.warmer <==> d.heat > 0.5
  {
    RobotStep(RandomDelta(d.dx), RandomDelta(d.dy), UnitStep(d.heat) == 1, BatteryDrop(d.drop), d.flip > 0.9)
  }

  /** Flips `'carrying'` and `'not-carrying'`. */
  function Toggle(c: Carry): (t: Carry)
    ensures t != c
  {
    if c == Carrying then NotCarrying else Carrying
  }

  /** The ranges a robot's readings keep after any fast tick. */
  predicate InRange(r: Robot) {
    && 0 <= r.x <= ArenaWidth
    && 0 <= r.y <= ArenaHeight
    && MinTemperature <= r.temperature <= MaxTemperature
    && MinBattery <= r.batteryStatus <= MaxBattery
  }

  /** One robot through one fast tick (the `robots.map` callback). */
  function MoveRobot(r: Robot, s: RobotStep): (r': Robot)
    // every reading ends in its range, whatever the step
    ensures InRange(r')
    // the spread keeps the fields the tick does not write
    ensures r'.id == r.id && r'.status == r.status
    // a position moves by the delta unless that leaves the arena
    ensures 0 <= r.x + s.dx <= ArenaWidth ==> r'.x == r.x + s.dx
    ensures 0 <= r.y + s.dy <= ArenaHeight ==> r'.y == r.y + s.dy
    ensures 0 <= r.x <= ArenaWidth ==> Abs(r'.x - r.x) <= Abs(s.dx)
    ensures 0 <= r.y <= ArenaHeight ==> Abs(r'.y - r.y) <= Abs(s.dy)
    // temperature: one unit towards the coin's side, or held at a bound
    ensures MinTemperature <= r.temperature <= MaxTemperature ==>
      || r'.temperature == r.temperature + (if s.warmer then 1 else -1)
      || (r'.temperature == r.temperature == (if s.warmer then MaxTemperature else MinTemperature))
    // battery: never rises, and falls by at most the drop
    ensures MinBattery <= r.batteryStatus <= MaxBattery && 0 <= s.drop ==>
      r.batteryStatus - s.drop <= r'.batteryStatus <= r.batteryStatus
    // the carry flag changes exactly on a flip
    ensures r'.carryStatus != r.carryStatus <==> s.flip
  {
    r.(
      x := Clamp(r.x + s.dx, 0, ArenaWidth),
      y := Clamp(r.y + s.dy, 0, ArenaHeight),
      temperature := Clamp(r.temperature + (if s.warmer then 1 else -1), MinTemperature, MaxTemperature),
      batteryStatus := Clamp(r.batteryStatus - s.drop, MinBattery, MaxBattery),
      carryStatus := if s.flip then Toggle(r.carryStatus) else r.carryStatus)
  }

  /** One draw record per robot. */
  predicate DrawsFor(robots: seq<Robot>, draws: seq<RobotDraws>) {
    |draws| == |robots| && forall i :: 0 <= i < |draws| ==> ValidRobotDraws(draws[i])
  }

  /** The fast tick: every robot moves by the step its own draws decide. */
  function TickRobots(robots: seq<Robot>, draws: seq<RobotDraws>): (next: seq<Robot>)
    requires DrawsFor(robots, draws)
    ensures |next| == |robots|
    ensures forall i :: 0 <= i < |next| ==> InRange(next[i])
    ensures forall i :: 0 <= i < |next| ==>
      next[i].id == robots[i].id && next[i].status == robots[i].status
    ensures forall i :: 0 <= i < |next| ==>
      (next[i].carryStatus != robots[i].carryStatus <==> draws[i].flip > 0.9)
    ensures forall i :: 0 <= i < |next| && InRange(robots[i]) ==>
      robots[i].batteryStatus - MaxDrop <= next[i].batteryStatus <= robots[i].batteryStatus
  {
    seq(|robots|, i requires 0 <= i < |robots| => MoveRobot(robots[i], StepOf(draws[i])))
  }

  /** A valid draw record for every robot in every one of a run of ticks. */
  predicate RoundsFor(n: nat, rounds: seq<seq<RobotDraws>>) {
    forall k :: 0 <= k < |rounds| ==>
      |rounds[k]| == n && forall i :: 0 <= i < n ==> ValidRobotDraws(rounds[k][i])
  }

  /** Several fast ticks in a row. */
  function RunRobots(robots: seq<Robot>, rounds: seq<seq<RobotDraws>>): (final: seq<Robot>)
    requires RoundsFor(|robots|, rounds)
    ensures |final| == |robots|
    decreases |rounds|
  {
    if |rounds| == 0 then robots
    else RunRobots(TickRobots(robots, rounds[0]), rounds[1..])
  }

  /** Over a run of `k` fast ticks from in-range readings, each robot keeps
      its identity and its ranges, and its battery never rises and falls by
      at most `2 k`. */
  lemma {:induction false} RunRobotsBounds(robots: seq<Robot>, rounds: seq<seq<RobotDraws>>)
    requires RoundsFor(|robots|, rounds)
    requires forall i :: 0 <= i < |robots| ==> InRange(robots[i])
    ensures var final := RunRobots(robots, rounds);
      forall i :: 0 <= i < |robots| ==>
        && InRange(final[i])
        && final[i].id == robots[i].id
        && robots[i].batteryStatus - MaxDrop * |rounds| <= final[i].batteryStatus <= robots[i].batteryStatus
    decreases |rounds|
  {
    if |rounds| > 0 {
      var next := TickRobots(robots, rounds[0]);
      assert RoundsFor(|next|, rounds[1..]) by {
        forall k | 0 <= k < |rounds[1..]|
          ensures |rounds[1..][k]| == |next|
          ensures forall i :: 0 <= i < |next| ==> ValidRobotDraws(rounds[1..][k][i])
        {
          assert rounds[1..][k] == rounds[k + 1];
        }
      }
      RunRobotsBounds(next, rounds[1..]);
      var final := RunRobots(robots, rounds);
      assert final == RunRobots(next, rounds[1..]);
      forall i | 0 <= i < |robots|
        ensures robots[i].batteryStatus - MaxDrop * |rounds| <= final[i].batteryStatus
      {
        assert robots[i].batteryStatus - MaxDrop <= next[i].batteryStatus;
        assert next[i].batteryStatus - MaxDrop * |rounds[1..]| <= final[i].batteryStatus;
        assert MaxDrop * |rounds| == MaxDrop + MaxDrop * |rounds[1..]|;
      }
    }
  }

  /** The server's initial fleet is already within every range. */
  lemma InitialRobotsInRange()
    ensures forall i :: 0 <= i < |InitialRobots| ==> InRange(InitialRobots[i])
  {
  }

  // ---------------------------------------------------------------------
  // Slow tick: stations

  /** The three draws a slow tick consumes, in source order: the station
      index, the temperature coin and the occupancy flip. */
  datatype StationDraws = StationDraws(pick: real, heat: real, flip: real)

  predicate ValidStationDraws(d: StationDraws) {
    IsDraw(d.pick) && IsDraw(d.heat) && IsDraw(d.flip)
  }

  /** Flips `'occupied'` and `'not-occupied'`. */
  function ToggleOccupancy(o: Occupancy): (t: Occupancy)
    ensures t != o
  {
    if o == Occupied then NotOccupied else Occupied
  }

  /** The chosen station after a slow tick: temperature one unit up or down
      with no clamp, occupancy flipped on a draw above 0.7. */
  function DriftStation(s: Station, heat: real, flip: real): (s': Station)
    ensures s'.id == s.id && s'.x == s.x && s'.y == s.y
    ensures s'.temperature - s.temperature == 1 || s'.temperature - s.temperature == -1
    ensures s'.temperature > s.temperature <==> heat > 0.5
    ensures s'.status != s.status <==> flip > 0.7
  {
    s.(
      temperature := s.temperature + UnitStep(heat),
      status := if flip > 0.7 then ToggleOccupancy(s.status) else s.status)
  }

  /** The slow tick. On an empty list the source reads a field of
      `stations[0]`, which is undefined, and throws; that outcome is `None`. */
  function TickStations(stations: seq<Station>, d: StationDraws): (r: Option<seq<Station>>)
    requires ValidStationDraws(d)
    ensures r.None? <==> |stations| == 0
    ensures r.Some? ==> |r.value| == |stations|
    ensures r.Some? ==>
      var idx := StationIndex(d.pick, |stations|);
      && (forall j :: 0 <= j < |stations| && j != idx ==> r.value[j] == stations[j])
      && r.value[idx].id == stations[idx].id
      && (r.value[idx].temperature - stations[idx].temperature == 1
          || r.value[idx].temperature - stations[idx].temperature == -1)
      && (r.value[idx].status != stations[idx].status <==> d.flip > 0.7)
  {
    if |stations| == 0 then None
    else
      var idx := StationIndex(d.pick, |stations|);
      Some(stations[idx := DriftStation(stations[idx], d.heat, d.flip)])
  }

  /** Station temperatures are not clamped: a run of `k` slow ticks on a
      one-station list whose coins all come up high warms it by exactly `k`. */
  lemma {:induction false} StationDriftUnbounded(s: Station, rounds: seq<StationDraws>)
    requires forall k :: 0 <= k < |rounds| ==> ValidStationDraws(rounds[k]) && rounds[k].heat > 0.5
    ensures RunStations([s], rounds).Some?
    ensures |RunStations([s], rounds).value| == 1
    ensures RunStations([s], rounds).value[0].temperature == s.temperature + |rounds|
    decreases |rounds|
  {
    if |rounds| > 0 {
      var next := TickStations([s], rounds[0]);
      assert StationIndex(rounds[0].pick, 1) == 0;
      StationDriftUnbounded(next.value[0], rounds[1..]);
      assert next.value == [next.value[0]];
    }
  }

  /** The server's own station list is never empty, so its slow tick never
      throws, and the tick keeps both stations' identities in place. */
  lemma InitialStationsTick(d: StationDraws)
    requires ValidStationDraws(d)
    ensures TickStations(InitialStations, d).Some?
    ensures |TickStations(InitialStations, d).value| == 2
    ensures TickStations(InitialStations, d).value[0].id == "S1"
    ensures TickStations(InitialStations, d).value[1].id == "S2"
  {
  }

  /** Several slow ticks in a row; `None` once a tick throws. */
  function RunStations(stations: seq<Station>, rounds: seq<StationDraws>): (r: Option<seq<Station>>)
    requires forall k :: 0 <= k < |rounds| ==> ValidStationDraws(rounds[k])
    ensures r.Some? ==> |r.value| == |stations|
    decreases |rounds|
  {
    if |rounds| == 0 then Some(stations)
    else match TickStations(stations, rounds[0])
      case None => None
      case Some(next) => RunStations(next, rounds[1..])
  }

  /** Over a run of `k` slow ticks each station's temperature moves by at
      most `k`, and the list keeps its identities in order. */
  lemma {:induction false} RunStationsBounds(stations: seq<Station>, rounds: seq<StationDraws>)
    requires |stations| > 0
    requires forall k :: 0 <= k < |rounds| ==> ValidStationDraws(rounds[k])
    ensures RunStations(stations, rounds).Some?
    ensures forall j :: 0 <= j < |stations| ==>
      && RunStations(stations, rounds).value[j].id == stations[j].id
      && Abs(RunStations(stations, rounds).value[j].temperature - stations[j].temperature) <= |rounds|
    decreases |rounds|
  {
    if |rounds| > 0 {
      var next := TickStations(stations, rounds[0]).value;
      RunStationsBounds(next, rounds[1..]);
    }
  }
}
