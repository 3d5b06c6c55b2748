# Warehouse robot monitor: a verified model of the simulator and the dashboard arithmetic

This project models the parts of the warehouse robot monitor that compute something:

- The mock telemetry server (`server/server.js`). It runs a fast tick and a slow tick.
  - On each fast tick, every robot takes a bounded random walk. Its position stays in the 800 × 600 arena. Its temperature moves by one degree within 20..30. Its battery drains by 0–2 points within 0..100. Its carry flag sometimes flips.
  - On each slow tick, one charging station is picked. Its temperature drifts by one degree with no clamp, and its occupancy sometimes flips.
- The fleet summary on the monitor page (`RobotMonitor.tsx`). The page computes the counts and the mean battery but does not currently render them; the bands, badge and alerts are rendered on each robot's card. This covers:
  - the robot counts by carry flag and operational flag;
  - the rounded mean battery;
  - the battery-bar colour band, the status badge and the temperature alerts.
- The battery gauge drawn on each robot marker (`RobotMarker.tsx`): the clamped percentage, the bar length in pixels, the fill colour, and the marker's base colours.

The model is in five modules:

- `Wrappers`: `Option`, for absent JSON fields and for a tick that throws.
- `Arith`: `clamp`, and `Math.round` of a quotient computed exactly on integers.
- `Simulator`: `server/server.js`.
- `Dashboard`: `RobotMonitor.tsx`.
- `Marker`: `RobotMarker.tsx`.

Each `Math.random()` call becomes an explicit draw. A draw is a real in `[0, 1)`, passed in the order the source consumes it. The integer step is derived exactly as the source derives it:

- `floor(u·21) − 10` for a position delta;
- `floor(u·3)` for the battery drop;
- `u > 0.5` for the temperature coin;
- `u > 0.9` for the carry flip and `u > 0.7` for the occupancy flip;
- `floor(u·n)` for the station index.

With the draws as parameters, each tick is a total, deterministic function.

On the dashboard side, `Estado_Carga` and `Estado_Operativo` are `Option<bool>`: a message may leave either field out. Both temperatures are `Option<int>`, matching the source's `?? 0`. Battery levels and temperatures are integers.

The fleet mean is `Math.round(sum / n)`. The model computes it as `RoundDiv(sum, n) = floor((2·sum + n) / (2·n))`. `Arith.RoundDivIsRound` proves this equals `floor(sum/n + 1/2)` on the exact quotient, and that is what JavaScript's `Math.round` computes.

The bar length is `Math.round(pct / 100 * 28)`. `Marker.BatteryWidthIsRound` ties it to the real product in the same way. `Marker.BatteryWidthNoTie` shows that the product is never closer than 1/50 to a half. So floating-point error in the product cannot change the rounded bar length.

Three details of the code shape the model:

- The slow tick on an empty station list throws at `stations[idx].temperature` (`server/server.js:56`), because `stations[idx]` is undefined. `Simulator.TickStations` returns `None` for it. The server's own two-station list never reaches that case (`Simulator.InitialStationsTick`).
- The simulator and the dashboard use two separate message formats, so the model has two robot records. The mock server emits `x`, `y`, `batteryStatus` and `carryStatus` over Socket.IO (`server/server.js:47`). The dashboard reads `Posicion_X`, `Nivel_Bateria`, `Estado_Carga` and the other Spanish-named fields from `robots.data` over a plain WebSocket (`src/features/RobotMonitor/RobotMonitor.tsx:101-111`). No lemma connects `Simulator.Robot` to `Dashboard.Robot`.
- The robot record the dashboard reads has `Estado_Operativo` and `Temperatura_Motor`. The declared `Robot` interface (`src/types/robot.ts:2-11`) lacks both, and the model's record includes them.

## Model

| member | source | states |
|---|---|---|
| Arith.Clamp | server/server.js:19 | for a non-empty range the result lies in it and equals `v` when `v` is already inside; below the range it is `min`, above it `max`; on an empty range (`min > max`) it is `min` |
| Arith.ClampIsNearest | server/server.js:19 | the clamped value is a nearest point of `[min, max]` to `v` |
| Arith.ClampMonotone | server/server.js:19 | clamping preserves the order of its inputs |
| Arith.Round | src/features/RobotMonitor/RobotMonitor.tsx:171 | `Math.round(x)` is the integer `k` with `k − 1/2 ≤ x < k + 1/2` (halves go up) |
| Arith.RoundDiv | src/features/RobotMonitor/RobotMonitor.tsx:171 | the integer result is the unique `k` with `2·den·k − den ≤ 2·num < 2·den·k + den`, i.e. within half a unit of `num/den`, halves up |
| Arith.RoundDivUnique | src/features/RobotMonitor/RobotMonitor.tsx:171 | any integer within half a unit of `num/den` (halves up) is the rounded quotient |
| Arith.RoundDivIsRound | src/features/RobotMonitor/RobotMonitor.tsx:171 | the integer computation equals `Math.round` applied to the exact real quotient |
| Arith.RoundDivMonotone | src/features/RobotMonitor/RobotMonitor.tsx:171 | a larger numerator never rounds to a smaller integer |
| Simulator.RandomDelta | server/server.js:20 | `randomDelta()` returns an integer in `-10..10` for every draw in `[0, 1)` |
| Simulator.RandomDeltaCovers | server/server.js:20 | every delta in `-10..10` is produced by some draw |
| Simulator.BatteryDrop | server/server.js:42 | `Math.floor(Math.random() * 3)` is a drop of 0, 1 or 2 |
| Simulator.UnitStep | server/server.js:41 | the temperature step is `+1` exactly when the coin exceeds 0.5, else `−1` |
| Simulator.StationIndex | server/server.js:53 | the picked index is a valid position of a non-empty station list |
| Simulator.StationIndexCovers | server/server.js:53 | every station can be picked |
| Simulator.StepOf | server/server.js:39-43 | the draws give deltas in `-10..10`, a drop in `0..2`, a carry flip exactly when the flip draw exceeds 0.9, and warming exactly when the coin exceeds 0.5 |
| Simulator.Toggle | server/server.js:43 | flipping `carryStatus` always changes it |
| Simulator.MoveRobot | server/server.js:38-45 | after the tick the robot is inside `0..800 × 0..600`, its temperature is within `20..30` and its battery within `0..100`, whatever the step; it moved by the delta unless that left the arena, and, from a start inside the arena, never further than the delta; an in-range temperature moved one unit towards the coin's side or was held at that bound; an in-range battery did not rise and fell by at most the drop; the carry flag changed exactly on a flip; `id` and `status` are kept |
| Simulator.TickRobots | server/server.js:37-45 | the fast tick keeps the list's length and order; every robot ends in range with its `id` and `status`; its carry flag changed exactly when its flip draw exceeded 0.9; an in-range battery fell by at most 2 and did not rise |
| Simulator.RunRobots | server/server.js:37-50 | repeated fast ticks keep the fleet's length |
| Simulator.RunRobotsBounds | server/server.js:37-50 | after `k` fast ticks from in-range readings every robot is still in range with the same `id`, and its battery has not risen and has fallen by at most `2k` |
| Simulator.InitialRobotsInRange | server/server.js:9-12 | the server's initial robots start in range |
| Simulator.ToggleOccupancy | server/server.js:57 | flipping the station status always changes it |
| Simulator.DriftStation | server/server.js:54-58 | the picked station keeps its `id` and position; its temperature changes by exactly one degree, upwards exactly when the coin exceeds 0.5, unclamped; its status changes exactly when the flip draw exceeds 0.7 |
| Simulator.TickStations | server/server.js:52-58 | on an empty list the tick fails; otherwise only the picked entry changes, and its temperature moves by exactly ±1, and its status flips exactly when the draw exceeds 0.7 |
| Simulator.InitialStationsTick | server/server.js:14-17 | a slow tick on the server's initial two-station list never throws, for any draws |
| Simulator.RunStations | server/server.js:52-60 | repeated slow ticks keep the list's length |
| Simulator.StationDriftUnbounded | server/server.js:56 | station temperature has no clamp: `k` warm coins on one station raise it by exactly `k` |
| Simulator.RunStationsBounds | server/server.js:52-60 | on a non-empty list `k` slow ticks never fail, keep every station's `id` in place and move each temperature by at most `k` |
| Dashboard.CountIs | src/features/RobotMonitor/RobotMonitor.tsx:164-167 | a filtered count never exceeds the fleet size, and is zero exactly when no robot matches |
| Dashboard.CountIsPositions | src/features/RobotMonitor/RobotMonitor.tsx:164-167 | each filtered count is the number of positions in the fleet whose flag matches |
| Dashboard.CountsPartition | src/features/RobotMonitor/RobotMonitor.tsx:164-167 | the robots with a true flag, with a false flag and without the flag together make up the fleet |
| Dashboard.NoneAbsent | src/features/RobotMonitor/RobotMonitor.tsx:164-167 | when every robot has the counted flag, no robot is outside its true/false counts, whatever the other flag is |
| Dashboard.Summarize | src/features/RobotMonitor/RobotMonitor.tsx:163-171 | `activeCount` is the fleet size; carrying plus not carrying and charging plus not charging never exceed it; carrying plus not carrying equals it when every robot has `Estado_Carga`, and charging plus not charging equals it when every robot has `Estado_Operativo`, each pair needing only its own flag; `chargingCount` counts exactly the robots whose `Estado_Operativo` is false; `notChargingCount` counts exactly those whose flag is true, and likewise `carryingCount` and `notCarryingCount` count exactly the robots whose `Estado_Carga` is true or false; `avgBattery` is 0 for an empty fleet and within `0..100` when every battery is |
| Dashboard.AvgBattery | src/features/RobotMonitor/RobotMonitor.tsx:168-171 | 0 for an empty fleet; otherwise the mean battery rounded to the nearest integer, halves up, where the total is `BatterySum`, the left-to-right sum of the battery readings |
| Dashboard.BatterySumWithin | src/features/RobotMonitor/RobotMonitor.tsx:171 | the sum of `n` batteries within `lo..hi` lies within `n·lo .. n·hi` |
| Dashboard.AvgBatteryWithin | src/features/RobotMonitor/RobotMonitor.tsx:171 | the mean of a non-empty fleet lies between any lower and upper bound of its batteries, so between its minimum and maximum |
| Dashboard.AvgBatteryPercent | src/features/RobotMonitor/RobotMonitor.tsx:171 | batteries within `0..100` average to a value within `0..100` |
| Dashboard.AvgBatteryUniform | src/features/RobotMonitor/RobotMonitor.tsx:171 | a fleet whose batteries are all equal averages to that value |
| Dashboard.BatteryBand | src/features/RobotMonitor/RobotMonitor.tsx:382-386 | the bar is green exactly above 50, amber exactly in `21..50`, red exactly at 20 or below; the bands are disjoint and cover every level |
| Dashboard.BatteryBandMonotone | src/features/RobotMonitor/RobotMonitor.tsx:382-386 | a fuller battery never shows a worse band |
| Dashboard.StatusBadge | src/features/RobotMonitor/RobotMonitor.tsx:363-367 | the badge reads 'Operativo' in green exactly when `Estado_Operativo` is true, and 'En carga' in amber otherwise, an absent flag included |
| Dashboard.InChargeBadges | src/features/RobotMonitor/RobotMonitor.tsx:166 | the number of 'En carga' badges equals `chargingCount` plus the robots whose `Estado_Operativo` is absent |
| Dashboard.BatteryTempAlert | src/features/RobotMonitor/RobotMonitor.tsx:415 | the battery temperature turns red exactly when it is present and above 60; an absent reading never alerts |
| Dashboard.MotorTempAlert | src/features/RobotMonitor/RobotMonitor.tsx:431 | the motor temperature turns red exactly when it is present and above 80; an absent reading never alerts |
| Dashboard.TempAlertsMonotone | src/features/RobotMonitor/RobotMonitor.tsx:415-431 | a hotter reading never clears either alert, and a reading above the motor limit is also above the battery limit |
| Marker.BaseColor | src/features/RobotMonitor/components/RobotMarker.tsx:13-14 | the marker is green exactly when `Estado_Carga` is true, blue otherwise, an absent flag included |
| Marker.CarryingMarkersCount | src/features/RobotMonitor/components/RobotMarker.tsx:13-14 | the number of green markers on the map equals the page's `carryingCount`, since both test `Estado_Carga === true` |
| Marker.BatteryPct | src/features/RobotMonitor/components/RobotMarker.tsx:16 | the percentage lies in `0..100` for every reading and equals the reading when it is already in range |
| Marker.BatteryWidth | src/features/RobotMonitor/components/RobotMarker.tsx:17 | the bar is the nearest whole pixel to `pct`% of 28; within `0..28` for percentages; 0 at 0% and 28 at 100%; empty exactly below 2% and full exactly from 99% |
| Marker.BatteryWidthIsRound | src/features/RobotMonitor/components/RobotMarker.tsx:17 | the integer bar length equals `Math.round` of the exact `pct / 100 * 28` |
| Marker.BatteryWidthNoTie | src/features/RobotMonitor/components/RobotMarker.tsx:17 | `pct / 100 * 28` is never closer than 1/50 to a half for an integer `pct`, so the rounding direction is never in doubt |
| Marker.BatteryWidthMonotone | src/features/RobotMonitor/components/RobotMarker.tsx:17 | a larger percentage never draws a shorter bar |
| Marker.GaugeFill | src/features/RobotMonitor/components/RobotMarker.tsx:39 | the fill is green (`#a6f3a6`) exactly when the percentage exceeds 30, and light red (`#ffb3b3`) otherwise |
| Marker.GaugeOf | src/features/RobotMonitor/components/RobotMarker.tsx:16-39 | the gauge's percentage lies in `0..100` and its bar in `0..28`; the fill is green exactly when the raw reading exceeds 30; readings at or below 0 draw no bar and readings at or above 100 draw a full bar |
| Marker.GaugeAgreesWithCard | src/features/RobotMonitor/components/RobotMarker.tsx:39 | a green card bar comes with a green gauge, and a green gauge never comes with a red card bar; readings in `21..30` show an amber card bar over a red gauge |

## Left out

- Socket.IO and WebSocket transport: the server's connection handlers, the emitted `robotUpdate` and `chargingStationUpdate` events, and the monitor page's WebSocket effect. These are I/O with no computation. The emitted values are the records the ticks return.
- Timer scheduling (the 1 s and 5 s `setInterval` periods). One tick is one function application; cadence and interleaving are not modelled.
- `Math.random` itself. Draws are parameters assumed to lie in `[0, 1)`; nothing is said about their distribution beyond the covering lemmas.
- Floating-point arithmetic. Draws are exact reals, readings are integers, and rounding is exact. `Marker.BatteryWidthNoTie` shows why the bar length is unaffected by this.
- A battery reading that is absent or non-numeric. `Number(...)` would yield `NaN`, which the integer model excludes.
- Values of `carryStatus` or the station `status` other than the two strings the server uses. The toggles map any other string to `'carrying'` or `'occupied'`, which the two-valued datatypes do not represent.
- Rendering: SVG/JSX layout, the position text, the warehouse zones, the charging-station component (which reads `Posicion_X`, `Posicion_Y` and `Estado === true` as its `occupied` flag), and the statistics page (which repeats the `avgBattery` formula modelled here).
- Routing (`App.tsx`) and the type declarations (`types/robot.ts`). The declarations do not match the fields the code reads, so the records here follow the code.
- Dashboard.Robot: flag values other than true, false or absent/null are not represented; a truthy or falsy non-boolean (such as `0` or `""`) would split the badge from the counts, since the counts test `=== true` / `=== false` and the badge tests truthiness.
