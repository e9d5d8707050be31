/** The development data generator that feeds the telemetry store: a bounded
    breadcrumb history, a square occupancy grid whose centre is cleared for
    the vehicle, and one store update per timer tick. Trigonometry and random
    numbers are replaced by the values a tick is given. */
module MockTelemetry {
  import opened Common
  import opened Telemetry

  /** The grid is `GridSize` by `GridSize`, stored row after row. */
  const GridSize: nat := 100
  /** The history is shifted once it holds more than this many points. */
  const PathLimit: nat := 1000

  /** The index of cell (x, y) in the flat grid. */
  function Cell(x: int, y: int): int
  {
    x + y * GridSize
  }

  /** The cleared block: columns and rows 40 to 59. */
  predicate InCentre(x: int, y: int)
  {
    40 <= x < 60 && 40 <= y < 60
  }

  /** Every flat index names exactly one cell, and back. */
  lemma CellCoordinates(x: int, y: int)
    requires 0 <= x < GridSize && 0 <= y < GridSize
    ensures 0 <= Cell(x, y) < GridSize * GridSize
    ensures Cell(x, y) % GridSize == x && Cell(x, y) / GridSize == y
  {
  }

  /** The last `k` points of `pts` (all of them when there are fewer). */
  function Recent(pts: seq<Value>, k: nat): (r: seq<Value>)
    ensures |r| == if |pts| < k then |pts| else k
  {
    if |pts| <= k then pts else pts[|pts| - k..]
  }

  /** The history after the tick that records `pt`: the shift happens
      before the push, and only when more than `PathLimit` points are held. */
  function Pushed(history: seq<Value>, pt: Value): (r: seq<Value>)
    ensures |r| >= 1 && r[|r| - 1] == pt
    ensures |history| <= PathLimit + 1 ==> |r| <= PathLimit + 1
    ensures |history| <= PathLimit ==> r == history + [pt]
  {
    (if |history| > PathLimit then history[1..] else history) + [pt]
  }

  /** Starting from an empty history, recording points one tick at a time
      keeps exactly the most recent `PathLimit + 1` of them, oldest first. */
  lemma {:induction false} PushedKeepsRecent(pts: seq<Value>, pt: Value)
    ensures Pushed(Recent(pts, PathLimit + 1), pt) == Recent(pts + [pt], PathLimit + 1)
    ensures |Recent(pts + [pt], PathLimit + 1)| <= PathLimit + 1
  {
    var h := Recent(pts, PathLimit + 1);
    var all := pts + [pt];
    if |pts| <= PathLimit {
      assert h == pts;
    } else {
      assert |h| == PathLimit + 1;
      assert h[1..] + [pt] == all[|all| - (PathLimit + 1)..];
    }
  }

  /** Set every cell of the centre block to 0 and leave the rest alone. */
  method ClearCentre(grid: array<real>)
    requires grid.Length == GridSize * GridSize
    modifies grid
    ensures forall x, y :: InCentre(x, y) ==> grid[Cell(x, y)] == 0.0
    ensures forall i :: 0 <= i < grid.Length && !InCentre(i % GridSize, i / GridSize) ==> grid[i] == old(grid[i])
  {
    for x := 40 to 60
      invariant forall x', y :: InCentre(x', y) && x' < x ==> grid[Cell(x', y)] == 0.0
      invariant forall i :: 0 <= i < grid.Length && !(InCentre(i % GridSize, i / GridSize) && i % GridSize < x) ==>
                  grid[i] == old(grid[i])
    {
      for y := 40 to 60
        invariant forall x', y' :: InCentre(x', y') && (x' < x || (x' == x && y' < y)) ==> grid[Cell(x', y')] == 0.0
        invariant forall i ::
                    (0 <= i < grid.Length &&
                     !(InCentre(i % GridSize, i / GridSize) && (i % GridSize < x || (i % GridSize == x && i / GridSize < y))))
                    ==> grid[i] == old(grid[i])
      {
        CellCoordinates(x, y);
        grid[Cell(x, y)] := 0.0;
      }
    }
  }

  /** The object a tick writes for a point of the path and for odometry. */
  function Point(x: real, y: real): Value
  {
    Obj(map["x" := Num(x), "y" := Num(y), "z" := Num(0.0)])
  }

  /** The grid as the value handed to the store: entry `i` is cell `i`. */
  function GridValue(cells: seq<real>): (v: Value)
    ensures v.Arr? && |v.items| == |cells|
    ensures forall i :: 0 <= i < |cells| ==> v.items[i] == Num(cells[i])
  {
    Arr(seq(|cells|, i requires 0 <= i < |cells| => Num(cells[i])))
  }

  /** The partial state one tick publishes. `occupancyGrid` is always a key:
      on every tick but the first ones it carries `undefined`. */
  function TickPartial(roll: real, pitch: real, yaw: real, x: real, y: real,
                       history: seq<Value>, grid: seq<real>, sendGrid: bool,
                       voltage: real, percentage: real, latency: real): (p: Partial)
    ensures |p| == 6
    ensures p[0].0 == "imu" && p[1].0 == "odometry" && p[2].0 == "path"
    ensures p[3].0 == "occupancyGrid" && p[4].0 == "battery" && p[5].0 == "latency"
    ensures p[2].1 == Arr(history)
    ensures p[3].1 == if sendGrid then GridValue(grid) else Undefined
  {
    [ ("imu", Obj(map["roll" := Num(roll), "pitch" := Num(pitch), "yaw" := Num(yaw)])),
      ("odometry", Point(x, y)),
      ("path", Arr(history)),
      ("occupancyGrid", if sendGrid then GridValue(grid) else Undefined),
      ("battery", Obj(map["voltage" := Num(voltage), "percentage" := Num(percentage)])),
      ("latency", Num(latency)) ]
  }

  /** A tick that does not send the grid overwrites the stored grid with
      `undefined`, so a consumer subscribing afterwards is not replayed a grid;
      and every tick replaces the battery object by one without `current`. */
  lemma LaterTickDropsGrid(s: map<string, Value>, roll: real, pitch: real, yaw: real, x: real, y: real,
                           history: seq<Value>, grid: seq<real>,
                           voltage: real, percentage: real, latency: real)
    ensures var r := Merge(s, TickPartial(roll, pitch, yaw, x, y, history, grid, false, voltage, percentage, latency));
            && !Truthy(Lookup(r, "occupancyGrid"))
            && Lookup(r, "path") == Arr(history)
            && Lookup(r, "battery").Obj? && "current" !in Lookup(r, "battery").fields
  {
    var p := TickPartial(roll, pitch, yaw, x, y, history, grid, false, voltage, percentage, latency);
    var r := Merge(s, p);
    var battery := Obj(map["voltage" := Num(voltage), "percentage" := Num(percentage)]);
    assert p[2] == ("path", Arr(history));
    assert p[3] == ("occupancyGrid", Undefined);
    assert p[4] == ("battery", battery);
    assert r["path"] == Arr(history);
    assert r["occupancyGrid"] == Undefined;
    assert r["battery"] == battery;
    assert "current" !in battery.fields;
  }

  class MockGenerator {
    const store: TelemetryStore
    /** `mockInterval` is set. */
    var running: bool
    var pathHistory: seq<Value>
    var grid: array<real>
    /** Every point recorded since the generator was last started. */
    ghost var recorded: seq<Value>

    ghost predicate Valid()
      reads this
    {
      && grid.Length == GridSize * GridSize
      && pathHistory == Recent(recorded, PathLimit + 1)
    }

    constructor (store: TelemetryStore)
      ensures Valid() && this.store == store && !running
    {
      this.store := store;
      running := false;
      pathHistory := [];
      recorded := [];
      grid := new real[GridSize * GridSize];
    }

    /** `startMockTelemetry`: a no-op while running; otherwise a new empty
        history and a new grid, filled from `occupied` (one random draw per
        cell) and then cleared in the centre. */
    method Start(occupied: seq<bool>)
      requires Valid() && |occupied| == GridSize * GridSize
      modifies this
      ensures Valid() && running
      ensures old(running) ==> pathHistory == old(pathHistory) && grid == old(grid)
      ensures !old(running) ==> pathHistory == [] && fresh(grid)
      ensures !old(running) ==> forall x, y :: 0 <= x < GridSize && 0 <= y < GridSize ==>
                grid[Cell(x, y)] == if InCentre(x, y) then 0.0 else if occupied[Cell(x, y)] then 1.0 else 0.0
    {
      if running {
        return;
      }
      var cells := new real[GridSize * GridSize];
      for i := 0 to cells.Length
        invariant forall j :: 0 <= j < i ==> cells[j] == if occupied[j] then 1.0 else 0.0
      {
        cells[i] := if occupied[i] then 1.0 else 0.0;
      }
      ClearCentre(cells);
      forall x, y | 0 <= x < GridSize && 0 <= y < GridSize
        ensures cells[Cell(x, y)] == if InCentre(x, y) then 0.0 else if occupied[Cell(x, y)] then 1.0 else 0.0
      {
        CellCoordinates(x, y);
      }
      recorded := [];
      pathHistory := [];
      grid := cells;
      running := true;
    }

    /** `stopMockTelemetry`. */
    method Stop()
      modifies this`running
      ensures !running
    {
      running := false;
    }

    /** Record one point, shifting the oldest out first when the history
        already holds more than `PathLimit` points. */
    method RecordPoint(pt: Value)
      requires Valid()
      modifies this`pathHistory, this`recorded
      ensures Valid()
      ensures pathHistory == Pushed(old(pathHistory), pt)
      ensures recorded == old(recorded) + [pt]
      ensures |pathHistory| <= PathLimit + 1
    {
      PushedKeepsRecent(recorded, pt);
      var history := pathHistory;
      if |history| > PathLimit {
        history := history[1..];
      }
      pathHistory := history + [pt];
      recorded := recorded + [pt];
    }

    /** One 20 ms timer tick, with the sensor values it computed. */
    method Tick(roll: real, pitch: real, yaw: real, x: real, y: real, sendGrid: bool,
                voltage: real, percentage: real, latency: real)
      requires Valid() && store.Valid() && running
      modifies this`pathHistory, this`recorded, store
      ensures Valid() && store.Valid()
      ensures pathHistory == Pushed(old(pathHistory), Point(x, y))
      ensures store.state == Merge(old(store.state), TickPartial(roll, pitch, yaw, x, y, pathHistory, grid[..], sendGrid,
                                                                 voltage, percentage, latency))
      ensures store.subscribers == old(store.subscribers)
      ensures store.trace == old(store.trace) +
                UpdateTrace(TickPartial(roll, pitch, yaw, x, y, pathHistory, grid[..], sendGrid, voltage, percentage, latency),
                            store.subscribers, store.state)
    {
      RecordPoint(Point(x, y));
      store.Update(TickPartial(roll, pitch, yaw, x, y, pathHistory, grid[..], sendGrid, voltage, percentage, latency));
    }
  }

  /** A start followed by a tick that sends the grid: the store then holds
      the generated grid, with the centre block free and every other cell
      as drawn. */
  method FirstTickSendsClearedGrid(store: TelemetryStore, occupied: seq<bool>,
                                   roll: real, pitch: real, yaw: real, x: real, y: real,
                                   voltage: real, percentage: real, latency: real)
    returns (generator: MockGenerator)
    requires store.Valid() && |occupied| == GridSize * GridSize
    modifies store
    ensures store.Valid()
    ensures var g := Lookup(store.state, "occupancyGrid");
            && g.Arr? && |g.items| == GridSize * GridSize
            && forall i, j :: 0 <= i < GridSize && 0 <= j < GridSize ==>
                 g.items[Cell(i, j)] == Num(if InCentre(i, j) then 0.0 else if occupied[Cell(i, j)] then 1.0 else 0.0)
  {
    generator := new MockGenerator(store);
    generator.Start(occupied);
    generator.Tick(roll, pitch, yaw, x, y, true, voltage, percentage, latency);
    var p := TickPartial(roll, pitch, yaw, x, y, generator.pathHistory, generator.grid[..], true,
                         voltage, percentage, latency);
    assert store.state["occupancyGrid"] == p[3].1 == GridValue(generator.grid[..]);
    forall i, j | 0 <= i < GridSize && 0 <= j < GridSize
      ensures GridValue(generator.grid[..]).items[Cell(i, j)]
              == Num(if InCentre(i, j) then 0.0 else if occupied[Cell(i, j)] then 1.0 else 0.0)
    {
      CellCoordinates(i, j);
    }
  }
}
