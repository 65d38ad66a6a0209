/** The simulation's objects and their per-tick updates: traffic lights,
    vehicles, lanes and the simulation that owns them. Every object whose
    fields change from tick to tick is a class here; the pure specifications
    they are proved against live in LightCycle and Kinematics. */
module Traffic {
  import opened LightCycle
  import opened Kinematics

  datatype VehicleType = Car | Bus | Truck | Motorcycle

  /** The vehicle type with the given enumerator value (CAR = 0 ... MOTORCYCLE = 3). */
  function KindOf(i: int): VehicleType
    requires 0 <= i <= 3
  {
    if i == 0 then Car else if i == 1 then Bus else if i == 2 then Truck else Motorcycle
  }

  function Ordinal(k: VehicleType): int {
    match k
    case Car => 0
    case Bus => 1
    case Truck => 2
    case Motorcycle => 3
  }

  /** Drawing a type index in 0..3 reaches every vehicle type exactly once. */
  lemma KindOfIsOrdinalInverse(i: int, k: VehicleType)
    requires 0 <= i <= 3
    ensures Ordinal(KindOf(i)) == i
    ensures KindOf(Ordinal(k)) == k
  {
  }

  /** No entry occurs twice (stated from the back, one entry at a time). */
  predicate Distinct<T(==)>(s: seq<T>)
    decreases |s|
  {
    s == [] || (s[|s| - 1] !in s[..|s| - 1] && Distinct(s[..|s| - 1]))
  }

  /** In a duplicate-free sequence an entry occurs neither before nor after
      its own index. */
  lemma {:induction false} DistinctAt<T>(s: seq<T>, n: int)
    requires Distinct(s) && 0 <= n < |s|
    ensures forall k :: 0 <= k < |s| && k != n ==> s[k] != s[n]
    decreases |s|
  {
    var m := |s| - 1;
    var init := s[..m];
    if n < m {
      DistinctAt(init, n);
      assert s[n] in init;
    }
    forall k | 0 <= k < |s| && k != n
      ensures s[k] != s[n]
    {
      if k == m {
        assert s[n] in init;
      } else if n == m {
        assert s[k] in init;
      } else {
        assert s[k] == init[k] && s[n] == init[n];
      }
    }
  }

  /** A duplicate-free sequence holds different entries at any two indices. */
  lemma DistinctIndices<T>(s: seq<T>)
    requires Distinct(s)
    ensures forall j, k :: 0 <= j < |s| && 0 <= k < |s| && j != k ==> s[j] != s[k]
  {
    forall n | 0 <= n < |s| {
      DistinctAt(s, n);
    }
  }

  /** a can be obtained from b by deleting elements, keeping the order. */
  ghost predicate IsSubsequence<T>(a: seq<T>, b: seq<T>)
    decreases |b|
  {
    if a == [] then true
    else if b == [] then false
    else if a[|a| - 1] == b[|b| - 1] then IsSubsequence(a[..|a| - 1], b[..|b| - 1])
    else IsSubsequence(a, b[..|b| - 1])
  }

  class TrafficLight {
    var state: LightState
    const greenTime: int
    const yellowTime: int
    const redTime: int
    var timer: int

    function Config(): Durations {
      Durations(greenTime, yellowTime, redTime)
    }

    function Current(): Phase
      reads this
    {
      Phase(state, timer)
    }

    /** A new light is RED with its timer at 0. */
    constructor (g: int, y: int, r: int)
      ensures Config() == Durations(g, y, r)
      ensures Current() == Phase(Red, 0)
    {
      state := LightState.Red;
      greenTime, yellowTime, redTime := g, y, r;
      timer := 0;
    }

    method Update(step: int)
      modifies this
      ensures Current() == Tick(Config(), old(Current()), step)
    {
      timer := timer + step;
      match state
      case Green =>
        if timer >= greenTime {
          state := Yellow;
          timer := 0;
        }
      case Yellow =>
        if timer >= yellowTime {
          state := LightState.Red;
          timer := 0;
        }
      case Red =>
        if timer >= redTime {
          state := Green;
          timer := 0;
        }
    }
  }

  class Vehicle {
    const id: int
    const kind: VehicleType
    var speed: real
    var position: real
    var currentLane: Lane?

    function Dynamics(): Motion
      reads this
    {
      Motion(speed, position)
    }

    /** A new vehicle stands at the start of no lane yet. */
    constructor (id: int, kind: VehicleType, speed: real)
      ensures this.id == id && this.kind == kind
      ensures Dynamics() == Motion(speed, 0.0) && currentLane == null
    {
      this.id, this.kind := id, kind;
      this.speed, position := speed, 0.0;
      currentLane := null;
    }

    /** One tick of motion under the colour its lane's light shows now; a
        vehicle on no lane does not move. */
    method Move(step: real)
      modifies this
      ensures currentLane == old(currentLane)
      ensures currentLane == null ==> Dynamics() == old(Dynamics())
      ensures currentLane != null ==>
                Dynamics() == Advance(currentLane.light.state, currentLane.length, old(Dynamics()), step)
    {
      if currentLane == null {
        return;
      }
      var mps := speed * 1000.0 / 3600.0;
      var nextPos := position + mps * step;
      var light := currentLane.light;
      if light.state != Green && position < currentLane.length - 10.0 && nextPos >= currentLane.length - 10.0 {
        speed := 0.0;
        return;
      }
      position := nextPos;
    }
  }

  /** The entries of vs whose position (ps, index for index) is still short
      of the given length, in their order: the ordered filter behind a lane's
      erase-while-iterating loop. */
  function Kept<T>(vs: seq<T>, ps: seq<real>, length: real): seq<T>
    requires |ps| == |vs|
    decreases |vs|
  {
    if vs == [] then []
    else
      var n := |vs| - 1;
      Kept(vs[..n], ps[..n], length) + if ps[n] < length then [vs[n]] else []
  }

  /** The list during the erase loop: the decided prefix, then the undecided
      suffix starting at entry n. */
  lemma SplitAt<T>(kept: seq<T>, s: seq<T>, n: int)
    requires 0 <= n < |s|
    ensures (kept + s[n..])[|kept|] == s[n]
    ensures (kept + s[n..])[..|kept|] == kept
    ensures (kept + s[n..])[|kept| + 1..] == s[n + 1..]
  {
  }

  /** Deciding one more entry extends the filtered prefix by it or by nothing. */
  lemma KeptSnoc<T>(vs: seq<T>, ps: seq<real>, p: real, n: int, length: real)
    requires 0 <= n < |vs| && |ps| == n
    ensures Kept(vs[..n + 1], ps + [p], length) == Kept(vs[..n], ps, length) + if p < length then [vs[n]] else []
  {
    assert vs[..n + 1][..n] == vs[..n];
    assert (ps + [p])[..n] == ps;
  }

  /** Of a duplicate-free sequence, Kept keeps exactly the entries whose
      position is short of the length, keeps them in their order, and adds
      nothing. */
  lemma {:induction false} KeptMembers<T>(vs: seq<T>, ps: seq<real>, length: real)
    requires |ps| == |vs| && Distinct(vs)
    ensures forall x :: x in Kept(vs, ps, length) ==> x in vs
    ensures forall k :: 0 <= k < |vs| ==> (vs[k] in Kept(vs, ps, length) <==> ps[k] < length)
    ensures Distinct(Kept(vs, ps, length))
    ensures IsSubsequence(Kept(vs, ps, length), vs)
    decreases |vs|
  {
    if vs != [] {
      var n := |vs| - 1;
      var init := vs[..n];
      assert Distinct(init);
      KeptMembers(init, ps[..n], length);
      var r := Kept(vs, ps, length);
      var r0 := Kept(init, ps[..n], length);
      assert vs[n] !in init;
      assert vs[n] !in r0;
      forall k | 0 <= k < |vs|
        ensures vs[k] in r <==> ps[k] < length
      {
        if k < n {
          assert vs[k] == init[k] && ps[k] == ps[..n][k];
          assert vs[k] != vs[n];
        }
      }
      if ps[n] < length {
        assert r[..|r| - 1] == r0 && r[|r| - 1] == vs[n];
      } else {
        assert r == r0;
        if r != [] {
          assert r[|r| - 1] in init;
        }
      }
    }
  }

  function Motions(vs: seq<Vehicle>): (ms: seq<Motion>)
    reads vs
    ensures |ms| == |vs| && forall k {:trigger ms[k]} :: 0 <= k < |vs| ==> ms[k] == vs[k].Dynamics()
  {
    seq(|vs|, k requires 0 <= k < |vs| reads vs => vs[k].Dynamics())
  }

  function Positions(vs: seq<Vehicle>): (ps: seq<real>)
    reads vs
    ensures |ps| == |vs| && forall k :: 0 <= k < |vs| ==> ps[k] == vs[k].position
  {
    seq(|vs|, k requires 0 <= k < |vs| reads vs => vs[k].position)
  }

  /** The positions of vehicles whose motions are known. */
  lemma PositionsAre(vs: seq<Vehicle>, ms: seq<Motion>, ps: seq<real>)
    requires |vs| == |ms| == |ps|
    requires forall k {:trigger ms[k]} :: 0 <= k < |vs| ==> vs[k].Dynamics() == ms[k]
    requires forall k :: 0 <= k < |ps| ==> ps[k] == ms[k].position
    ensures Positions(vs) == ps
  {
    forall k | 0 <= k < |vs|
      ensures Positions(vs)[k] == ps[k]
    {
      assert vs[k].Dynamics() == ms[k];
    }
  }

  /** The vehicles of vs still on a lane of the given length, in their order. */
  function Survivors(vs: seq<Vehicle>, length: real): seq<Vehicle>
    reads vs
  {
    Kept(vs, Positions(vs), length)
  }

  /** After a lane update the remaining vehicles are exactly those of the old
      list that are still on the lane, in their old order and without repeats. */
  lemma SurvivorsOnLane(vs: seq<Vehicle>, length: real)
    requires Distinct(vs)
    ensures forall v :: v in Survivors(vs, length) <==> v in vs && v.position < length
    ensures Distinct(Survivors(vs, length))
    ensures IsSubsequence(Survivors(vs, length), vs)
  {
    KeptMembers(vs, Positions(vs), length);
  }

  /** A lane as one update finds it: the phase of its light, its list of
      vehicles and their motions, index for index. */
  datatype LaneView = LaneView(phase: Phase, list: seq<Vehicle>, motions: seq<Motion>)
  {
    /** The view once vehicle v, moving as m, is appended to the list. */
    function Appended(v: Vehicle, m: Motion): LaneView {
      LaneView(phase, list + [v], motions + [m])
    }
  }

  class Lane {
    const id: int
    const length: real
    const speedLimit: real
    const light: TrafficLight
    var vehicles: seq<Vehicle>
    /** The objects an update of the lane may touch: the lane, its light and
        every vehicle it has listed. */
    ghost var Repr: set<object>

    /** Every vehicle on the lane points back to it, and none is listed twice. */
    ghost predicate Valid()
      reads this, Repr
    {
      this in Repr && light in Repr &&
      (forall v :: v in vehicles ==> v in Repr && v.currentLane == this) && Distinct(vehicles)
    }

    ghost function View(): LaneView
      reads this, light, vehicles
    {
      LaneView(light.Current(), vehicles, Motions(vehicles))
    }

    /** The lane has made one update of the given step from view w: its light
        ticked once, every vehicle of w's list moved once under the light's
        new colour, and the list now holds, in order, the vehicles of w's
        list still short of the end of the lane. */
    ghost predicate UpdatedFrom(w: LaneView, step: int)
      reads this, Repr
    {
      light in Repr && |w.motions| == |w.list| && (forall v :: v in w.list ==> v in Repr) &&
      light.Current() == Tick(light.Config(), w.phase, step) &&
      (forall k :: 0 <= k < |w.list| ==> w.list[k].Dynamics() == Advance(light.state, length, w.motions[k], step as real)) &&
      vehicles == Survivors(w.list, length)
    }

    /** A new lane is empty and builds its own light, RED, with the lane
        durations 10, 3 and 7. */
    constructor (id: int, len: real, limit: real)
      ensures this.id == id && length == len && speedLimit == limit
      ensures fresh(light) && light.Config() == LaneDurations && light.Current() == Phase(Red, 0)
      ensures vehicles == [] && Valid() && fresh(Repr)
    {
      this.id, length, speedLimit := id, len, limit;
      light := new TrafficLight(10, 3, 7);
      vehicles := [];
      Repr := {this, light};
    }

    method AddVehicle(v: Vehicle)
      requires Valid() && v !in vehicles
      modifies this, v
      ensures Valid() && Repr == old(Repr) + {v}
      ensures vehicles == old(vehicles) + [v]
      ensures v.currentLane == this && v.Dynamics() == old(v.Dynamics())
      ensures View() == old(View()).Appended(v, old(v.Dynamics()))
    {
      vehicles := vehicles + [v];
      v.currentLane := this;
      Repr := Repr + {v};
      assert Motions(vehicles) == old(Motions(vehicles)) + [v.Dynamics()];
    }

    /** The light ticks first; then every vehicle moves once, in order, under
        the light's new colour, and those that reached the end of the lane are
        erased. */
    method Update(step: int)
      requires Valid()
      modifies Repr
      ensures Valid() && Repr == old(Repr)
      ensures UpdatedFrom(old(View()), step)
      ensures forall v :: v in old(vehicles) ==> v.currentLane == this
      ensures forall v :: v in vehicles ==> v in old(vehicles)
      ensures forall v: Vehicle :: v in Repr && v !in old(vehicles) ==> unchanged(v)
    {
      ghost var w := View();
      light.Update(step);
      DistinctIndices(vehicles);
      MoveVehicles(step);
      SurvivorsOnLane(w.list, length);
    }

    /** One pass of the vehicle loop at index i: the vehicle there moves;
        once it has reached the end of the lane it is erased and the next
        vehicle slides to index i, otherwise the loop steps past it. */
    method MoveAt(i: int, step: int) returns (next: int)
      requires 0 <= i < |vehicles| && vehicles[i].currentLane == this
      modifies this, vehicles[i]
      ensures Repr == old(Repr)
      ensures old(vehicles[i]).currentLane == this
      ensures old(vehicles[i]).Dynamics() == Advance(light.state, length, old(vehicles[i].Dynamics()), step as real)
      ensures next == if old(vehicles[i]).position < length then i + 1 else i
      ensures vehicles == old(vehicles[..i]) + (if old(vehicles[i]).position < length then [old(vehicles[i])] else []) + old(vehicles[i + 1..])
    {
      var v := vehicles[i];
      v.Move(step as real);
      if v.position >= length {
        vehicles := vehicles[..i] + vehicles[i + 1..];
        next := i;
      } else {
        next := i + 1;
      }
    }

    /** The vehicle loop of Update: each vehicle moves once, in order, and is
        erased from the list in place once it has reached the end of the lane. */
    method MoveVehicles(step: int)
      requires forall j, k :: 0 <= j < |vehicles| && 0 <= k < |vehicles| && j != k ==> vehicles[j] != vehicles[k]
      requires forall v :: v in vehicles ==> v.currentLane == this
      modifies this, vehicles
      ensures Repr == old(Repr)
      ensures forall k :: 0 <= k < |old(vehicles)| ==>
                old(vehicles)[k].currentLane == this &&
                old(vehicles)[k].Dynamics() == Advance(light.state, length, old(Motions(vehicles))[k], step as real)
      ensures vehicles == Survivors(old(vehicles), length)
    {
      ghost var before := vehicles;
      ghost var colour := light.state;
      ghost var m0 := Motions(before);
      ghost var cur := m0;
      ghost var ps: seq<real> := [];
      ghost var kept: seq<Vehicle> := [];
      ghost var n := 0;
      var i := 0;
      while i < |vehicles|
        invariant forall j, k :: 0 <= j < |before| && 0 <= k < |before| && j != k ==> before[j] != before[k]
        invariant 0 <= n <= |before| == |cur| == |m0| && |ps| == n && light.state == colour && Repr == old(Repr)
        invariant forall k :: 0 <= k < |before| ==> before[k].currentLane == this
        invariant forall k {:trigger cur[k]} :: 0 <= k < |before| ==> before[k].Dynamics() == cur[k]
        invariant forall k :: 0 <= k < n ==> cur[k] == Advance(colour, length, m0[k], step as real) && ps[k] == cur[k].position
        invariant forall k :: n <= k < |before| ==> cur[k] == m0[k]
        invariant kept == Kept(before[..n], ps, length)
        invariant vehicles == kept + before[n..] && i == |kept|
        decreases |before| - n
      {
        i, n, cur, ps, kept := Visit(i, step, before, m0, colour, n, cur, ps, kept);
      }
      assert before[..n] == before;
      AllMoved(before, m0, cur, ps, colour, length, step as real);
    }

    /** One pass of the vehicle loop of MoveVehicles at list index i, which
        holds entry n of the list the loop started from, together with the
        loop's record: the vehicles' motions now (cur), the positions the
        first n reached (ps) and those of them kept (kept). It is not a
        separate step of the program: it holds the proof of one iteration, so
        that the loop in MoveVehicles only has to match its contract. */
    method Visit(i: int, step: int, ghost before: seq<Vehicle>, ghost m0: seq<Motion>, ghost colour: LightState,
                 ghost n: int, ghost cur: seq<Motion>, ghost ps: seq<real>, ghost kept: seq<Vehicle>)
      returns (next: int, ghost n': int, ghost cur': seq<Motion>, ghost ps': seq<real>, ghost kept': seq<Vehicle>)
      requires 0 <= n < |before| == |cur| == |m0| && |ps| == n && light.state == colour
      requires forall j, k :: 0 <= j < |before| && 0 <= k < |before| && j != k ==> before[j] != before[k]
      requires forall k :: 0 <= k < |before| ==> before[k].currentLane == this
      requires forall k {:trigger cur[k]} :: 0 <= k < |before| ==> before[k].Dynamics() == cur[k]
      requires forall k :: 0 <= k < n ==> cur[k] == Advance(colour, length, m0[k], step as real) && ps[k] == cur[k].position
      requires forall k :: n <= k < |before| ==> cur[k] == m0[k]
      requires kept == Kept(before[..n], ps, length)
      requires vehicles == kept + before[n..] && i == |kept|
      modifies this, before[n]
      ensures n' == n + 1
      ensures 0 <= n' <= |before| == |cur'| == |m0| && |ps'| == n' && light.state == colour && Repr == old(Repr)
      ensures forall k :: 0 <= k < |before| ==> before[k].currentLane == this
      ensures forall k {:trigger cur'[k]} :: 0 <= k < |before| ==> before[k].Dynamics() == cur'[k]
      ensures forall k :: 0 <= k < n' ==> cur'[k] == Advance(colour, length, m0[k], step as real) && ps'[k] == cur'[k].position
      ensures forall k :: n' <= k < |before| ==> cur'[k] == m0[k]
      ensures kept' == Kept(before[..n'], ps', length)
      ensures vehicles == kept' + before[n'..] && next == |kept'|
    {
      SplitAt(kept, before, n);
      next := MoveAt(i, step);
      ghost var v := before[n];
      KeptSnoc(before, ps, v.position, n, length);
      kept' := kept + if v.position < length then [v] else [];
      cur' := cur[n := v.Dynamics()];
      ps' := ps + [v.position];
      n' := n + 1;
    }
  }

  /** Once the vehicle loop has visited every vehicle of the old list, what
      it kept is the list of survivors and every old vehicle has advanced by
      one tick. */
  lemma AllMoved(before: seq<Vehicle>, m0: seq<Motion>, cur: seq<Motion>, ps: seq<real>,
                 colour: LightState, length: real, step: real)
    requires |before| == |m0| == |cur| == |ps|
    requires forall k {:trigger cur[k]} :: 0 <= k < |before| ==> before[k].Dynamics() == cur[k]
    requires forall k :: 0 <= k < |before| ==> cur[k] == Advance(colour, length, m0[k], step) && ps[k] == cur[k].position
    ensures Kept(before, ps, length) == Survivors(before, length)
    ensures forall k {:trigger m0[k]} :: 0 <= k < |before| ==>
              before[k].Dynamics() == Advance(colour, length, m0[k], step)
  {
    PositionsAre(before, cur, ps);
    forall k | 0 <= k < |before|
      ensures before[k].Dynamics() == Advance(colour, length, m0[k], step)
    {
      assert before[k].Dynamics() == cur[k];
    }
  }

  /** Chance that a tick spawns a vehicle. */
  const SpawnProbability := 0.3

  /** The random draws of one tick: the spawn draw in [0, 1) and, used only
      when it spawns, a type index, a speed in km/h and a lane index. */
  datatype Draws = Draws(spawn: real, kind: int, speed: real, lane: int)

  predicate Spawns(d: Draws) {
    d.spawn < SpawnProbability
  }

  /** The ranges of the uniform distributions the draws come from. */
  predicate DrawsInRange(d: Draws, laneCount: int) {
    0.0 <= d.spawn < 1.0 &&
    (Spawns(d) ==> 0 <= d.kind <= 3 && 20.0 <= d.speed < 50.0 && 0 <= d.lane < laneCount)
  }

  /** The simulation ends once this much time has elapsed. */
  const Duration := 60

  class Simulation {
    var lanes: seq<Lane>
    var vehicles: seq<Vehicle>
    var nextId: int
    var simTime: int
    /** The objects the simulation owns: itself, its lanes with their lights
        and every vehicle it has spawned. */
    ghost var Repr: set<object>

    /** Every lane is valid and owns a footprint of its own (its light and
        its vehicles), disjoint from every other lane's; every vehicle on a
        lane was spawned by the simulation; vehicle ids are 1, 2, 3, ... in
        spawn order and nextId is the next one. */
    ghost predicate Valid()
      reads this, Repr
    {
      this in Repr &&
      (forall i :: 0 <= i < |lanes| ==> lanes[i] in Repr && lanes[i].Repr <= Repr && Owns(lanes[i]) && Spawned(lanes[i])) &&
      (forall i, j :: 0 <= i < j < |lanes| ==> lanes[i].Repr !! lanes[j].Repr) &&
      (forall v :: v in vehicles ==> v in Repr) &&
      (forall k :: 0 <= k < |vehicles| ==> vehicles[k].id == k + 1) &&
      nextId == |vehicles| + 1
    }

    /** Lane l is valid and its footprint does not hold the simulation. */
    ghost predicate Owns(l: Lane)
      reads l, l.Repr
    {
      this !in l.Repr && l.Valid()
    }

    /** Every vehicle lane l lists was spawned by the simulation. */
    ghost predicate Spawned(l: Lane)
      reads this, l
    {
      forall v :: v in l.vehicles ==> v in vehicles
    }

    /** No lane lists vehicle v: it has been erased from the lane it was on. */
    ghost predicate Unlisted(v: Vehicle)
      reads this, lanes
    {
      forall i :: 0 <= i < |lanes| ==> v !in lanes[i].vehicles
    }

    constructor ()
      ensures Valid() && fresh(Repr)
      ensures lanes == [] && vehicles == [] && nextId == 1 && simTime == 0
    {
      lanes, vehicles := [], [];
      nextId, simTime := 1, 0;
      Repr := {this};
    }

    /** Adds lane 1 (500 m, limit 50) and lane 2 (600 m, limit 40). */
    method Setup()
      requires Valid()
      modifies this
      ensures Valid() && fresh(Repr - old(Repr))
      ensures |lanes| == |old(lanes)| + 2 && lanes[..|old(lanes)|] == old(lanes)
      ensures var a, b := lanes[|lanes| - 2], lanes[|lanes| - 1];
        a.id == 1 && a.length == 500.0 && a.speedLimit == 50.0 && a.vehicles == [] &&
        b.id == 2 && b.length == 600.0 && b.speedLimit == 40.0 && b.vehicles == [] &&
        a.light.Config() == LaneDurations && a.light.Current() == Phase(Red, 0) &&
        b.light.Config() == LaneDurations && b.light.Current() == Phase(Red, 0)
      ensures vehicles == old(vehicles) && nextId == old(nextId) && simTime == old(simTime)
    {
      AddLane(1, 500.0, 50.0);
      AddLane(2, 600.0, 40.0);
    }

    /** Appends a new, empty lane with a new RED light. */
    method AddLane(id: int, len: real, limit: real)
      requires Valid()
      modifies this
      ensures Valid() && fresh(Repr - old(Repr))
      ensures |lanes| == |old(lanes)| + 1 && lanes[..|old(lanes)|] == old(lanes)
      ensures var l := lanes[|lanes| - 1];
        fresh(l) && l.id == id && l.length == len && l.speedLimit == limit && l.vehicles == [] &&
        l.light.Config() == LaneDurations && l.light.Current() == Phase(Red, 0)
      ensures vehicles == old(vehicles) && nextId == old(nextId) && simTime == old(simTime)
    {
      var l := new Lane(id, len, limit);
      lanes := lanes + [l];
      Repr := Repr + l.Repr;
    }

    /** A new vehicle with id nextId, the drawn type and speed, at position 0,
        appended to the drawn lane and to the simulation's own list. */
    method GenerateVehicle(kindDraw: int, speed: real, laneIndex: int)
      requires Valid()
      requires 0 <= kindDraw <= 3 && 0 <= laneIndex < |lanes|
      modifies this, lanes[laneIndex]
      ensures Valid() && fresh(Repr - old(Repr))
      ensures lanes == old(lanes) && simTime == old(simTime) && nextId == old(nextId) + 1
      ensures |vehicles| == |old(vehicles)| + 1 && vehicles[..|old(vehicles)|] == old(vehicles)
      ensures var v := vehicles[|vehicles| - 1];
        fresh(v) && v.id == old(nextId) && v.kind == KindOf(kindDraw) &&
        v.Dynamics() == Motion(speed, 0.0) && v.currentLane == lanes[laneIndex]
      ensures lanes[laneIndex].View() == old(lanes[laneIndex].View()).Appended(vehicles[|vehicles| - 1], Motion(speed, 0.0))
      ensures forall i :: 0 <= i < |lanes| && i != laneIndex ==> lanes[i].View() == old(lanes[i].View())
      ensures forall v :: v in old(vehicles) ==> v in vehicles && unchanged(v)
      ensures forall v :: v in old(vehicles) && old(Unlisted(v)) ==> Unlisted(v)
    {
      var v := Enlist(KindOf(kindDraw), speed);
      Board(laneIndex, v);
    }

    /** The first half of a spawn: a fresh vehicle with the next id joins the
        simulation's list, on no lane yet. */
    method Enlist(kind: VehicleType, speed: real) returns (v: Vehicle)
      requires Valid()
      modifies this
      ensures Valid() && Repr == old(Repr) + {v}
      ensures lanes == old(lanes) && simTime == old(simTime) && nextId == old(nextId) + 1
      ensures vehicles == old(vehicles) + [v]
      ensures fresh(v) && v.id == old(nextId) && v.kind == kind && v.Dynamics() == Motion(speed, 0.0)
      ensures forall i :: 0 <= i < |lanes| ==> v !in lanes[i].Repr && lanes[i].View() == old(lanes[i].View())
    {
      v := new Vehicle(nextId, kind, speed);
      nextId := nextId + 1;
      vehicles := vehicles + [v];
      Repr := Repr + {v};
    }

    /** The second half of a spawn: an enlisted vehicle that is on no lane is
        appended to lane i; no other lane and no other vehicle changes. */
    method Board(i: int, v: Vehicle)
      requires Valid() && 0 <= i < |lanes| && v in vehicles
      requires forall j :: 0 <= j < |lanes| ==> v !in lanes[j].Repr
      modifies lanes[i], v
      ensures Valid() && Repr == old(Repr)
      ensures lanes == old(lanes) && vehicles == old(vehicles) && nextId == old(nextId) && simTime == old(simTime)
      ensures v.Dynamics() == old(v.Dynamics()) && v.currentLane == lanes[i]
      ensures lanes[i].View() == old(lanes[i].View()).Appended(v, old(v.Dynamics()))
      ensures forall j :: 0 <= j < |lanes| && j != i ==> lanes[j].View() == old(lanes[j].View())
    {
      var lane := lanes[i];
      lane.AddVehicle(v);
      forall j | 0 <= j < |lanes| && j != i
        ensures lanes[j].Repr == old(lanes[j].Repr) && Owns(lanes[j]) && Spawned(lanes[j])
        ensures lanes[j].View() == old(lanes[j].View())
      {
        assert lanes[j] in old(lanes[j].Repr) && old(lanes[j].Repr) !! old(lane.Repr);
      }
    }

    /** One tick: time advances, a vehicle is spawned when the draw is below
        the spawn probability, then every lane is updated, in order, from what
        it held after the spawn. The two outcomes of the draw are proved
        separately, by SpawnTick and QuietTick. */
    method Update(step: int, d: Draws)
      requires Valid() && DrawsInRange(d, |lanes|)
      modifies Repr
      ensures Valid() && fresh(Repr - old(Repr))
      ensures lanes == old(lanes) && simTime == old(simTime) + step
      ensures !Spawns(d) ==> vehicles == old(vehicles) && nextId == old(nextId)
      ensures !Spawns(d) ==> forall i :: 0 <= i < |lanes| ==> lanes[i].UpdatedFrom(old(lanes[i].View()), step)
      ensures Spawns(d) ==>
                |vehicles| == |old(vehicles)| + 1 && vehicles[..|old(vehicles)|] == old(vehicles) &&
                nextId == old(nextId) + 1 &&
                var v := vehicles[|vehicles| - 1];
                fresh(v) && v.id == old(nextId) && v.kind == KindOf(d.kind) && v.currentLane == lanes[d.lane] &&
                lanes[d.lane].UpdatedFrom(old(lanes[d.lane].View()).Appended(v, Motion(d.speed, 0.0)), step) &&
                forall i :: 0 <= i < |lanes| && i != d.lane ==> lanes[i].UpdatedFrom(old(lanes[i].View()), step)
      ensures forall v :: v in old(vehicles) ==> v.currentLane == old(v.currentLane)
      ensures forall v :: v in old(vehicles) && old(Unlisted(v)) ==> unchanged(v)
    {
      if d.spawn < SpawnProbability {
        SpawnTick(step, d);
      } else {
        QuietTick(step);
      }
    }

    /** A tick whose draw spawns a vehicle: time advances, then the spawn
        and the lane loop. */
    method SpawnTick(step: int, d: Draws)
      requires Valid() && DrawsInRange(d, |lanes|) && Spawns(d)
      modifies Repr
      ensures Valid() && fresh(Repr - old(Repr))
      ensures lanes == old(lanes) && simTime == old(simTime) + step
      ensures |vehicles| == |old(vehicles)| + 1 && vehicles[..|old(vehicles)|] == old(vehicles) &&
                nextId == old(nextId) + 1 &&
                var v := vehicles[|vehicles| - 1];
                fresh(v) && v.id == old(nextId) && v.kind == KindOf(d.kind) && v.currentLane == lanes[d.lane] &&
                lanes[d.lane].UpdatedFrom(old(lanes[d.lane].View()).Appended(v, Motion(d.speed, 0.0)), step) &&
                forall i :: 0 <= i < |lanes| && i != d.lane ==> lanes[i].UpdatedFrom(old(lanes[i].View()), step)
      ensures forall v :: v in old(vehicles) ==> v.currentLane == old(v.currentLane)
      ensures forall v :: v in old(vehicles) && old(Unlisted(v)) ==> unchanged(v)
    {
      simTime := simTime + step;
      assert forall i :: 0 <= i < |lanes| ==> lanes[i].View() == old(lanes[i].View());
      SpawnAndUpdateLanes(step, d);
    }

    /** A vehicle is generated from the draws, then every lane is updated,
        the drawn lane from what it held with the new vehicle appended. */
    method SpawnAndUpdateLanes(step: int, d: Draws)
      requires Valid() && DrawsInRange(d, |lanes|) && Spawns(d)
      modifies Repr
      ensures Valid() && fresh(Repr - old(Repr))
      ensures lanes == old(lanes) && simTime == old(simTime)
      ensures |vehicles| == |old(vehicles)| + 1 && vehicles[..|old(vehicles)|] == old(vehicles) &&
                nextId == old(nextId) + 1 &&
                var v := vehicles[|vehicles| - 1];
                fresh(v) && v.id == old(nextId) && v.kind == KindOf(d.kind) && v.currentLane == lanes[d.lane] &&
                lanes[d.lane].UpdatedFrom(old(lanes[d.lane].View()).Appended(v, Motion(d.speed, 0.0)), step) &&
                forall i :: 0 <= i < |lanes| && i != d.lane ==> lanes[i].UpdatedFrom(old(lanes[i].View()), step)
      ensures forall v :: v in old(vehicles) ==> v.currentLane == old(v.currentLane)
      ensures forall v :: v in old(vehicles) && old(Unlisted(v)) ==> unchanged(v)
    {
      GenerateVehicle(d.kind, d.speed, d.lane);
      UpdateLanes(step);
    }

    /** A tick whose draw spawns nothing: time advances, then the lane loop. */
    method QuietTick(step: int)
      requires Valid()
      modifies Repr
      ensures Valid() && Repr == old(Repr)
      ensures lanes == old(lanes) && simTime == old(simTime) + step
      ensures vehicles == old(vehicles) && nextId == old(nextId)
      ensures forall i :: 0 <= i < |lanes| ==> lanes[i].UpdatedFrom(old(lanes[i].View()), step)
      ensures forall v :: v in old(vehicles) ==> v.currentLane == old(v.currentLane)
      ensures forall v :: v in old(vehicles) && old(Unlisted(v)) ==> unchanged(v)
    {
      simTime := simTime + step;
      UpdateLanes(step);
    }

    /** The lane loop of Update: every lane is updated once, in order. A
        vehicle listed on no lane does not move. */
    method UpdateLanes(step: int)
      requires Valid()
      modifies Repr
      ensures Valid() && Repr == old(Repr)
      ensures lanes == old(lanes) && vehicles == old(vehicles) && nextId == old(nextId) && simTime == old(simTime)
      ensures forall i :: 0 <= i < |lanes| ==> lanes[i].UpdatedFrom(old(lanes[i].View()), step)
      ensures forall v :: v in vehicles ==> v.currentLane == old(v.currentLane)
      ensures forall v :: v in vehicles && old(Unlisted(v)) ==> unchanged(v)
    {
      for i := 0 to |lanes|
        invariant Valid() && Repr == old(Repr)
        invariant lanes == old(lanes) && vehicles == old(vehicles) && nextId == old(nextId) && simTime == old(simTime)
        invariant forall j :: 0 <= j < i ==> lanes[j].UpdatedFrom(old(lanes[j].View()), step)
        invariant forall j :: i <= j < |lanes| ==> lanes[j].View() == old(lanes[j].View())
        invariant forall v :: v in vehicles ==> v.currentLane == old(v.currentLane)
        invariant forall v :: v in vehicles && old(Unlisted(v)) ==> unchanged(v)
      {
        UpdateLaneAt(i, step);
      }
    }

    /** Updates lane i; no other lane, light or vehicle changes. */
    method UpdateLaneAt(i: int, step: int)
      requires Valid() && 0 <= i < |lanes|
      modifies lanes[i].Repr
      ensures Valid()
      ensures lanes[i].UpdatedFrom(old(lanes[i].View()), step)
      ensures forall v :: v in vehicles ==> v.currentLane == old(v.currentLane)
      ensures forall v :: v in vehicles && v !in old(lanes[i].vehicles) ==> unchanged(v)
      ensures forall j :: 0 <= j < |lanes| && j != i ==> lanes[j].View() == old(lanes[j].View())
    {
      var lane := lanes[i];
      lane.Update(step);
      forall j | 0 <= j < |lanes| && j != i
        ensures lanes[j].Repr == old(lanes[j].Repr) && Owns(lanes[j]) && Spawned(lanes[j])
        ensures lanes[j].View() == old(lanes[j].View())
      {
        assert lanes[j] in old(lanes[j].Repr) && old(lanes[j].Repr) !! old(lane.Repr);
      }
      forall v | v in vehicles
        ensures v.currentLane == old(v.currentLane)
      {
        if v in old(lane.vehicles) {
          assert old(v.currentLane) == lane;
        }
      }
    }

    /** The main loop's condition: less than 60 s of simulated time has elapsed. */
    function IsRunning(): (r: bool)
      reads this
      ensures r <==> simTime < Duration
    {
      simTime < Duration
    }
  }

  /** The program's main loop with the random draws supplied up front: a new
      simulation with its two lanes is updated with step 1 while it is
      running; it stops after exactly 60 updates. */
  method Run(draws: seq<Draws>) returns (sim: Simulation, ticks: nat)
    requires |draws| >= Duration
    requires forall k :: 0 <= k < |draws| ==> DrawsInRange(draws[k], 2)
    ensures ticks == Duration && sim.simTime == Duration && !sim.IsRunning()
  {
    sim := new Simulation();
    sim.Setup();
    ticks := 0;
    while sim.IsRunning()
      invariant sim.Valid() && fresh(sim.Repr)
      invariant |sim.lanes| == 2 && sim.simTime == ticks <= Duration
      decreases Duration - ticks
    {
      sim.Update(1, draws[ticks]);
      ticks := ticks + 1;
    }
  }
}
