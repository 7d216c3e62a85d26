/** The humanoid robot orchestration of humanoid_robot.py: loading the model
    with its fixed computation-flag profile, declaring the operational
    points, initialising the robot (device and model state, the centre-of-mass
    feature pair and task, one feature and task per operational point) and
    the `HumanoidRobot` constructor that chains them.

    Values the source obtains from collaborators are parameters: the model
    parser is a function from (entity name, file name) to a model or an
    error, and the signal values read after recomputation (the centre of
    mass and each operational point's position) are functions of the model
    state at the moment they are read. */
module Robots {
  import opened Wrappers
  import opened Matrices
  import opened Naming
  import opened Entities

  /** Errors the robot code can surface. `ParseError` is whatever the model
      parser raises. `ModelsNotInitialized` stands for the failure raised
      when initialisation runs without a model; the source raises the
      undefined name `RunTimeError` there, so the exception actually seen is
      a name error, and only the fact of failing is modelled. */
  datatype Error = ParseError(reason: string) | ModelsNotInitialized

  /** The class-level list of operational points. */
  const OperationalPoints: seq<string> := ["left-wrist", "right-wrist", "left-ankle", "right-ankle"]

  /** Signal values observed when the source forces a recomputation at
      time 0: the centre of mass, and the position of an operational
      point, each as a function of the model state at that moment. */
  datatype Readings = Readings(
    com: DynamicModel -> Vector,
    point: (DynamicModel, string) -> Vector)

  /** The robot aggregate. `members` holds the attributes added with
      `setattr`, keyed by attribute name. */
  datatype Robot = Robot(
    name: string,
    filename: string,
    operationalPoints: seq<string>,
    halfSitting: Vector,
    dimension: nat,
    dynamic: Option<DynamicModel>,
    device: Option<Device>,
    featureCom: Option<FeatureGeneric>,
    featureComDes: Option<FeatureGeneric>,
    comTask: Option<Task>,
    features: map<string, FeaturePosition>,
    tasks: map<string, Task>,
    members: map<string, FeaturePosition>)

  // ---------------------------------------------------------------------
  // Model loading and its computation flags

  const ComputeVelocity := "ComputeVelocity"
  const ComputeCoM := "ComputeCoM"
  const ComputeAccelerationCoM := "ComputeAccelerationCoM"
  const ComputeMomentum := "ComputeMomentum"
  const ComputeZMP := "ComputeZMP"
  const ComputeBackwardDynamics := "ComputeBackwardDynamics"

  /** The six computation-flag property keys of the model. */
  function FlagKeys(): set<string>
  {
    {ComputeVelocity, ComputeCoM, ComputeAccelerationCoM, ComputeMomentum, ComputeZMP, ComputeBackwardDynamics}
  }

  /** The computation flags as booleans; a flag is on when its property is
      the string `"true"`. */
  datatype Flags = Flags(
    velocity: bool,
    com: bool,
    accelerationCom: bool,
    momentum: bool,
    zmp: bool,
    backwardDynamics: bool)

  function FlagOn(props: map<string, string>, key: string): bool
  {
    key in props && props[key] == "true"
  }

  function FlagsOf(props: map<string, string>): Flags
  {
    Flags(
      FlagOn(props, ComputeVelocity),
      FlagOn(props, ComputeCoM),
      FlagOn(props, ComputeAccelerationCoM),
      FlagOn(props, ComputeMomentum),
      FlagOn(props, ComputeZMP),
      FlagOn(props, ComputeBackwardDynamics))
  }

  /** The literal flag profile a kxml-loaded model carries: velocity, centre
      of mass and ZMP set to `"true"`, the other three set to `"false"`. */
  predicate KxmlProfile(props: map<string, string>)
  {
    && ComputeVelocity in props && props[ComputeVelocity] == "true"
    && ComputeCoM in props && props[ComputeCoM] == "true"
    && ComputeAccelerationCoM in props && props[ComputeAccelerationCoM] == "false"
    && ComputeMomentum in props && props[ComputeMomentum] == "false"
    && ComputeZMP in props && props[ComputeZMP] == "true"
    && ComputeBackwardDynamics in props && props[ComputeBackwardDynamics] == "false"
  }

  /** `loadModelFromKxml(name, filename)`: parse the file, then set the
      fixed flag profile. A parse failure is passed on unchanged. */
  function LoadModelFromKxml(
    name: string, filename: string,
    parse: (string, string) -> Result<DynamicModel, Error>): (res: Result<DynamicModel, Error>)
    ensures parse(name, filename).Failure? ==> res.Failure? && res.error == parse(name, filename).error
    ensures parse(name, filename).Success? ==> res.Success?
    ensures res.Success? ==>
      var m, m' := parse(name, filename).value, res.value;
      && KxmlProfile(m'.properties)
      && FlagsOf(m'.properties) == Flags(true, true, false, false, true, false)
      && m'.properties.Keys == m.properties.Keys + FlagKeys()
      && (forall k :: k in m.properties && k !in FlagKeys() ==> m'.properties[k] == m.properties[k])
      && m'.(properties := m.properties) == m
  {
    var model :- parse(name, filename);
    var model := SetProperty(model, ComputeVelocity, "true");
    var model := SetProperty(model, ComputeCoM, "true");
    var model := SetProperty(model, ComputeAccelerationCoM, "false");
    var model := SetProperty(model, ComputeMomentum, "false");
    var model := SetProperty(model, ComputeZMP, "true");
    var model := SetProperty(model, ComputeBackwardDynamics, "false");
    Success(model)
  }

  // ---------------------------------------------------------------------
  // Operational points

  /** `initializeOpPoints(model, prefix)`: one `createOpPoint(op, op)` per
      operational point, in order. The prefix is not used. */
  function InitializeOpPoints(m: DynamicModel, ops: seq<string>, prefix: string): (m': DynamicModel)
    ensures |m'.opPoints| == |m.opPoints| + |ops|
    ensures m'.opPoints[..|m.opPoints|] == m.opPoints
    ensures forall i :: 0 <= i < |ops| ==> m'.opPoints[|m.opPoints| + i] == OpPoint(ops[i], ops[i])
    ensures m'.(opPoints := m.opPoints) == m
    decreases |ops|
  {
    if |ops| == 0 then m
    else InitializeOpPoints(CreateOpPoint(m, ops[0], ops[0]), ops[1..], prefix)
  }

  /** After declaring the operational points, the model exposes a position
      signal named `op` and a Jacobian signal named `"J" + op` for every
      point, on top of the signals it had, and no others. */
  lemma OpPointSignals(m: DynamicModel, ops: seq<string>, prefix: string)
    ensures PositionSignals(InitializeOpPoints(m, ops, prefix)) == PositionSignals(m) + set op | op in ops
    ensures JacobianSignals(InitializeOpPoints(m, ops, prefix)) == JacobianSignals(m) + set op | op in ops :: JacobianSignal(op)
  {
    var m' := InitializeOpPoints(m, ops, prefix);
    var n := |m.opPoints|;
    assert forall p :: p in m'.opPoints <==> p in m.opPoints || exists i :: 0 <= i < |ops| && p == OpPoint(ops[i], ops[i]) by {
      forall p
        ensures p in m'.opPoints <==> p in m.opPoints || exists i :: 0 <= i < |ops| && p == OpPoint(ops[i], ops[i])
      {
        if p in m'.opPoints {
          var j :| 0 <= j < |m'.opPoints| && m'.opPoints[j] == p;
          if j < n {
            assert m'.opPoints[..n][j] == p;
          } else {
            assert p == OpPoint(ops[j - n], ops[j - n]);
          }
        }
        if p in m.opPoints {
          var j :| 0 <= j < n && m.opPoints[j] == p;
          assert m'.opPoints[..n][j] == p;
        }
        if exists i :: 0 <= i < |ops| && p == OpPoint(ops[i], ops[i]) {
          var i :| 0 <= i < |ops| && p == OpPoint(ops[i], ops[i]);
          assert m'.opPoints[n + i] == p;
        }
      }
    }
    forall op | op in ops
      ensures op in PositionSignals(m') && JacobianSignal(op) in JacobianSignals(m')
    {
      var i :| 0 <= i < |ops| && ops[i] == op;
      assert OpPoint(ops[i], ops[i]) in m'.opPoints;
    }
  }

  /** The prefix argument has no influence on the result. */
  lemma {:induction false} OpPointsIgnorePrefix(m: DynamicModel, ops: seq<string>, p: string, q: string)
    ensures InitializeOpPoints(m, ops, p) == InitializeOpPoints(m, ops, q)
    decreases |ops|
  {
    if |ops| > 0 {
      OpPointsIgnorePrefix(CreateOpPoint(m, ops[0], ops[0]), ops[1..], p, q);
    }
  }

  // ---------------------------------------------------------------------
  // Features and tasks

  /** Character `axis` of a selection mask, counted from the left, is
      `'1'`. Read left to right, that component of the error takes part in
      the task; the feature's own bit order is not part of this model. */
  predicate Selected(mask: string, axis: nat)
  {
    axis < |mask| && mask[axis] == '1'
  }

  /** Feature for operational point `op`: tracks the model's `op` signal
      with Jacobian `"J" + op`, towards the value read at creation time. */
  function PointFeature(name: string, dyn: DynamicModel, readings: Readings, op: string): FeaturePosition
  {
    FeaturePosition(
      name + ".feature." + op,
      Plugged(dyn.name, op),
      Plugged(dyn.name, JacobianSignal(op)),
      readings.point(dyn, op))
  }

  /** Task for operational point `op`, holding its feature with gain 0.2. */
  function PointTask(name: string, op: string): Task
  {
    SetGain(AddFeature(NewTask(name + ".task." + op), name + ".feature." + op), 0.2)
  }

  /** Distinct operational points get distinct member names. */
  ghost predicate DistinctMembers(ops: seq<string>)
  {
    forall i, j :: 0 <= i < |ops| && 0 <= j < |ops| && ops[i] != ops[j] ==> MemberName(ops[i]) != MemberName(ops[j])
  }

  /** The feature and task maps built by the operational-point loop, and the
      attributes it sets. */
  datatype OpTables = OpTables(
    features: map<string, FeaturePosition>,
    tasks: map<string, Task>,
    members: map<string, FeaturePosition>)

  /** The loop over the operational points: fresh feature and task maps,
      one entry per point, and one attribute per point added to `members0`
      (later points overwrite earlier attributes of the same name). */
  function BuildOpTasks(
    name: string, dyn: DynamicModel, readings: Readings,
    ops: seq<string>, members0: map<string, FeaturePosition>): (out: OpTables)
    ensures forall op :: op in out.features <==> op in ops
    ensures forall op :: op in out.tasks <==> op in ops
    ensures forall op :: op in ops ==> out.features[op] == PointFeature(name, dyn, readings, op)
    ensures forall op :: op in ops ==> out.tasks[op] == PointTask(name, op)
    ensures forall op :: op in ops ==> MemberName(op) in out.members
    ensures forall m :: m in members0 ==> m in out.members
    ensures forall m :: m in out.members && m !in members0 ==> IsMemberOf(m, ops)
    ensures forall m :: m in members0 && !IsMemberOf(m, ops) ==> out.members[m] == members0[m]
    decreases |ops|
  {
    if |ops| == 0 then OpTables(map[], map[], members0)
    else
      var init := ops[..|ops| - 1];
      var op := ops[|ops| - 1];
      var prev := BuildOpTasks(name, dyn, readings, init, members0);
      var f := PointFeature(name, dyn, readings, op);
      var out := OpTables(
        prev.features[op := f],
        prev.tasks[op := PointTask(name, op)],
        prev.members[MemberName(op) := f]);
      BuildOpTasksStep(ops, init, op);
      out
  }

  /** When distinct points have distinct member names, each point's
      attribute is that point's feature. */
  lemma {:induction false} MembersAreFeatures(
    name: string, dyn: DynamicModel, readings: Readings,
    ops: seq<string>, members0: map<string, FeaturePosition>)
    requires DistinctMembers(ops)
    ensures var out := BuildOpTasks(name, dyn, readings, ops, members0);
      forall op :: op in ops ==> out.members[MemberName(op)] == out.features[op]
    decreases |ops|
  {
    if |ops| > 0 {
      var init, op := ops[..|ops| - 1], ops[|ops| - 1];
      DistinctMembersStep(ops);
      MembersAreFeatures(name, dyn, readings, init, members0);
      var prev := BuildOpTasks(name, dyn, readings, init, members0);
      var out := BuildOpTasks(name, dyn, readings, ops, members0);
      LastPoint(ops);
      UpdatePreservesAgreement(prev.members, prev.features, init, op,
                               PointFeature(name, dyn, readings, op), MemberName);
    }
  }

  /** Distinct member names survive dropping the last point, which shares
      its member name with no other point. */
  lemma DistinctMembersStep(ops: seq<string>)
    requires |ops| > 0 && DistinctMembers(ops)
    ensures DistinctMembers(ops[..|ops| - 1])
    ensures forall x :: x in ops[..|ops| - 1] && x != ops[|ops| - 1] ==> MemberName(x) != MemberName(ops[|ops| - 1])
  {
  }

  /** Setting the attribute `key(op)` and the feature `op` to the same
      value keeps every earlier point's attribute equal to its feature,
      provided no earlier point shares `op`'s attribute name. */
  lemma UpdatePreservesAgreement(
    members: map<string, FeaturePosition>, features: map<string, FeaturePosition>,
    init: seq<string>, op: string, f: FeaturePosition, key: string -> string)
    requires forall x :: x in init ==> key(x) in members && x in features
    requires forall x :: x in init ==> members[key(x)] == features[x]
    requires forall x :: x in init && x != op ==> key(x) != key(op)
    ensures forall x :: x in init || x == op ==> members[key(op) := f][key(x)] == features[op := f][x]
  {
  }

  /** A point of a non-empty list is the last one or one before it. */
  lemma LastPoint(ops: seq<string>)
    requires |ops| > 0
    ensures forall x :: x in ops <==> x in ops[..|ops| - 1] || x == ops[|ops| - 1]
  {
    assert ops == ops[..|ops| - 1] + [ops[|ops| - 1]];
  }

  /** `m` is the member name of some operational point of `ops`. */
  ghost predicate IsMemberOf(m: string, ops: seq<string>)
  {
    exists op :: op in ops && MemberName(op) == m
  }

  lemma BuildOpTasksStep(ops: seq<string>, init: seq<string>, op: string)
    requires |ops| > 0 && init == ops[..|ops| - 1] && op == ops[|ops| - 1]
    ensures forall x :: x in ops <==> x in init || x == op
    ensures forall m :: IsMemberOf(m, ops) <==> IsMemberOf(m, init) || m == MemberName(op)
    ensures DistinctMembers(ops) ==> DistinctMembers(init)
    ensures DistinctMembers(ops) ==> forall x :: x in init && MemberName(x) == MemberName(op) ==> x == op
  {
    assert ops == init + [op];
  }

  // ---------------------------------------------------------------------
  // Initialisation

  /** `initializeRobot()`: fails without a model; otherwise creates a
      device if there is none, puts device and model at half-sitting with
      zero velocity and acceleration, declares the operational points, and
      builds the centre-of-mass feature pair and task and one feature and
      task per operational point. What holds after a successful call is
      stated by the `InitializeRobot...` lemmas below. */
  function InitializeRobot(r: Robot, readings: Readings): (res: Result<Robot, Error>)
    ensures r.dynamic.None? <==> res.Failure?
    ensures res.Failure? ==> res.error == ModelsNotInitialized
    ensures res.Success? ==> KeepsIdentity(r, res.value)
  {
    if r.dynamic.None? then Failure(ModelsNotInitialized)
    else
      var device := SetState(if r.device.None? then NewDevice(r.name + ".device") else r.device.value, r.halfSitting);
      var dyn := PrepareModel(r);
      var featureComDes := NewFeatureGeneric(r.name + ".feature.ref.com").(errorIn := Literal(readings.com(dyn)));
      var featureCom := NewFeatureGeneric(r.name + ".feature.com").(
        errorIn := Plugged(dyn.name, "com"),
        jacobianIn := Plugged(dyn.name, "Jcom"),
        selec := Some("011"),
        sdes := Some(featureComDes));
      var comTask := SetGain(AddFeature(NewTask(r.name + ".task.com"), r.name + ".feature.com"), 1.0);
      var tables := BuildOpTasks(r.name, dyn, readings, r.operationalPoints, r.members);
      Success(r.(
        device := Some(device),
        dynamic := Some(dyn),
        featureCom := Some(featureCom),
        featureComDes := Some(featureComDes),
        comTask := Some(comTask),
        features := tables.features,
        tasks := tables.tasks,
        members := tables.members))
  }

  /** Steps 2 and 3 of the initialisation on the model: half-sitting
      position, zero velocity and acceleration, then the operational
      points. */
  function PrepareModel(r: Robot): DynamicModel
    requires r.dynamic.Some?
  {
    var reset := r.dynamic.value.(
      position := r.halfSitting,
      velocity := Zeros(r.dimension),
      acceleration := Zeros(r.dimension));
    InitializeOpPoints(reset, r.operationalPoints, r.name + ".dynamics")
  }

  /** Name, file, operational-point list, half-sitting posture and
      dimension are left as they were. */
  ghost predicate KeepsIdentity(r: Robot, r': Robot)
  {
    && r'.name == r.name
    && r'.filename == r.filename
    && r'.operationalPoints == r.operationalPoints
    && r'.halfSitting == r.halfSitting
    && r'.dimension == r.dimension
  }

  /** The device exists and holds the half-sitting posture; a device is
      created, named after the robot, only when there was none, and an
      existing one keeps its name. */
  lemma InitializeRobotDevice(r: Robot, readings: Readings)
    requires r.dynamic.Some?
    ensures var r' := InitializeRobot(r, readings).value;
      && r'.device.Some?
      && r'.device.value.state == r.halfSitting
      && (r.device.None? ==> r'.device.value == Device(r.name + ".device", r.halfSitting))
      && (r.device.Some? ==> r'.device.value.name == r.device.value.name)
  {
  }

  /** The model keeps its name, dimension and properties; its position is
      the half-sitting posture, its velocity and acceleration are all zero
      with `dimension` entries, and it exposes the position and Jacobian
      signals of every operational point besides those it had. */
  lemma InitializeRobotModel(r: Robot, readings: Readings)
    requires r.dynamic.Some?
    ensures var d, d' := r.dynamic.value, InitializeRobot(r, readings).value.dynamic;
      && d'.Some?
      && d'.value.name == d.name
      && d'.value.dimension == d.dimension
      && d'.value.properties == d.properties
      && d'.value.position == r.halfSitting
      && |d'.value.velocity| == r.dimension
      && (forall j :: 0 <= j < |d'.value.velocity| ==> d'.value.velocity[j] == 0.0)
      && |d'.value.acceleration| == r.dimension
      && (forall j :: 0 <= j < |d'.value.acceleration| ==> d'.value.acceleration[j] == 0.0)
      && PositionSignals(d'.value) == PositionSignals(d) + (set op | op in r.operationalPoints)
      && JacobianSignals(d'.value) == JacobianSignals(d) + (set op | op in r.operationalPoints :: JacobianSignal(op))
  {
    var d := r.dynamic.value;
    var reset := d.(position := r.halfSitting, velocity := Zeros(r.dimension), acceleration := Zeros(r.dimension));
    OpPointSignals(reset, r.operationalPoints, r.name + ".dynamics");
    assert PositionSignals(reset) == PositionSignals(d);
    assert JacobianSignals(reset) == JacobianSignals(d);
  }

  /** When the half-sitting posture has `dimension` entries, the model's
      position, velocity and acceleration all have that many. */
  lemma InitializeRobotDimensions(r: Robot, readings: Readings)
    requires r.dynamic.Some? && |r.halfSitting| == r.dimension
    ensures var d := InitializeRobot(r, readings).value.dynamic.value;
      |d.position| == |d.velocity| == |d.acceleration| == r.dimension
  {
    InitializeRobotModel(r, readings);
  }

  /** The centre-of-mass feature reads the model's `com` and `Jcom`
      signals and has the selection mask `"011"`. The `Selected` conjunct
      adds only the assumed left-to-right reading of that mask (components
      1 and 2); the order the feature really applies is not modelled. The
      feature tracks a desired feature whose error is the centre of mass read after
      the model was reset; its task has that feature alone and gain 1. */
  lemma InitializeRobotComTask(r: Robot, readings: Readings)
    requires r.dynamic.Some?
    ensures var r' := InitializeRobot(r, readings).value;
      && r'.dynamic.Some? && r'.featureCom.Some? && r'.featureComDes.Some? && r'.comTask.Some?
      && var dyn, f, fDes, t := r'.dynamic.value, r'.featureCom.value, r'.featureComDes.value, r'.comTask.value;
      && f.name == r.name + ".feature.com"
      && f.errorIn == Plugged(dyn.name, "com")
      && f.jacobianIn == Plugged(dyn.name, "Jcom")
      && f.selec == Some("011")
      && (forall axis: nat :: axis < 3 ==> (Selected(f.selec.value, axis) <==> axis != 0))
      && f.sdes == Some(fDes)
      && fDes.name == r.name + ".feature.ref.com"
      && fDes.errorIn == Literal(readings.com(dyn))
      && t.name == r.name + ".task.com"
      && t.features == [f.name]
      && t.gain == Some(1.0)
  {
  }

  /** One feature and one task per operational point and nothing else; each
      task is named after the robot and the point, holds that point's
      feature alone and has gain 0.2; each feature tracks the point's
      signals towards the position read after the model was reset. */
  lemma InitializeRobotOpTasks(r: Robot, readings: Readings)
    requires r.dynamic.Some?
    ensures var r', ops := InitializeRobot(r, readings).value, r.operationalPoints;
      && r'.dynamic.Some?
      && (forall op :: op in r'.features <==> op in ops)
      && (forall op :: op in r'.tasks <==> op in ops)
      && (forall op :: op in ops ==>
            && r'.tasks[op].name == r.name + ".task." + op
            && r'.tasks[op].features == [r.name + ".feature." + op]
            && r'.tasks[op].gain == Some(0.2))
      && (forall op :: op in ops ==>
            && r'.features[op].name == r.name + ".feature." + op
            && r'.features[op].position == Plugged(r'.dynamic.value.name, op)
            && r'.features[op].jacobian == Plugged(r'.dynamic.value.name, "J" + op)
            && r'.features[op].reference == readings.point(r'.dynamic.value, op))
  {
  }

  /** Every operational point gets an attribute under its member name;
      attributes set earlier stay (with their value unless a point reuses
      the name), and when distinct points have distinct member names each
      attribute is its point's feature. */
  lemma InitializeRobotMembers(r: Robot, readings: Readings)
    requires r.dynamic.Some?
    ensures var r', ops := InitializeRobot(r, readings).value, r.operationalPoints;
      && (forall op :: op in ops ==> MemberName(op) in r'.members)
      && (forall m :: m in r.members ==> m in r'.members)
      && (forall m :: m in r'.members && m !in r.members ==> IsMemberOf(m, ops))
      && (forall m :: m in r.members && !IsMemberOf(m, ops) ==> r'.members[m] == r.members[m])
      && (DistinctMembers(ops) ==> forall op :: op in ops ==> r'.members[MemberName(op)] == r'.features[op])
  {
    if DistinctMembers(r.operationalPoints) {
      MembersAreFeatures(r.name, PrepareModel(r), readings, r.operationalPoints, r.members);
    }
  }

  /** Initialising an initialised robot again gives the same device, the
      same centre-of-mass task, the same task map and the same feature and
      attribute names: the maps are rebuilt, not accumulated. */
  lemma InitializeTwice(r: Robot, readings: Readings)
    requires r.dynamic.Some?
    ensures InitializeRobot(r, readings).Success?
    ensures var r1 := InitializeRobot(r, readings).value;
      && InitializeRobot(r1, readings).Success?
      && var r2 := InitializeRobot(r1, readings).value;
      && r2.device == r1.device
      && r2.comTask == r1.comTask
      && r2.tasks == r1.tasks
      && r2.features.Keys == r1.features.Keys
      && r2.members.Keys == r1.members.Keys
  {
    var r1 := InitializeRobot(r, readings).value;
    var r2 := InitializeRobot(r1, readings).value;
    ReinitializeDevice(r, readings);
    ReinitializeComTask(r, readings);
    ReinitializeTasks(r, readings);
    ReinitializeMembers(r, readings);
  }

  lemma ReinitializeDevice(r: Robot, readings: Readings)
    requires r.dynamic.Some?
    ensures var r1 := InitializeRobot(r, readings).value;
      InitializeRobot(r1, readings).value.device == r1.device
  {
    var r1 := InitializeRobot(r, readings).value;
    InitializeRobotDevice(r, readings);
    InitializeRobotDevice(r1, readings);
  }

  lemma ReinitializeComTask(r: Robot, readings: Readings)
    requires r.dynamic.Some?
    ensures var r1 := InitializeRobot(r, readings).value;
      InitializeRobot(r1, readings).value.comTask == r1.comTask
  {
    var r1 := InitializeRobot(r, readings).value;
    InitializeRobotComTask(r, readings);
    InitializeRobotComTask(r1, readings);
  }

  lemma ReinitializeTasks(r: Robot, readings: Readings)
    requires r.dynamic.Some?
    ensures var r1 := InitializeRobot(r, readings).value;
      && InitializeRobot(r1, readings).value.tasks == r1.tasks
      && InitializeRobot(r1, readings).value.features.Keys == r1.features.Keys
  {
    var r1 := InitializeRobot(r, readings).value;
    var r2 := InitializeRobot(r1, readings).value;
    InitializeRobotOpTasks(r, readings);
    InitializeRobotOpTasks(r1, readings);
    SameKeys(r.operationalPoints, r1.features, r2.features);
    SamePointTasks(r.name, r.operationalPoints, r1.tasks, r2.tasks);
  }

  /** Two maps keyed exactly by `ops` have the same keys. */
  lemma SameKeys<V>(ops: seq<string>, m1: map<string, V>, m2: map<string, V>)
    requires forall op :: op in m1 <==> op in ops
    requires forall op :: op in m2 <==> op in ops
    ensures m1.Keys == m2.Keys
  {
  }

  /** Two task maps that both hold exactly the per-point tasks of robot
      `name` are equal. */
  lemma SamePointTasks(name: string, ops: seq<string>, t1: map<string, Task>, t2: map<string, Task>)
    requires forall op :: op in t1 <==> op in ops
    requires forall op :: op in t2 <==> op in ops
    requires forall op :: op in ops ==>
      t1[op].name == name + ".task." + op && t1[op].features == [name + ".feature." + op] && t1[op].gain == Some(0.2)
    requires forall op :: op in ops ==>
      t2[op].name == name + ".task." + op && t2[op].features == [name + ".feature." + op] && t2[op].gain == Some(0.2)
    ensures t1 == t2
  {
    assert t1.Keys == t2.Keys;
  }

  lemma ReinitializeMembers(r: Robot, readings: Readings)
    requires r.dynamic.Some?
    ensures var r1 := InitializeRobot(r, readings).value;
      InitializeRobot(r1, readings).value.members.Keys == r1.members.Keys
  {
    var r1 := InitializeRobot(r, readings).value;
    InitializeRobotMembers(r, readings);
    InitializeRobotMembers(r1, readings);
  }

  // ---------------------------------------------------------------------
  // Construction

  /** `AbstractHumanoidRobot(name)`: only the name is set; every other
      attribute keeps its class-level default. The unset (`None`)
      half-sitting posture and dimension are represented by an empty
      posture and dimension 0. */
  function NewAbstractRobot(name: string): Robot
  {
    Robot(name, "", OperationalPoints, [], 0, None, None, None, None, None, map[], map[], map[])
  }

  /** `HumanoidRobot(name, filename)`: load the model from the kxml file
      under the entity name `name + ".dynamics"`, take its dimension, use
      the all-zero half-sitting posture of that size, then initialise. */
  function NewHumanoidRobot(
    name: string, filename: string,
    parse: (string, string) -> Result<DynamicModel, Error>,
    readings: Readings): (res: Result<Robot, Error>)
    ensures parse(name + ".dynamics", filename).Failure? ==>
      res.Failure? && res.error == parse(name + ".dynamics", filename).error
    ensures parse(name + ".dynamics", filename).Success? ==> res.Success?
    ensures res.Success? ==>
      var n, r := parse(name + ".dynamics", filename).value.dimension, res.value;
      && r.name == name && r.filename == filename
      && r.operationalPoints == OperationalPoints
      && r.dimension == n
      && r.halfSitting == Zeros(n)
  {
    var dyn :- LoadModelFromKxml(name + ".dynamics", filename, parse);
    InitializeRobot(HumanoidBeforeInit(name, filename, dyn), readings)
  }

  /** The robot as `HumanoidRobot.__init__` leaves it just before calling
      `initializeRobot`. */
  function HumanoidBeforeInit(name: string, filename: string, dyn: DynamicModel): Robot
  {
    var r := NewAbstractRobot(name).(filename := filename);
    var r := r.(dynamic := Some(dyn));
    var r := r.(dimension := dyn.dimension);
    r.(halfSitting := Zeros(r.dimension))
  }

  /** A constructed humanoid robot is fully initialised: its model carries
      the kxml flag profile, device and model sit at the all-zero posture
      with zero velocity and acceleration of the model's dimension, the
      centre-of-mass task has gain 1, every default operational point has a
      task of gain 0.2, and each attribute `leftWrist`, `rightWrist`,
      `leftAnkle`, `rightAnkle` is its point's feature. */
  lemma HumanoidRobotInitialized(
    name: string, filename: string,
    parse: (string, string) -> Result<DynamicModel, Error>,
    readings: Readings)
    requires parse(name + ".dynamics", filename).Success?
    ensures var n, r := parse(name + ".dynamics", filename).value.dimension,
                        NewHumanoidRobot(name, filename, parse, readings).value;
      && r.dynamic.Some?
      && KxmlProfile(r.dynamic.value.properties)
      && FlagsOf(r.dynamic.value.properties) == Flags(true, true, false, false, true, false)
      && r.dynamic.value.position == Zeros(n)
      && r.dynamic.value.velocity == Zeros(n)
      && r.dynamic.value.acceleration == Zeros(n)
      && r.device == Some(Device(name + ".device", Zeros(n)))
      && r.comTask.Some? && r.comTask.value.gain == Some(1.0)
      && (forall op :: op in r.tasks <==> op in OperationalPoints)
      && (forall op :: op in OperationalPoints ==> r.tasks[op].gain == Some(0.2))
      && (forall op :: op in OperationalPoints ==> r.members[MemberName(op)] == r.features[op])
  {
    var dyn := LoadModelFromKxml(name + ".dynamics", filename, parse).value;
    var r0 := HumanoidBeforeInit(name, filename, dyn);
    var r := InitializeRobot(r0, readings).value;
    assert NewHumanoidRobot(name, filename, parse, readings).value == r;
    InitializeRobotDevice(r0, readings);
    InitializeRobotModel(r0, readings);
    InitializeRobotComTask(r0, readings);
    InitializeRobotOpTasks(r0, readings);
    DefaultMembersDistinct();
    InitializeRobotMembers(r0, readings);
    var d := r.dynamic.value;
    assert d.velocity == Zeros(dyn.dimension);
    assert d.acceleration == Zeros(dyn.dimension);
  }

  /** The default operational points have distinct member names. */
  lemma DefaultMembersDistinct()
    ensures DistinctMembers(OperationalPoints)
  {
    DefaultMemberNames();
    FourDistinct("left-wrist", "right-wrist", "left-ankle", "right-ankle",
                 "leftWrist", "rightWrist", "leftAnkle", "rightAnkle");
  }

  lemma FourDistinct(a: string, b: string, c: string, d: string,
                     na: string, nb: string, nc: string, nd: string)
    requires MemberName(a) == na && MemberName(b) == nb && MemberName(c) == nc && MemberName(d) == nd
    requires na != nb && na != nc && na != nd && nb != nc && nb != nd && nc != nd
    ensures DistinctMembers([a, b, c, d])
  {
    var ops, names := [a, b, c, d], [na, nb, nc, nd];
    assert forall i :: 0 <= i < 4 ==> MemberName(ops[i]) == names[i];
    assert forall i, j :: 0 <= i < 4 && 0 <= j < 4 && i != j ==> names[i] != names[j];
    DistinctKeys(ops, names, MemberName);
  }

  /** Points whose names under `key` are known and pairwise different have
      pairwise different names. */
  lemma DistinctKeys(ops: seq<string>, names: seq<string>, key: string -> string)
    requires |ops| == |names|
    requires forall i :: 0 <= i < |ops| ==> key(ops[i]) == names[i]
    requires forall i, j :: 0 <= i < |names| && 0 <= j < |names| && i != j ==> names[i] != names[j]
    ensures forall i, j :: 0 <= i < |ops| && 0 <= j < |ops| && ops[i] != ops[j] ==> key(ops[i]) != key(ops[j])
  {
  }

  /** The robot "r2" with a 36-dimensional model: posture and model
      position are 36 zeros, the left-wrist task has gain 0.2, and the
      attribute `leftWrist` is the left-wrist feature. */
  lemma Robot36Dimensions(
    filename: string,
    parse: (string, string) -> Result<DynamicModel, Error>,
    readings: Readings)
    requires parse("r2.dynamics", filename).Success?
    requires parse("r2.dynamics", filename).value.dimension == 36
    ensures NewHumanoidRobot("r2", filename, parse, readings).Success?
    ensures var r := NewHumanoidRobot("r2", filename, parse, readings).value;
      && r.halfSitting == Zeros(36)
      && r.dynamic.Some? && r.dynamic.value.position == Zeros(36)
      && "left-wrist" in r.tasks && r.tasks["left-wrist"].gain == Some(0.2)
      && "leftWrist" in r.members && "left-wrist" in r.features
      && r.members["leftWrist"] == r.features["left-wrist"]
  {
    assert "r2" + ".dynamics" == "r2.dynamics";
    HumanoidRobotInitialized("r2", filename, parse, readings);
    assert "left-wrist" in OperationalPoints;
    LeftWrist();
  }
}
