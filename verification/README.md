# Humanoid robot orchestration (sot-dynamic), modelled in Dafny

This project models the robot orchestration layer of
`src/dynamic_graph/sot/dynamics/humanoid_robot.py` and proves properties of it. That layer:

- loads the robot's dynamic model from a kxml file and sets a fixed profile of computation flags;
- declares the operational points (`left-wrist`, `right-wrist`, `left-ankle`, `right-ankle`) on the model;
- initialises the robot. A device is created when missing. Device and model are put at the
  half-sitting posture with zero velocity and acceleration. A centre-of-mass feature pair and
  task are built. One position feature and one task are built per operational point, and each
  feature is also exposed under a camelCase attribute name;
- builds a `HumanoidRobot`, whose half-sitting posture is all zeros, and then initialises it.

The collaborators (model handle, `RobotSimu` device, `FeatureGeneric`, `FeaturePosition`,
`Task`) are plain immutable records in `entities.dfy`. Every operation is a pure function.

- The model parser is a function parameter `parse(entityName, filename)` that returns a model or
  an error.
- The signal values the source reads after forcing a recomputation at time 0 are also function
  parameters (`Readings`). These are the centre of mass and each operational point's position,
  each given as a function of the model state at that moment.

Nothing numeric is computed by the orchestration itself.

Files:

- `wrappers.dfy`: `Option` and `Result`.
- `matrices.dfy`: Python tuple repetition and the module-level `I3`/`I4` tuples.
- `naming.dfy`: `str.split('-')`, `str.capitalize` and the member-name derivation.
- `entities.dfy`: the collaborator records.
- `robot.dfy`: flag profile, operational points, `initializeRobot` and the `HumanoidRobot`
  constructor.

`I3` and `I4` are tuples of rows: each `reduce` step appends the row `(i*(0.,)+(1.,)+(2-i)*(0.,),)`
as one nested element. `I4` is kept exactly as written. Its rows are padded with `2 - i` zeros, so
its four rows have lengths 3, 3, 3 and 4 rather than four each (`Matrices.I4Shape`). Nothing in the
orchestration uses `I4`.

Two behaviours of the code worth noting:

- Initialisation without a model raises the undefined name `RunTimeError`, so in Python the
  exception seen is a name error, not a dedicated precondition error. The model records only that
  the call fails (`ModelsNotInitialized`).
- The code has no guard against a second initialisation. In the model, initialising again yields
  the same task map, centre-of-mass task and device, and the same key sets (`Robots.InitializeTwice`),
  because the maps are rebuilt rather than accumulated. The second call creates the features and tasks
  again under entity names already in use, and sends the `createOpPoint` requests to the model
  handle again; what the entity layer and the model handle do with re-used names is not modelled.

## Model

| member | source | states |
|---|---|---|
| Matrices.Repeat | src/dynamic_graph/sot/dynamics/humanoid_robot.py:27-28 | `k * (x,)` has `k` entries all equal to `x`, and none when `k <= 0` |
| Matrices.Zeros | src/dynamic_graph/sot/dynamics/humanoid_robot.py:168-169 | `dimension*(0.,)` has exactly `dimension` entries, all zero |
| Matrices.RowShape | src/dynamic_graph/sot/dynamics/humanoid_robot.py:27-28 | row `i` of the fold has its only `1.0` in column `i`, and 3 entries for `i <= 2` but `i + 1` for `i = 3` |
| Matrices.FoldRowsIsConcat | src/dynamic_graph/sot/dynamics/humanoid_robot.py:27-28 | the `reduce` left fold, which appends each row as one nested element, equals the accumulator followed by the rows of the indices in order |
| Matrices.FoldedIsStacked | src/dynamic_graph/sot/dynamics/humanoid_robot.py:27-28 | `reduce(..., range(n), ())` is the tuple of rows `0 .. n-1`, one element per row, in order |
| Matrices.I3IsIdentity | src/dynamic_graph/sot/dynamics/humanoid_robot.py:27 | `I3` is a tuple of 3 rows of 3 entries each, and entry `[r][c]` is 1 exactly when `r == c`: the 3x3 identity |
| Matrices.I4Shape | src/dynamic_graph/sot/dynamics/humanoid_robot.py:28 | `I4` is a tuple of 4 rows: the rows of `I3` followed by the row `(0, 0, 0, 1)`, which has 4 entries |
| Naming.SplitPiecesFree | src/dynamic_graph/sot/dynamics/humanoid_robot.py:205 | no word produced by `op.split('-')` contains a hyphen |
| Naming.JoinSplit | src/dynamic_graph/sot/dynamics/humanoid_robot.py:205 | re-joining the split words with `'-'` gives back the name |
| Naming.SplitJoin | src/dynamic_graph/sot/dynamics/humanoid_robot.py:205 | splitting a hyphen-join of hyphen-free words gives back exactly those words |
| Naming.CapitalizeCaseless | src/dynamic_graph/sot/dynamics/humanoid_robot.py:208 | `capitalize` changes letter case only |
| Naming.MemberNameKeepsFirstWord | src/dynamic_graph/sot/dynamics/humanoid_robot.py:205-206 | the member name starts with the first hyphen-separated word, unchanged |
| Naming.MemberNameHasNoHyphen | src/dynamic_graph/sot/dynamics/humanoid_robot.py:205-208 | the member name contains no hyphen |
| Naming.MemberNameCaseless | src/dynamic_graph/sot/dynamics/humanoid_robot.py:205-208 | ignoring letter case, the member name is the point name with its hyphens deleted, and has exactly that length |
| Naming.MemberNameWithoutHyphen | src/dynamic_graph/sot/dynamics/humanoid_robot.py:205-208 | a name without a hyphen is its own member name |
| Naming.AppendCapitalizedIsConcat | src/dynamic_graph/sot/dynamics/humanoid_robot.py:207-208 | the loop appending `i.capitalize()` to the accumulator yields the accumulator followed by every word capitalised, in order |
| Naming.ConcatCapitalizedCaseless | src/dynamic_graph/sot/dynamics/humanoid_robot.py:207-208 | ignoring letter case, the capitalised later words concatenate to the words themselves |
| Naming.MemberNameIsCapitalizedWords | src/dynamic_graph/sot/dynamics/humanoid_robot.py:205-208 | for every point name, the member name is its first hyphen-separated word unchanged followed by each later word capitalised, in order |
| Naming.MemberNameOfJoin | src/dynamic_graph/sot/dynamics/humanoid_robot.py:205-208 | hyphen-free words joined by hyphens get the member name: first word, then each later word capitalised |
| Naming.DefaultMemberNames | src/dynamic_graph/sot/dynamics/humanoid_robot.py:205-209 | the default points become `leftWrist`, `rightWrist`, `leftAnkle`, `rightAnkle` |
| Robots.LoadModelFromKxml | src/dynamic_graph/sot/dynamics/humanoid_robot.py:116-123 | a parse failure is passed on; on success the properties `ComputeVelocity`, `ComputeCoM` and `ComputeZMP` are the string `"true"` and `ComputeAccelerationCoM`, `ComputeMomentum` and `ComputeBackwardDynamics` the string `"false"`, whatever the parser set; all other properties and the rest of the model are unchanged |
| Robots.InitializeOpPoints | src/dynamic_graph/sot/dynamics/humanoid_robot.py:143-145 | appends exactly one `createOpPoint(op, op)` request per operational point, in order, after the earlier ones; nothing else in the model changes |
| Robots.OpPointSignals | src/dynamic_graph/sot/dynamics/humanoid_robot.py:44-56 | afterwards the model's position signals are the old ones plus every `op`, and its Jacobian signals the old ones plus every `"J" + op` |
| Robots.OpPointsIgnorePrefix | src/dynamic_graph/sot/dynamics/humanoid_robot.py:143-145 | the prefix argument has no influence on the result |
| Robots.BuildOpTasks | src/dynamic_graph/sot/dynamics/humanoid_robot.py:191-209 | fresh feature and task maps keyed exactly by the operational points, one feature and one task per point, and an attribute for every point's member name added to the existing ones; earlier attributes not reused keep their value |
| Robots.MembersAreFeatures | src/dynamic_graph/sot/dynamics/humanoid_robot.py:204-209 | when distinct points have distinct member names, each point's attribute is that point's feature |
| Robots.InitializeRobot | src/dynamic_graph/sot/dynamics/humanoid_robot.py:147-158 | fails exactly when there is no dynamic model, with the not-initialised error; on success name, file, point list, half-sitting posture and dimension are unchanged |
| Robots.InitializeRobotDevice | src/dynamic_graph/sot/dynamics/humanoid_robot.py:160-166 | the device is set to half-sitting; a device named `name + ".device"` is created only when none existed, and an existing device keeps its name |
| Robots.InitializeRobotModel | src/dynamic_graph/sot/dynamics/humanoid_robot.py:166-172 | the same model (name, dimension, flags) at half-sitting, with all-zero velocity and acceleration of length `dimension`, exposing every operational point's signals |
| Robots.InitializeRobotDimensions | src/dynamic_graph/sot/dynamics/humanoid_robot.py:166-169 | when the posture has `dimension` entries, position, velocity and acceleration all have `dimension` entries |
| Robots.InitializeRobotComTask | src/dynamic_graph/sot/dynamics/humanoid_robot.py:174-188 | the CoM feature is plugged to `com`/`Jcom` and has the selection mask `"011"`, which selects components 1 and 2 only when read left to right; its desired feature's error is the CoM read after the reset; the task `name + ".task.com"` holds `name + ".feature.com"` alone, with gain 1 |
| Robots.InitializeRobotOpTasks | src/dynamic_graph/sot/dynamics/humanoid_robot.py:190-203 | features and tasks are keyed exactly by the operational points; each task `name + ".task." + op` holds only `name + ".feature." + op`, with gain 0.2; each feature tracks `op`/`"J" + op` towards the position read after the reset |
| Robots.InitializeRobotMembers | src/dynamic_graph/sot/dynamics/humanoid_robot.py:204-209 | every point gets an attribute under its member name; earlier attributes stay; with distinct member names each attribute is its point's feature |
| Robots.InitializeTwice | src/dynamic_graph/sot/dynamics/humanoid_robot.py:191-192 | initialising again yields the same device, CoM task and task map, and the same feature and attribute key sets: the maps are rebuilt, not accumulated |
| Robots.NewHumanoidRobot | src/dynamic_graph/sot/dynamics/humanoid_robot.py:223-230 | a parse failure aborts construction with that error; otherwise the robot exists with the model's dimension and an all-zero half-sitting posture of that length |
| Robots.HumanoidRobotInitialized | src/dynamic_graph/sot/dynamics/humanoid_robot.py:223-230 | a constructed robot's model carries the literal kxml flag values; device and model are at zeros of the model's dimension; the CoM task has gain 1; every default point has a task with gain 0.2; `leftWrist` and the other attributes are their points' features |
| Robots.DefaultMembersDistinct | src/dynamic_graph/sot/dynamics/humanoid_robot.py:44-45 | the four default operational points have pairwise distinct member names |
| Robots.Robot36Dimensions | src/dynamic_graph/sot/dynamics/humanoid_robot.py:223-230 | robot `r2` with a 36-dimensional model has 36 zeros as posture and model position, the left-wrist task has gain 0.2, and `leftWrist` is the left-wrist feature |

## Left out

- Model file parsing (`Parser(...).parse()`) is a function parameter. Its grammar and its own errors belong to the parser, which is not part of this model.
- `loadModelFromJrlDynamics` is not modelled. It builds the undefined `DynamicHrp2`, hands the files to that foreign loader, and returns `None`.
- Signal recomputation (`recompute(0)`) and `plug` dataflow are not modelled. Plugging is recorded as an `Input.Plugged(entity, signal)` reference. Recomputing has no effect in the model, and the values read afterwards come from the `Readings` parameter.
- The CoM, Jacobian and position numerics are not modelled. They are floating-point results of the C++ dynamic model.
- Gains are exact reals (`1.0` and `0.2`), not IEEE doubles.
- `RobotSimu` integration is not modelled. Neither are the stabilizer, ZMP estimator and angle estimator, which this file never drives.
- `__init__.py` only re-exports names from modules that are not part of this model.
- Python's class-level `features = dict()` / `tasks = dict()` sharing is not modelled. Each robot has its own maps.
- `setattr` reflection is modelled as the `members` map from attribute name to feature.
- The abstract base class leaves `halfSitting` and `dimension` unset (`None`). The model represents that as an empty posture and dimension 0. The Python `TypeError` from initialising with an unset dimension is not modelled, because `HumanoidRobot` always sets both first.
- Truthiness of `self.dynamic` and `self.device` is modelled as presence. The entity objects are always truthy.
- Errors raised by collaborators during initialisation (device, features, tasks) are not modelled. The source has no rollback: such an error leaves the robot partly initialised.
- Letter case in `capitalize` covers ASCII letters only. Other characters are kept unchanged.
- `createOpPoint` is modelled as recording the request. Whether a repeated request creates duplicate signals is up to the model handle.
- Robots.InitializeRobot: in the source, attribute names share the robot's own namespace. A point whose member name equals a robot attribute (a point `"name"`, `"half-sitting"`, `"com-task"` or `"device"`) overwrites that attribute, and after a point named `"features"`, `"tasks"` or `"dynamic"` the later iterations of the loop use that feature in place of the dictionary or the model. The model keeps `members` apart from the robot's fields, so its contracts describe the source only for point lists whose member names are not robot attributes; the four default points are such a list.
- Robots.InitializeRobotComTask: the contract pins the mask to the string `"011"`. Its reading as "components 1 and 2" counts characters from the left; the bit order `FeatureGeneric` applies to `selec` belongs to that entity, which is not part of this model.
- Robots.InitializeRobotMembers: when two different points share a member name, the contract states only that the attribute exists. It does not say which point's feature wins (the last one in the list).
