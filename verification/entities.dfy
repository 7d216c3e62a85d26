/** The collaborators that humanoid_robot.py drives but does not define,
    reduced to the state the robot code reads or writes: the dynamic model
    handle, the device, the generic and position features, and the task.
    Their own algorithms (signal recomputation, integration, control laws)
    are outside this model; each is a plain record here. */
module Entities {
  import opened Wrappers

  /** A vector or matrix value carried by a signal, flattened. */
  type Vector = seq<real>

  /** What a feature input signal reads: nothing yet, the output signal
      `signal` of entity `entity` (after `plug`), or a literal value. */
  datatype Input = Unset | Plugged(entity: string, signal: string) | Literal(value: Vector)

  /** One `createOpPoint(name, reference)` request made to the model. */
  datatype OpPoint = OpPoint(name: string, reference: string)

  /** The dynamic model handle: its entity name, the configuration size
      reported by `getDimension()`, the string properties set with
      `setProperty`, the operational points requested so far, and the
      values of its position, velocity and acceleration input signals. */
  datatype DynamicModel = DynamicModel(
    name: string,
    dimension: nat,
    properties: map<string, string>,
    opPoints: seq<OpPoint>,
    position: Vector,
    velocity: Vector,
    acceleration: Vector)

  /** `model.setProperty(key, value)`. */
  function SetProperty(m: DynamicModel, key: string, value: string): DynamicModel
  {
    m.(properties := m.properties[key := value])
  }

  /** `model.createOpPoint(name, reference)`: the model records the request
      and from then on exposes a position signal and a Jacobian signal for
      `name`. */
  function CreateOpPoint(m: DynamicModel, name: string, reference: string): DynamicModel
  {
    m.(opPoints := m.opPoints + [OpPoint(name, reference)])
  }

  /** Name of the Jacobian signal of operational point `op`. */
  function JacobianSignal(op: string): string
  {
    "J" + op
  }

  /** Position signals the model exposes for its operational points. */
  function PositionSignals(m: DynamicModel): set<string>
  {
    set p | p in m.opPoints :: p.name
  }

  /** Jacobian signals the model exposes for its operational points. */
  function JacobianSignals(m: DynamicModel): set<string>
  {
    set p | p in m.opPoints :: JacobianSignal(p.name)
  }

  /** The device (`RobotSimu`): its entity name and its full state. */
  datatype Device = Device(name: string, state: Vector)

  /** `RobotSimu(name)`. The simulator's own initial state is not part of
      this model; the robot overwrites it before any use. */
  function NewDevice(name: string): Device
  {
    Device(name, [])
  }

  /** `device.set(state)`. */
  function SetState(d: Device, state: Vector): Device
  {
    d.(state := state)
  }

  /** `FeatureGeneric`: error and Jacobian inputs, the selection mask
      `selec` and the desired feature `sdes`. */
  datatype FeatureGeneric = FeatureGeneric(
    name: string,
    errorIn: Input,
    jacobianIn: Input,
    selec: Option<string>,
    sdes: Option<FeatureGeneric>)

  /** `FeatureGeneric(name)` with nothing plugged or set. */
  function NewFeatureGeneric(name: string): FeatureGeneric
  {
    FeatureGeneric(name, Unset, Unset, None, None)
  }

  /** `FeaturePosition(name, position, jacobian, reference)`: tracks the
      position signal towards the reference value. */
  datatype FeaturePosition = FeaturePosition(
    name: string,
    position: Input,
    jacobian: Input,
    reference: Vector)

  /** `Task`: its name, the names of the features added to it in order and
      its control gain once set. */
  datatype Task = Task(name: string, features: seq<string>, gain: Option<real>)

  /** `Task(name)`, with no feature and no gain set. */
  function NewTask(name: string): Task
  {
    Task(name, [], None)
  }

  /** `task.add(feature)`. */
  function AddFeature(t: Task, feature: string): Task
  {
    t.(features := t.features + [feature])
  }

  /** `task.controlGain.value = gain`. */
  function SetGain(t: Task, gain: real): Task
  {
    t.(gain := Some(gain))
  }
}
