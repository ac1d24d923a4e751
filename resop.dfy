/** Values, descriptors and operations of the tracing JIT's intermediate
    representation, as the optimizer's test helpers see them. */
module Resop {
  import opened Wrappers

  /** The type letter of a box or constant: INT, REF or FLOAT. */
  datatype Kind = INT | REF | FLOAT

  /** An argument reference. A box is a value with an identity (two boxes
      are the same box only when their identities agree); a constant is
      compared by its contents. */
  datatype Value =
    | Box(id: nat, kind: Kind)
    | ConstInt(n: int)
  {
    function Type(): Kind {
      match this
      case Box(_, k) => k
      case ConstInt(_) => INT
    }
  }

  /** The Python class of a value, as `box.__class__` distinguishes it:
      BoxInt, BoxPtr, BoxFloat or ConstInt. */
  datatype ValueClass = BoxIntClass | BoxPtrClass | BoxFloatClass | ConstIntClass

  function ClassOf(v: Value): ValueClass {
    match v
    case Box(_, INT) => BoxIntClass
    case Box(_, REF) => BoxPtrClass
    case Box(_, FLOAT) => BoxFloatClass
    case ConstInt(_) => ConstIntClass
  }

  /** The Python class a descriptor belongs to. `Plain` stands for any
      descriptor class that keeps the default (identity) equality. */
  datatype DescrClass = Plain | Storage | FakeDescr | FakeDescrWithSnapshot

  /** A descriptor: an identity, its class and the key `sort_key()` returns. */
  datatype Descr = Descr(id: nat, cls: DescrClass, sortKey: int)

  /** The operation numbers the model distinguishes; every other one is
      `Other(num)`. */
  datatype Opcode =
    | IntAdd | IntSub | ForceToken | GuardTrue | GuardFalse | Jump | Label
    | Other(num: nat)
  {
    predicate IsGuard() { this == GuardTrue || this == GuardFalse }
  }

  /** A resoperation: opcode, arguments, optional result, optional
      descriptor, and the guard's fail-arguments (an empty list when the
      operation has none; an element may be None, a dead slot). */
  datatype Op = Op(opcode: Opcode, args: seq<Value>, result: Option<Value>,
                   descr: Option<Descr>, failargs: seq<Option<Value>>)

  /** A loop: its input arguments and its operations (a `TreeLoop`). */
  datatype Loop = Loop(name: string, inputargs: seq<Value>, operations: seq<Op>)
}
