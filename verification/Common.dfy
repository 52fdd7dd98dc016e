/** Small value types shared by the modules. */
module Common {

  datatype Option<+T> = None | Some(value: T)

  type InstanceId = nat

  /** Banks of an instance. */
  const BANK_COUNT: nat := 7

  /** The node of the first bank in a path. */
  const FIRST_BANK: nat := 100

  /** Compression profiles of an instance. */
  const PROFILES: nat := 4

  /** Parameters of a compression profile. */
  const PARAMETERS: nat := 5

  /** A place in the state tree: the numbers of the nodes on the way there. */
  type Path = seq<nat>

  function Min(a: int, b: int): int { if a < b then a else b }

  /** The typed contents of a state value. Floating-point numbers are reals; the last kind is the group
      of a bank, if it has one. */
  datatype Value =
    | Float(number: real)
    | Int(integer: int)
    | Bool(flag: bool)
    | Text(text: string)
    | GroupOf(group: Option<nat>)

  datatype FloatRange = FloatRange(minimum: real, maximum: real) {
    predicate IsValid() { minimum <= maximum }

    predicate Contains(value: real) { IsValid() && minimum <= value <= maximum }
  }

  predicate Distinct<T(==)>(s: seq<T>) {
    forall i, j :: 0 <= i < j < |s| ==> s[i] != s[j]
  }
}
