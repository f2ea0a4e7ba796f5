/** Planting paths and reading along them (internal/planting/path.go). */
module Paths {
  import opened JsonValues
  import opened Sorting

  /** One step of a path: a field name, or an array index when index is not negative. A
      token is a JSON Pointer token a walk still has to resolve. */
  datatype Step = Step(field: string, index: int, token: bool)

  function FieldStep(name: string): Step { Step(name, -1, false) }

  function IndexStep(i: nat): Step { Step("", i, false) }

  // ----- Reading a generated value -----

  /** child: one step into a value. */
  function Child(v: Json, step: Step): Option<Json> {
    if step.index >= 0 then
      if v.Arr? && step.index < |v.items| then Some(v.items[step.index]) else None
    else match v
      case Obj(m) => if step.field in m then Some(m[step.field]) else None
      case Ord(keys, vals) =>
        if IndexOf(keys, step.field) < |keys| && IndexOf(keys, step.field) < |vals|
        then Some(vals[IndexOf(keys, step.field)]) else None
      case _ => None
  }

  function At(v: Json, path: seq<Step>): Option<Json> {
    if path == [] then Some(v)
    else if Child(v, path[0]).None? then None
    else At(Child(v, path[0]).value, path[1..])
  }
}
