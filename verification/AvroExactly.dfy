/** How much the avsc walk locates (internal/avro/walk.go): of the paths that meet no union, exactly
    those every value of the type has. */
module AvroExactly {
  import opened JsonValues
  import opened Paths
  import opened AvroModel
  import AG = AvroGeneration

  /** No union on the way of a path. */
  ghost predicate NoUnion(env: Env, t: Type, path: seq<Step>)
    decreases |path|
  {
    !t.Union? &&
    forall f | path != [] && path[0].index < 0 && t.Named? && t.full in env && env[t.full].Record? &&
               f in env[t.full].fields && f.name == path[0].field :: NoUnion(env, f.typ, path[1..])
  }

  ghost predicate InEveryValue(env: Env, t: Type, path: seq<Step>) {
    forall v | Conforms(env, t, v) :: At(v, path).Some?
  }

  /** Tokens are read as field names. */
  ghost predicate ReadAsFields(path: seq<Step>, q: seq<Step>) {
    |q| == |path| && forall i | 0 <= i < |path| :: q[i] == AvroStep(path[i])
  }

  /** A path is located if and only if it meets no union and every value of the type has it. */
  lemma {:induction false} AvroLocatedExactly(env: Env, t: Type, path: seq<Step>, q: seq<Step>, some: Json)
    requires AG.WellFormed(env) && Conforms(env, t, some) && ReadAsFields(path, q)
    ensures AvroLocate(env, t, path).Some? <==> NoUnion(env, t, q) && InEveryValue(env, t, q)
    ensures AvroLocate(env, t, path).Some? ==> AvroLocate(env, t, path).value.0 == q
    decreases |path|
  {
    if path != [] {
      var next := FieldStepOf(env, t, q[0]);
      if next.None? {
        if !t.Union? {
          var v := NotInside(env, t, q[0], some);
          assert At(v, q).None?;
        }
      } else {
        var f := FieldTaken(env, t, q[0]);
        AvroLocatedExactly(env, f.typ, path[1..], q[1..], some.fields[f.name]);
        FieldOfEvery(env, t, f, q, some);
      }
    }
  }

  /** A step the walk does not take is missing in some value. */
  lemma {:induction false} NotInside(env: Env, t: Type, step: Step, some: Json) returns (v: Json)
    requires Conforms(env, t, some) && FieldStepOf(env, t, step).None? && !t.Union?
    ensures Conforms(env, t, v) && Child(v, step).None?
  {
    match t
    case Array(_) => v := Arr([]);
    case Map(_) => v := Obj(map[]);
    case _ => v := some;
  }

  lemma {:induction false} FieldTaken(env: Env, t: Type, step: Step) returns (f: Field)
    requires FieldStepOf(env, t, step).Some?
    ensures t.Named? && t.full in env && env[t.full].Record? && f in env[t.full].fields && f.name == step.field
    ensures step.index < 0 && f.typ == FieldStepOf(env, t, step).value
  {
    var fields := env[t.full].fields;
    f := fields[FieldIndex(fields, step.field)];
  }

  lemma {:induction false} FieldOfEvery(env: Env, t: Type, f: Field, q: seq<Step>, some: Json)
    requires AG.WellFormed(env) && Conforms(env, t, some) && q != [] && q[0].index < 0 && q[0].field == f.name
    requires t.Named? && t.full in env && env[t.full].Record? && f in env[t.full].fields
    ensures InEveryValue(env, t, q) <==> InEveryValue(env, f.typ, q[1..])
    ensures NoUnion(env, t, q) <==> NoUnion(env, f.typ, q[1..])
  {
    SameField(env, t, f);
    forall v | Conforms(env, t, v)
      ensures v.Obj? && f.name in v.fields && Conforms(env, f.typ, v.fields[f.name])
      ensures At(v, q) == At(v.fields[f.name], q[1..])
    {
    }
    forall w | Conforms(env, f.typ, w)
      ensures InEveryValue(env, t, q) ==> At(w, q[1..]).Some?
    {
      var v := Obj(some.fields[f.name := w]);
      OtherValue(env, t, f, some, w);
      assert At(v, q) == At(w, q[1..]);
    }
  }

  /** Field names are distinct. */
  lemma {:induction false} SameField(env: Env, t: Type, f: Field)
    requires AG.WellFormed(env) && t.Named? && t.full in env && env[t.full].Record? && f in env[t.full].fields
    ensures forall g | g in env[t.full].fields && g.name == f.name :: g == f
  {
  }

  /** A record with another value of one field. */
  lemma {:induction false} OtherValue(env: Env, t: Type, f: Field, some: Json, w: Json)
    requires t.Named? && t.full in env && env[t.full].Record? && f in env[t.full].fields
    requires forall g | g in env[t.full].fields && g.name == f.name :: g == f
    requires Conforms(env, t, some) && Conforms(env, f.typ, w)
    ensures Conforms(env, t, Obj(some.fields[f.name := w]))
  {
    var v := Obj(some.fields[f.name := w]);
    assert v.fields.Keys == some.fields.Keys;
    forall g | g in env[t.full].fields ensures Conforms(env, g.typ, v.fields[g.name]) {
      if g.name != f.name { assert v.fields[g.name] == some.fields[g.name]; }
    }
  }
}
