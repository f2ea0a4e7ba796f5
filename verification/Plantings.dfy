/** Every Planting of a run (internal/planting/planting.go): New checks them before any record
    exists, and Set.Plant then writes them all into each record. */
module Plantings {
  import opened JsonValues
  import opened Sorting
  import opened Paths
  import opened KeyPaths
  import opened Generation
  import GW = GuaranteedWalk
  import SW = SchemaWalk
  import AM = AvroModel
  import opened Records
  import opened PlantOne

  /** The two adapters of planting.Walk. */
  datatype Walk = JsonWalk(schema: Node) | AvroWalk(env: AM.Env, root: AM.Type)

  /** What a walk finds at the end of a path. */
  datatype Spot = JsonSpot(field: Node, defs: Node) | AvroSpot(env: AM.Env, at: AM.Type)

  /** Field.Holds and Field.HoldsKey, which foreign validators decide. */
  datatype Checks = Checks(holds: (Spot, string) -> bool, holdsKey: Spot -> bool)

  ghost function WalkTo(w: Walk, path: seq<Step>): Option<(seq<Step>, Spot)> {
    match w
    case JsonWalk(schema) =>
      var l := GW.LocateFrom(DefsOf(schema), schema, 0, path);
      if l.None? then None else Some((l.value.steps, JsonSpot(l.value.field, DefsOf(schema))))
    case AvroWalk(env, root) =>
      var l := AM.AvroLocate(env, root, path);
      if l.None? then None else Some((l.value.0, AvroSpot(env, l.value.1)))
  }

  method Locate(w: Walk, path: seq<Step>) returns (r: Option<(seq<Step>, Spot)>)
    ensures r == WalkTo(w, path)
  {
    match w
    case JsonWalk(schema) =>
      var l := SW.Locate(DefsOf(schema), schema, path);
      r := if l.None? then None else Some((l.value.0, JsonSpot(l.value.1, DefsOf(schema))));
    case AvroWalk(env, root) =>
      var l := AM.Locate(env, root, path);
      r := if l.None? then None else Some((l.value.0, AvroSpot(env, l.value.1)));
  }

  /** The records the walk's schema generates. */
  ghost predicate Generates(w: Walk, v: Json) {
    match w
    case JsonWalk(schema) => Yields(DefsOf(schema), schema, 0, Value(v))
    case AvroWalk(env, root) => AM.Conforms(env, root, v)
  }

  /** A path a walk accepts: tokens to resolve, or steps as they are. */
  ghost predicate Askable(path: seq<Step>) {
    path != [] && forall i | 0 <= i < |path| :: if path[i].token then path[i].index == -1 else Resolved(path[i])
  }

  lemma StepsCons(step: Step, rest: seq<Step>, path: seq<Step>)
    requires path != [] && Resolved(step) && ResolvedPath(rest)
    requires !path[0].token ==> step == path[0]
    requires (forall i | 0 <= i < |path[1..]| :: !path[1..][i].token) ==> rest == path[1..]
    ensures ResolvedPath([step] + rest)
    ensures (forall i | 0 <= i < |path| :: !path[i].token) ==> [step] + rest == path
  {
    if forall i | 0 <= i < |path| :: !path[i].token { assert [path[0]] + path[1..] == path; }
  }

  lemma {:induction false} JsonStepsResolved(defs: Node, s: Node, depth: nat, path: seq<Step>)
    requires depth <= MAX_DEPTH && GW.LocateFrom(defs, s, depth, path).Some?
    requires forall i | 0 <= i < |path| :: if path[i].token then path[i].index == -1 else Resolved(path[i])
    ensures ResolvedPath(GW.LocateFrom(defs, s, depth, path).value.steps)
    ensures (forall i | 0 <= i < |path| :: !path[i].token) ==> GW.LocateFrom(defs, s, depth, path).value.steps == path
    decreases |path|
  {
    if path != [] {
      var here := GW.Resolve(defs, s, depth, true).value;
      var step := GW.StepOf(here.0, path[0]);
      var child := GW.Descend(here.0, step).value;
      JsonStepsResolved(defs, child, here.1, path[1..]);
      StepsCons(step, GW.LocateFrom(defs, child, here.1, path[1..]).value.steps, path);
    }
  }

  lemma {:induction false} AvroStepsResolved(env: AM.Env, t: AM.Type, path: seq<Step>)
    requires AM.AvroLocate(env, t, path).Some?
    requires forall i | 0 <= i < |path| :: if path[i].token then path[i].index == -1 else Resolved(path[i])
    ensures ResolvedPath(AM.AvroLocate(env, t, path).value.0)
    ensures (forall i | 0 <= i < |path| :: !path[i].token) ==> AM.AvroLocate(env, t, path).value.0 == path
    decreases |path|
  {
    if path != [] {
      AvroStepsResolved(env, AM.FieldStepOf(env, t, AM.AvroStep(path[0])).value, path[1..]);
    }
  }

  /** A located path is resolved, exists in every record the schema generates, and is the
      path asked for where that held no tokens. */
  lemma LocatedInEvery(w: Walk, path: seq<Step>)
    requires Askable(path) && WalkTo(w, path).Some?
    ensures var steps := WalkTo(w, path).value.0;
            && steps != [] && ResolvedPath(steps)
            && ((forall i | 0 <= i < |path| :: !path[i].token) ==> steps == path)
            && forall v | Generates(w, v) :: At(v, steps).Some?
  {
    var steps := WalkTo(w, path).value.0;
    match w
    case JsonWalk(schema) =>
      JsonStepsResolved(DefsOf(schema), schema, 0, path);
      forall v | Generates(w, v) ensures At(v, steps).Some? && |steps| == |path| {
        GW.WalkSound(DefsOf(schema), schema, 0, path, Value(v));
      }
      JsonStepCount(DefsOf(schema), schema, 0, path);
    case AvroWalk(env, root) =>
      AvroStepsResolved(env, root, path);
      forall v | Generates(w, v) ensures At(v, steps).Some? && |steps| == |path| {
        AM.AvroWalkSound(env, root, path, v);
      }
      AvroStepCount(env, root, path);
  }

  lemma {:induction false} JsonStepCount(defs: Node, s: Node, depth: nat, path: seq<Step>)
    requires depth <= MAX_DEPTH && GW.LocateFrom(defs, s, depth, path).Some?
    ensures |GW.LocateFrom(defs, s, depth, path).value.steps| == |path|
    decreases |path|
  {
    if path != [] {
      var here := GW.Resolve(defs, s, depth, true).value;
      JsonStepCount(defs, GW.Descend(here.0, GW.StepOf(here.0, path[0])).value, here.1, path[1..]);
    }
  }

  lemma {:induction false} AvroStepCount(env: AM.Env, t: AM.Type, path: seq<Step>)
    requires AM.AvroLocate(env, t, path).Some?
    ensures |AM.AvroLocate(env, t, path).value.0| == |path|
    decreases |path|
  {
    if path != [] { AvroStepCount(env, AM.FieldStepOf(env, t, AM.AvroStep(path[0])).value, path[1..]); }
  }

  // ----- The plan of one Message type -----

  /** A Topic parameter: where its location points, none where it plants nothing. */
  datatype Parameter = Parameter(name: string, value: string, pointer: Option<seq<string>>, inHeaders: bool)

  datatype MessageType = MessageType(name: string, payload: Walk, headers: Option<Walk>)

  datatype Planted = Planted(param: Parameter, path: seq<Step>)

  function Tokens(pointer: seq<string>): (r: seq<Step>)
    ensures |r| == |pointer|
    ensures forall i | 0 <= i < |r| :: r[i] == Step(pointer[i], -1, true)
  {
    seq(|pointer|, i requires 0 <= i < |pointer| => Step(pointer[i], -1, true))
  }

  /** The parameters planted into the Headers, or into the Payload. */
  function Wanted(params: seq<Parameter>, headers: bool): seq<Parameter> {
    if params == [] then [] else
      var before := Wanted(params[..|params| - 1], headers);
      var p := params[|params| - 1];
      if p.pointer.Some? && p.inHeaders == headers then before + [p] else before
  }

  function WalkOf(mt: MessageType, headers: bool): Option<Walk> {
    if headers then mt.headers else Some(mt.payload)
  }

  /** One more parameter: located, holding its value, and clear of the Key and the others. */
  ghost function PlanOne(mt: MessageType, headers: bool, key: Option<seq<Step>>, checks: Checks, have: seq<Planted>,
                         p: Parameter): Option<Planted>
    requires p.pointer.Some?
  {
    if WalkOf(mt, headers).None? then None else
      var l := WalkTo(WalkOf(mt, headers).value, Tokens(p.pointer.value));
      if l.None? || !checks.holds(l.value.1, p.value) then None
      else if !headers && key.Some? && !Clear(l.value.0, key.value) then None
      else if exists j :: 0 <= j < |have| && !Clear(l.value.0, have[j].path) then None
      else Some(Planted(p, l.value.0))
  }

  ghost function Plan(mt: MessageType, headers: bool, key: Option<seq<Step>>, checks: Checks,
                      ps: seq<Parameter>): Option<seq<Planted>>
    requires forall i | 0 <= i < |ps| :: ps[i].pointer.Some?
  {
    if ps == [] then Some([]) else
      var before := Plan(mt, headers, key, checks, ps[..|ps| - 1]);
      if before.None? then None else
        var p := PlanOne(mt, headers, key, checks, before.value, ps[|ps| - 1]);
        if p.None? then None else Some(before.value + [p.value])
  }

  /** No two plantings land in the same field, and every record holds them all. */
  ghost predicate AllClear(ps: seq<Planted>) {
    && (forall i | 0 <= i < |ps| :: ps[i].path != [] && ResolvedPath(ps[i].path))
    && (forall i, j | 0 <= i < j < |ps| :: Clear(ps[i].path, ps[j].path))
  }

  ghost predicate InEvery(w: Walk, path: seq<Step>) { forall v | Generates(w, v) :: At(v, path).Some? }

  lemma AllClearSnoc(ps: seq<Planted>, p: Planted)
    requires AllClear(ps) && p.path != [] && ResolvedPath(p.path)
    requires forall j | 0 <= j < |ps| :: Clear(p.path, ps[j].path)
    ensures AllClear(ps + [p])
  {
  }

  /** What planning has made of the parameters of one part of a Message type. */
  ghost predicate Planning(mt: MessageType, headers: bool, key: Option<seq<Step>>, ps: seq<Parameter>,
                           r: seq<Planted>) {
    && |r| == |ps| && AllClear(r)
    && (forall i | 0 <= i < |r| ::
          r[i].param == ps[i] && WalkOf(mt, headers).Some? && InEvery(WalkOf(mt, headers).value, r[i].path))
    && (!headers && key.Some? ==> forall i | 0 <= i < |r| :: Clear(r[i].path, key.value))
  }

  /** One parameter accepted: its path is in every record and clear of the others. */
  lemma PlanOneSound(mt: MessageType, headers: bool, key: Option<seq<Step>>, checks: Checks, have: seq<Planted>,
                     p: Parameter)
    requires p.pointer.Some? && p.pointer.value != [] && PlanOne(mt, headers, key, checks, have, p).Some?
    ensures var r := PlanOne(mt, headers, key, checks, have, p).value;
            && r.param == p && r.path != [] && ResolvedPath(r.path)
            && WalkOf(mt, headers).Some? && InEvery(WalkOf(mt, headers).value, r.path)
            && (!headers && key.Some? ==> Clear(r.path, key.value))
            && forall j | 0 <= j < |have| :: Clear(r.path, have[j].path)
  {
    LocatedInEvery(WalkOf(mt, headers).value, Tokens(p.pointer.value));
  }

  lemma {:induction false} PlanningSnoc(mt: MessageType, headers: bool, key: Option<seq<Step>>, ps: seq<Parameter>,
                                        before: seq<Planted>, p: Planted)
    requires ps != [] && Planning(mt, headers, key, ps[..|ps| - 1], before)
    requires p.param == ps[|ps| - 1] && p.path != [] && ResolvedPath(p.path)
    requires WalkOf(mt, headers).Some? && InEvery(WalkOf(mt, headers).value, p.path)
    requires !headers && key.Some? ==> Clear(p.path, key.value)
    requires forall j | 0 <= j < |before| :: Clear(p.path, before[j].path)
    ensures Planning(mt, headers, key, ps, before + [p])
  {
    AllClearSnoc(before, p);
  }

  lemma {:induction false} PlanSound(mt: MessageType, headers: bool, key: Option<seq<Step>>, checks: Checks,
                                     ps: seq<Parameter>)
    requires forall i | 0 <= i < |ps| :: ps[i].pointer.Some? && ps[i].pointer.value != []
    requires Plan(mt, headers, key, checks, ps).Some?
    ensures Planning(mt, headers, key, ps, Plan(mt, headers, key, checks, ps).value)
  {
    if ps != [] {
      var init, last := ps[..|ps| - 1], ps[|ps| - 1];
      PlanSound(mt, headers, key, checks, init);
      var before := Plan(mt, headers, key, checks, init).value;
      PlanOneSound(mt, headers, key, checks, before, last);
      PlanningSnoc(mt, headers, key, ps, before, PlanOne(mt, headers, key, checks, before, last).value);
    }
  }

  /** The Key's steps: none when the run plants no Key or its path is malformed. */
  function KeyStepsOf(keyPath: string): Option<seq<Step>> {
    if keyPath == "" then None else ParsePath(keyPath)
  }

  ghost function PlanKey(mt: MessageType, keyPath: string, checks: Checks): Option<Option<seq<Step>>> {
    if keyPath == "" then Some(None)
    else if ParsePath(keyPath).None? then None
    else
      var l := WalkTo(mt.payload, ParsePath(keyPath).value);
      if l.None? || !checks.holdsKey(l.value.1) then None else Some(Some(l.value.0))
  }

  lemma KeyAskable(keyPath: string)
    requires KeyStepsOf(keyPath).Some?
    ensures Askable(KeyStepsOf(keyPath).value)
    ensures forall i | 0 <= i < |KeyStepsOf(keyPath).value| :: !KeyStepsOf(keyPath).value[i].token
  {
    ParsedSteps(keyPath);
    var p := KeyStepsOf(keyPath).value;
    forall i | 0 <= i < |p| ensures !p[i].token && Resolved(p[i]) { assert KeyStep(p[i]); }
  }

  // ----- Planting into one record -----

  /** Each parameter's value sits at its own path. */
  ghost predicate HoldsAll(t: Tree, ps: seq<Planted>) {
    forall i | 0 <= i < |ps| :: PathTo(t, ps[i].path) == Some(TScalar(Str(ps[i].param.value)))
  }

  ghost predicate ClearOfAll(q: seq<Step>, ps: seq<Planted>) { forall i | 0 <= i < |ps| :: Clear(ps[i].path, q) }

  /** Every location clear of the planted paths reads as before. */
  ghost predicate SameElsewhere(t: Tree, u: Tree, ps: seq<Planted>, key: Option<seq<Step>>) {
    forall q | ResolvedPath(q) && ClearOfAll(q, ps) && (key.Some? ==> Clear(key.value, q)) ::
      PathTo(u, q) == PathTo(t, q)
  }

  ghost predicate AllPresent(t: Tree, ps: seq<Planted>) { forall i | 0 <= i < |ps| :: PathTo(t, ps[i].path).Some? }

  /** One more planting, clear of those done, keeps them and everything else. */
  lemma GraftKeeps(t: Tree, u: Tree, ps: seq<Planted>, path: seq<Step>, x: Tree)
    requires AllClear(ps) && ResolvedPath(path) && ClearOfAll(path, ps) && HoldsAll(u, ps)
    requires SameElsewhere(t, u, ps, None)
    requires PathTo(u, path).Some? && Proper(u) && Proper(x) && Objs(x) !! Objs(u)
    ensures PathTo(Graft(u, path, x), path) == Some(x)
    ensures HoldsAll(Graft(u, path, x), ps) && SameElsewhere(t, Graft(u, path, x), ps, Some(path))
  {
    GraftProper(u, path, x);
    forall i | 0 <= i < |ps| ensures PathTo(Graft(u, path, x), ps[i].path) == PathTo(u, ps[i].path) {
      GraftElsewhere(u, path, x, ps[i].path);
    }
    forall q | ResolvedPath(q) && ClearOfAll(q, ps) && Clear(path, q)
      ensures PathTo(Graft(u, path, x), q) == PathTo(t, q)
    {
      GraftElsewhere(u, path, x, q);
    }
  }

  lemma OneMore(t: Tree, v: Tree, ps: seq<Planted>, p: Planted)
    requires HoldsAll(v, ps) && SameElsewhere(t, v, ps, Some(p.path))
    requires PathTo(v, p.path) == Some(TScalar(Str(p.param.value)))
    ensures HoldsAll(v, ps + [p]) && SameElsewhere(t, v, ps + [p], None)
  {
    var all := ps + [p];
    forall q | ResolvedPath(q) && ClearOfAll(q, all) ensures PathTo(v, q) == PathTo(t, q) {
      assert Clear(all[|ps|].path, q);
      assert forall i | 0 <= i < |ps| :: all[i] == ps[i];
    }
  }

  /** plantParam: one Topic parameter, after those of done. */
  method PlantParam(into: Val, done: seq<Planted>, p: Planted, ghost t: Tree, ghost u: Tree)
    returns (ok: bool, ghost v: Tree)
    requires AllClear(done) && p.path != [] && ResolvedPath(p.path) && ClearOfAll(p.path, done) && Owns(into, u)
    requires Proper(u)
    requires HoldsAll(u, done) && SameElsewhere(t, u, done, None)
    modifies Objs(u)
    ensures ok <==> PathTo(t, p.path).Some?
    ensures Owns(into, v) && Proper(v) && Objs(v) <= Objs(u)
    ensures ok ==> HoldsAll(v, done + [p]) && SameElsewhere(t, v, done + [p], None)
  {
    assert PathTo(u, p.path) == PathTo(t, p.path);
    var x := TScalar(Str(p.param.value));
    v := u;
    ok := Plant(into, p.path, Scalar(Str(p.param.value)), u, x);
    if !ok { return; }
    GraftKeeps(t, u, done, p.path, x);
    v := Graft(u, p.path, x);
    OneMore(t, v, done, p);
  }

  /** The loop of Set.Plant over the Topic parameters of one part of a record. */
  method PlantParams(into: Val, ps: seq<Planted>, ghost t: Tree) returns (ok: bool, ghost u: Tree)
    requires AllClear(ps) && Owns(into, t) && Proper(t)
    modifies Objs(t)
    ensures ok <==> AllPresent(t, ps)
    ensures Owns(into, u) && Proper(u) && Objs(u) <= Objs(t)
    ensures ok ==> HoldsAll(u, ps) && SameElsewhere(t, u, ps, None)
  {
    u := t;
    for i := 0 to |ps|
      invariant Owns(into, u) && Proper(u) && Objs(u) <= Objs(t)
      invariant HoldsAll(u, ps[..i]) && SameElsewhere(t, u, ps[..i], None) && AllPresent(t, ps[..i])
    {
      ClearOfEarlier(ps, i);
      TakeOneMore(ps, i);
      var planted, v := PlantParam(into, ps[..i], ps[i], t, u);
      u := v;
      if !planted { return false, u; }
    }
    assert ps[..|ps|] == ps;
    ok := true;
  }

  /** The Topic parameters of the Payload, then those of the Headers. */
  method PlantParts(payloadVal: Val, headersVal: Val, ps: seq<Planted>, hs: seq<Planted>, ghost pt: Tree,
                    ghost ht: Tree)
    returns (ok: bool, ghost pu: Tree, ghost hu: Tree)
    requires AllClear(ps) && AllClear(hs)
    requires Owns(payloadVal, pt) && Owns(headersVal, ht) && Proper(pt) && Proper(ht) && Objs(pt) !! Objs(ht)
    modifies Objs(pt), Objs(ht)
    ensures ok <==> AllPresent(pt, ps) && AllPresent(ht, hs)
    ensures Owns(payloadVal, pu) && Owns(headersVal, hu) && Proper(pu) && Proper(hu)
    ensures Objs(pu) <= Objs(pt) && Objs(hu) <= Objs(ht)
    ensures ok ==> HoldsAll(pu, ps) && SameElsewhere(pt, pu, ps, None)
    ensures ok ==> HoldsAll(hu, hs) && SameElsewhere(ht, hu, hs, None)
  {
    hu := ht;
    ObjsAllocated(pt);
    ObjsAllocated(ht);
    ok, pu := PlantParams(payloadVal, ps, pt);
    if !ok { return; }
    ok, hu := PlantParams(headersVal, hs, ht);
  }

  lemma {:induction false} ClearOfEarlier(ps: seq<Planted>, i: nat)
    requires AllClear(ps) && i < |ps|
    ensures AllClear(ps[..i]) && ClearOfAll(ps[i].path, ps[..i]) && ps[i].path != [] && ResolvedPath(ps[i].path)
  {
  }

  /** The Key, after the parameters of the Payload: u is what they made of t. */
  method PlantKey(into: Val, ghost ps: seq<Planted>, path: seq<Step>, value: Val, ghost t: Tree, ghost u: Tree,
                  ghost x: Tree)
    returns (ok: bool, ghost v: Tree)
    requires AllClear(ps) && path != [] && ResolvedPath(path) && ClearOfAll(path, ps)
    requires Owns(into, u) && Proper(u) && Owns(value, x) && Proper(x) && Objs(x) !! Objs(u)
    requires HoldsAll(u, ps) && SameElsewhere(t, u, ps, None)
    modifies Objs(u)
    ensures ok <==> PathTo(t, path).Some?
    ensures ok ==> Owns(into, v) && Owns(value, x) && Proper(v)
    ensures ok ==> HoldsAll(v, ps) && PathTo(v, path) == Some(x) && SameElsewhere(t, v, ps, Some(path))
    ensures Objs(v) <= Objs(u) + Objs(x)
  {
    assert PathTo(u, path) == PathTo(t, path);
    v := u;
    ok := Plant(into, path, value, u, x);
    if ok {
      GraftKeeps(t, u, ps, path, x);
      v := Graft(u, path, x);
    }
  }

  // ----- New -----

  /** Set: the Plantings of one Message type. */
  class Set {
    var key: Option<seq<Step>>
    var payload: seq<Planted>
    var headers: seq<Planted>

    constructor ()
      ensures key == None && payload == [] && headers == []
    {
      key, payload, headers := None, [], [];
    }

    function Others(inHeaders: bool): seq<Planted>
      reads this
    {
      if inHeaders then headers else payload
    }

    /** What New leaves a Set with: no two Plantings in the same field. */
    ghost predicate Valid()
      reads this
    {
      AllClear(payload) && AllClear(headers) &&
      (key.Some? ==> key.value != [] && ResolvedPath(key.value) && ClearOfAll(key.value, payload))
    }

    /** Plant: every Planting into one record. It misses nothing that is there, and then
        all parameters and the Key sit at their own paths at once, the Key as the very
        object it is, and nothing clear of them has changed. */
    method Plant(payloadVal: Val, headersVal: Val, keyVal: Val, ghost pt: Tree, ghost ht: Tree, ghost kt: Tree)
      returns (ok: bool, ghost pu: Tree, ghost hu: Tree)
      requires Valid() && this !in Objs(pt) + Objs(ht)
      requires Owns(payloadVal, pt) && Owns(headersVal, ht) && Owns(keyVal, kt) && Proper(pt) && Proper(ht)
      requires Proper(kt)
      requires Objs(pt) !! Objs(ht) && Objs(kt) !! (Objs(pt) + Objs(ht))
      modifies Objs(pt), Objs(ht)
      ensures ok <==> AllPresent(pt, payload) && AllPresent(ht, headers) && (key.Some? ==> PathTo(pt, key.value).Some?)
      ensures ok ==> Owns(payloadVal, pu) && Owns(headersVal, hu) && Owns(keyVal, kt) && Proper(pu) && Proper(hu)
      ensures ok ==> HoldsAll(pu, payload) && HoldsAll(hu, headers) && (key.Some? ==> PathTo(pu, key.value) == Some(kt))
      ensures ok ==> SameElsewhere(pt, pu, payload, key) && SameElsewhere(ht, hu, headers, None)
      ensures Objs(pu) <= Objs(pt) + Objs(kt) && Objs(hu) <= Objs(ht)
    {
      pu, hu := pt, ht;
      ObjsAllocated(pt);
      ObjsAllocated(ht);
      ObjsAllocated(kt);
      ok, pu, hu := PlantParts(payloadVal, headersVal, payload, headers, pt, ht);
      if !ok || key.None? { return; }
      ok, pu := PlantKey(payloadVal, payload, key.value, keyVal, pt, pu, kt);
    }

    method Append(inHeaders: bool, p: Planted)
      modifies this
      ensures Others(inHeaders) == old(Others(inHeaders)) + [p]
      ensures Others(!inHeaders) == old(Others(!inHeaders)) && key == old(key)
    {
      if inHeaders { headers := headers + [p]; } else { payload := payload + [p]; }
    }
  }

  /** locate and the overlap checks for one parameter in one Message type. */
  method CheckOne(mt: MessageType, inHeaders: bool, key: Option<seq<Step>>, checks: Checks, have: seq<Planted>,
                  p: Parameter) returns (r: Option<Planted>)
    requires p.pointer.Some?
    ensures r == PlanOne(mt, inHeaders, key, checks, have, p)
  {
    if WalkOf(mt, inHeaders).None? { return None; }
    var l := Locate(WalkOf(mt, inHeaders).value, Tokens(p.pointer.value));
    if l.None? || !checks.holds(l.value.1, p.value) { return None; }
    var path := l.value.0;
    if !inHeaders && key.Some? {
      var over := Overlap(path, key.value);
      if over { return None; }
    }
    for j := 0 to |have|
      invariant forall k | 0 <= k < j :: Clear(path, have[k].path)
    {
      var over := Overlap(path, have[j].path);
      if over { return None; }
    }
    r := Some(Planted(p, path));
  }

  /** One parameter in one Message type. */
  method PlaceIn(mt: MessageType, into: Set, inHeaders: bool, key: Option<seq<Step>>, checks: Checks, p: Parameter)
    returns (ok: bool)
    requires p.pointer.Some?
    modifies into
    ensures ok <==> PlanOne(mt, inHeaders, key, checks, old(into.Others(inHeaders)), p).Some?
    ensures ok ==> OneMorePlanned(mt, inHeaders, key, checks, old(into.Others(inHeaders)), into.Others(inHeaders), p)
    ensures into.key == old(into.key) && into.Others(!inHeaders) == old(into.Others(!inHeaders))
  {
    var planted := CheckOne(mt, inHeaders, key, checks, into.Others(inHeaders), p);
    ok := planted.Some?;
    if ok { into.Append(inHeaders, planted.value); }
  }

  /** A type's plantings of one part, before and after one more parameter is accepted. */
  ghost predicate OneMorePlanned(mt: MessageType, inHeaders: bool, key: Option<seq<Step>>, checks: Checks,
                                 before: seq<Planted>, after: seq<Planted>, p: Parameter)
    requires p.pointer.Some?
  {
    var planted := PlanOne(mt, inHeaders, key, checks, before, p);
    planted.Some? && after == before + [planted.value]
  }

  /** A Set has taken one parameter more, and is otherwise as it was. */
  twostate predicate Took(mt: MessageType, s: Set, inHeaders: bool, key: Option<seq<Step>>, checks: Checks,
                          p: Parameter)
    requires p.pointer.Some?
    reads s
  {
    && OneMorePlanned(mt, inHeaders, key, checks, old(s.Others(inHeaders)), s.Others(inHeaders), p)
    && s.key == old(s.key) && s.Others(!inHeaders) == old(s.Others(!inHeaders))
  }

  /** Every Message type takes the parameter; each Set grows by it. */
  method PlaceOne(types: seq<MessageType>, sets: seq<Set>, inHeaders: bool, key: Option<seq<Step>>, checks: Checks,
                  p: Parameter) returns (ok: bool)
    requires |sets| == |types| && Distinct(sets) && p.pointer.Some?
    modifies sets
    ensures ok <==> forall i | 0 <= i < |types| ::
              PlanOne(types[i], inHeaders, key, checks, old(sets[i].Others(inHeaders)), p).Some?
    ensures ok ==> forall i | 0 <= i < |types| ::
              OneMorePlanned(types[i], inHeaders, key, checks,
                             old(sets[i].Others(inHeaders)), sets[i].Others(inHeaders), p)
    ensures forall i | 0 <= i < |types| ::
              sets[i].key == old(sets[i].key) && sets[i].Others(!inHeaders) == old(sets[i].Others(!inHeaders))
  {
    for i := 0 to |types|
      invariant forall j | 0 <= j < i :: Took(types[j], sets[j], inHeaders, key, checks, p)
      invariant forall j | i <= j < |types| :: unchanged(sets[j])
    {
      assert forall j | 0 <= j < |types| && j != i :: sets[j] != sets[i];
      ok := PlaceIn(types[i], sets[i], inHeaders, key, checks, p);
      if !ok { return; }
    }
    ok := true;
  }

  lemma {:induction false} PlanPrefix(mt: MessageType, inHeaders: bool, key: Option<seq<Step>>, checks: Checks,
                                      ps: seq<Parameter>, n: nat)
    requires n <= |ps| && forall i | 0 <= i < |ps| :: ps[i].pointer.Some?
    requires Plan(mt, inHeaders, key, checks, ps).Some?
    ensures Plan(mt, inHeaders, key, checks, ps[..n]).Some?
  {
    if n < |ps| {
      assert ps[..|ps| - 1][..n] == ps[..n];
      PlanPrefix(mt, inHeaders, key, checks, ps[..|ps| - 1], n);
    } else {
      assert ps[..n] == ps;
    }
  }

  lemma {:induction false} WantedPrefix(params: seq<Parameter>, inHeaders: bool, n: nat)
    requires n <= |params|
    ensures Wanted(params[..n], inHeaders) <= Wanted(params, inHeaders)
    ensures forall i | 0 <= i < |Wanted(params, inHeaders)| ::
              Wanted(params, inHeaders)[i].pointer.Some? && Wanted(params, inHeaders)[i] in params
    decreases |params|
  {
    if params != [] {
      var init := params[..|params| - 1];
      assert params == init + [params[|params| - 1]];
      if n < |params| {
        assert init[..n] == params[..n];
        WantedPrefix(init, inHeaders, n);
      } else {
        assert params[..n] == params;
        WantedPrefix(init, inHeaders, |init|);
      }
    }
  }

  ghost function PlanFor(mt: MessageType, inHeaders: bool, keyPath: string, checks: Checks,
                         params: seq<Parameter>): Option<seq<Planted>> {
    WantedPrefix(params, inHeaders, 0);
    Plan(mt, inHeaders, KeyStepsOf(keyPath), checks, Wanted(params, inHeaders))
  }

  lemma PlanForStep(mt: MessageType, inHeaders: bool, keyPath: string, checks: Checks, params: seq<Parameter>, n: nat)
    requires n < |params|
    ensures PlanFor(mt, inHeaders, keyPath, checks, params).Some? ==>
              PlanFor(mt, inHeaders, keyPath, checks, params[..n + 1]).Some?
    ensures PlanFor(mt, inHeaders, keyPath, checks, params[..n + 1]) ==
              (var before := PlanFor(mt, inHeaders, keyPath, checks, params[..n]);
               if before.None? || params[n].pointer.None? || params[n].inHeaders != inHeaders then before
               else
                 var p := PlanOne(mt, inHeaders, KeyStepsOf(keyPath), checks, before.value, params[n]);
                 if p.None? then None else Some(before.value + [p.value]))
  {
    assert params[..n + 1][..n] == params[..n];
    WantedPrefix(params, inHeaders, n + 1);
    var w, v := Wanted(params, inHeaders), Wanted(params[..n + 1], inHeaders);
    assert v == w[..|v|];
    if Plan(mt, inHeaders, KeyStepsOf(keyPath), checks, w).Some? {
      PlanPrefix(mt, inHeaders, KeyStepsOf(keyPath), checks, w, |v|);
    }
    var u := Wanted(params[..n], inHeaders);
    if params[n].pointer.Some? && params[n].inHeaders == inHeaders { assert v[..|v| - 1] == u; }
  }

  /** One pass of New: the parameters planted into the Payloads, or into the Headers. */
  method PlaceAll(types: seq<MessageType>, sets: seq<Set>, inHeaders: bool, keyPath: string, checks: Checks,
                  params: seq<Parameter>) returns (ok: bool)
    requires |sets| == |types| && Distinct(sets)
    requires forall i | 0 <= i < |sets| :: sets[i].Others(inHeaders) == []
    modifies sets
    ensures ok <==> forall i | 0 <= i < |types| :: PlanFor(types[i], inHeaders, keyPath, checks, params).Some?
    ensures ok ==>
              forall i | 0 <= i < |types| ::
                PlanFor(types[i], inHeaders, keyPath, checks, params) == Some(sets[i].Others(inHeaders))
    ensures forall i | 0 <= i < |types| ::
              sets[i].key == old(sets[i].key) && sets[i].Others(!inHeaders) == old(sets[i].Others(!inHeaders))
  {
    var key := KeyStepsOf(keyPath);
    for n := 0 to |params|
      invariant forall i | 0 <= i < |types| ::
                PlanFor(types[i], inHeaders, keyPath, checks, params[..n]) == Some(sets[i].Others(inHeaders))
      invariant forall i | 0 <= i < |types| ::
                sets[i].key == old(sets[i].key) && sets[i].Others(!inHeaders) == old(sets[i].Others(!inHeaders))
    {
      var p := params[n];
      forall i | 0 <= i < |types| { PlanForStep(types[i], inHeaders, keyPath, checks, params, n); }
      if p.pointer.Some? && p.inHeaders == inHeaders {
        label Before:
        ok := PlaceOne(types, sets, inHeaders, key, checks, p);
        if !ok { return; }
        forall i | 0 <= i < |types|
          ensures PlanFor(types[i], inHeaders, keyPath, checks, params[..n + 1]) == Some(sets[i].Others(inHeaders))
        {
          assert OneMorePlanned(types[i], inHeaders, key, checks,
                                old@Before(sets[i].Others(inHeaders)), sets[i].Others(inHeaders), p);
        }
      }
    }
    assert params[..|params|] == params;
    ok := true;
  }

  /** What New checks, as a condition on the run: every location of every Message type is
      guaranteed, holds its value, and is clear of every other, and the Key path parses, is
      guaranteed and holds the Key. */
  ghost predicate Plantable(types: seq<MessageType>, keyPath: string, params: seq<Parameter>, checks: Checks) {
    && (keyPath != "" ==> ParsePath(keyPath).Some?)
    && forall i | 0 <= i < |types| ::
         && PlanFor(types[i], false, keyPath, checks, params).Some?
         && PlanFor(types[i], true, keyPath, checks, params).Some?
         && PlanKey(types[i], keyPath, checks).Some?
  }

  /** New: the Sets of a run, or a refusal; it refuses exactly the runs that are not plantable. */
  method New(types: seq<MessageType>, keyPath: string, params: seq<Parameter>, checks: Checks)
    returns (ok: bool, sets: seq<Set>)
    ensures ok <==> Plantable(types, keyPath, params, checks)
    ensures fresh(sets) && |sets| == |types| && Distinct(sets)
    ensures ok ==> forall i | 0 <= i < |types| ::
              && PlanFor(types[i], false, keyPath, checks, params) == Some(sets[i].payload)
              && PlanFor(types[i], true, keyPath, checks, params) == Some(sets[i].headers)
              && PlanKey(types[i], keyPath, checks) == Some(sets[i].key)
  {
    sets := EmptySets(|types|);
    ok := PlaceAll(types, sets, false, keyPath, checks, params);
    if !ok { return; }
    assert PayloadsPlanned(types, sets, keyPath, checks, params);
    ok := PlaceAll(types, sets, true, keyPath, checks, params);
    if !ok { return; }
    assert PayloadsPlanned(types, sets, keyPath, checks, params);
    ok := PlaceKeys(types, sets, keyPath, checks);
  }

  ghost predicate PayloadsPlanned(types: seq<MessageType>, sets: seq<Set>, keyPath: string, checks: Checks,
                                  params: seq<Parameter>)
    requires |sets| == |types|
    reads sets
  {
    forall i | 0 <= i < |types| :: PlanFor(types[i], false, keyPath, checks, params) == Some(sets[i].Others(false))
  }

  method EmptySets(n: nat) returns (sets: seq<Set>)
    ensures fresh(sets) && |sets| == n && Distinct(sets)
    ensures forall j | 0 <= j < n :: sets[j].key == None && sets[j].payload == [] && sets[j].headers == []
  {
    sets := [];
    for i := 0 to n
      invariant |sets| == i && fresh(sets) && Distinct(sets)
      invariant forall j | 0 <= j < i :: sets[j].key == None && sets[j].payload == [] && sets[j].headers == []
    {
      var one := new Set();
      sets := sets + [one];
    }
  }

  /** The last loop of New: the Key's path in each Payload. */
  method PlaceKeys(types: seq<MessageType>, sets: seq<Set>, keyPath: string, checks: Checks) returns (ok: bool)
    requires |sets| == |types| && Distinct(sets) && forall i | 0 <= i < |sets| :: sets[i].key == None
    modifies sets
    ensures ok <==> (keyPath != "" ==> ParsePath(keyPath).Some?) &&
                    forall i | 0 <= i < |types| :: PlanKey(types[i], keyPath, checks).Some?
    ensures ok ==> forall i | 0 <= i < |types| :: PlanKey(types[i], keyPath, checks) == Some(sets[i].key)
    ensures forall i | 0 <= i < |types| ::
              sets[i].payload == old(sets[i].payload) && sets[i].headers == old(sets[i].headers)
  {
    if keyPath == "" { return true; }
    var steps := ReadPath(keyPath);
    if steps.None? { return false; }
    for i := 0 to |types|
      invariant forall j | 0 <= j < i :: PlanKey(types[j], keyPath, checks) == Some(sets[j].key)
      invariant forall j | i <= j < |types| :: sets[j].key == None
      invariant forall j | 0 <= j < |types| ::
                sets[j].payload == old(sets[j].payload) && sets[j].headers == old(sets[j].headers)
    {
      var l := Locate(types[i].payload, steps.value);
      if l.None? || !checks.holdsKey(l.value.1) {
        assert PlanKey(types[i], keyPath, checks).None?;
        return false;
      }
      assert forall j | 0 <= j < |types| && j != i :: sets[j] != sets[i];
      sets[i].key := Some(l.value.0);
    }
    ok := true;
  }
}
