/** Which runs planting accepts (internal/planting/planting.go), said of all parameters at once: each
    lands where it holds its value, and no two Plantings of a part overlap. */
module RunsAccepted {
  import opened JsonValues
  import opened Paths
  import opened KeyPaths
  import opened Records
  import opened Plantings

  /** The path a parameter lands at in a Message type, where one is located and holds the value. */
  ghost function Landing(mt: MessageType, checks: Checks, p: Parameter): Option<seq<Step>> {
    if p.pointer.None? || WalkOf(mt, p.inHeaders).None? then None else
      var l := WalkTo(WalkOf(mt, p.inHeaders).value, Tokens(p.pointer.value));
      if l.Some? && checks.holds(l.value.1, p.value) then Some(l.value.0) else None
  }

  type Landings = Parameter -> Option<seq<Step>>

  /** One path leads to or into the other. */
  predicate Touch(a: seq<Step>, b: seq<Step>) { a <= b || b <= a }

  predicate For(p: Parameter, inHeaders: bool) { p.pointer.Some? && p.inHeaders == inHeaders }

  /** A parameter lands, in the Payload clear of the Key. */
  predicate LandsAlone(land: Landings, key: Option<seq<Step>>, p: Parameter) {
    land(p).Some? && (p.inHeaders || key.None? || !Touch(land(p).value, key.value))
  }

  predicate Apart(land: Landings, p: Parameter, q: Parameter) {
    land(p).Some? && land(q).Some? ==> !Touch(land(p).value, land(q).value)
  }

  /** The first n parameters can all be planted into one part. */
  ghost predicate TakesPart(land: Landings, inHeaders: bool, key: Option<seq<Step>>, params: seq<Parameter>, n: nat)
    requires n <= |params|
  {
    (forall i | 0 <= i < n && For(params[i], inHeaders) :: LandsAlone(land, key, params[i])) &&
    forall i, j | 0 <= i < j < n && For(params[i], inHeaders) && For(params[j], inHeaders) ::
      Apart(land, params[i], params[j])
  }

  /** The Key lands in the Payload where it may stand. */
  ghost predicate TakesKey(mt: MessageType, keyPath: string, checks: Checks) {
    keyPath != "" ==>
      ParsePath(keyPath).Some? && WalkTo(mt.payload, ParsePath(keyPath).value).Some? &&
      checks.holdsKey(WalkTo(mt.payload, ParsePath(keyPath).value).value.1)
  }

  // ----- What is planned -----

  ghost predicate AmongFirst(params: seq<Parameter>, n: nat, inHeaders: bool, p: Parameter)
    requires n <= |params|
  {
    For(p, inHeaders) && exists i :: 0 <= i < n && params[i] == p
  }

  ghost predicate HasParam(r: seq<Planted>, p: Parameter) { exists j :: 0 <= j < |r| && r[j].param == p }

  /** The first n parameters of a part, each at the path it lands at. */
  ghost predicate PlannedFor(land: Landings, inHeaders: bool, params: seq<Parameter>, n: nat, r: seq<Planted>)
    requires n <= |params|
  {
    (forall j | 0 <= j < |r| :: land(r[j].param) == Some(r[j].path) && AmongFirst(params, n, inHeaders, r[j].param)) &&
    forall i | 0 <= i < n && For(params[i], inHeaders) :: HasParam(r, params[i])
  }

  predicate ClearOfEach(land: Landings, p: Parameter, have: seq<Planted>) {
    land(p).Some? ==> forall j | 0 <= j < |have| :: !Touch(land(p).value, have[j].path)
  }

  lemma {:induction false} PlanOneIs(mt: MessageType, key: Option<seq<Step>>, checks: Checks, have: seq<Planted>,
                                     p: Parameter, land: Landings)
    requires p.pointer.Some? && land(p) == Landing(mt, checks, p)
    ensures var r := PlanOne(mt, p.inHeaders, key, checks, have, p);
            (r.Some? <==> LandsAlone(land, key, p) && ClearOfEach(land, p, have)) &&
            (r.Some? ==> r.value.param == p && land(p) == Some(r.value.path))
  {
  }

  /** The plan of a part succeeds exactly where the part takes its parameters. */
  lemma {:induction false} PartExactly(mt: MessageType, inHeaders: bool, keyPath: string, checks: Checks,
                                       params: seq<Parameter>, n: nat, land: Landings)
    requires n <= |params| && forall p :: land(p) == Landing(mt, checks, p)
    ensures var r := PlanFor(mt, inHeaders, keyPath, checks, params[..n]);
            (r.Some? <==> TakesPart(land, inHeaders, KeyStepsOf(keyPath), params, n)) &&
            (r.Some? ==> PlannedFor(land, inHeaders, params, n, r.value))
  {
    if n > 0 {
      var key, p := KeyStepsOf(keyPath), params[n - 1];
      PartExactly(mt, inHeaders, keyPath, checks, params, n - 1, land);
      PlanForStep(mt, inHeaders, keyPath, checks, params, n - 1);
      TakesMore(land, inHeaders, key, params, n);
      var before := PlanFor(mt, inHeaders, keyPath, checks, params[..n - 1]);
      if before.Some? && For(p, inHeaders) {
        NextExactly(mt, inHeaders, key, checks, params, n, before.value, land);
      } else if before.Some? {
        PlannedSame(land, inHeaders, params, n, before.value);
      }
    }
  }

  /** The next parameter of a part is planned exactly where it lands apart from those before it. */
  lemma {:induction false} NextExactly(mt: MessageType, inHeaders: bool, key: Option<seq<Step>>, checks: Checks,
                                       params: seq<Parameter>, n: nat, before: seq<Planted>, land: Landings)
    requires 0 < n <= |params| && For(params[n - 1], inHeaders)
    requires land(params[n - 1]) == Landing(mt, checks, params[n - 1])
    requires PlannedFor(land, inHeaders, params, n - 1, before)
    ensures var planned := PlanOne(mt, inHeaders, key, checks, before, params[n - 1]);
            (planned.Some? <==> LandsAlone(land, key, params[n - 1]) && ApartFrom(land, inHeaders, params, n - 1)) &&
            (planned.Some? ==> PlannedFor(land, inHeaders, params, n, before + [planned.value]))
  {
    PlanOneIs(mt, key, checks, before, params[n - 1], land);
    ClearIsApart(land, inHeaders, params, n, before);
    var planned := PlanOne(mt, inHeaders, key, checks, before, params[n - 1]);
    if planned.Some? { PlannedMore(land, inHeaders, params, n, before, planned.value); }
  }

  /** Parameter n is apart from those before it. */
  ghost predicate ApartFrom(land: Landings, inHeaders: bool, params: seq<Parameter>, n: nat)
    requires n < |params|
  {
    forall i | 0 <= i < n && For(params[i], inHeaders) :: Apart(land, params[i], params[n])
  }

  lemma {:induction false} TakesMore(land: Landings, inHeaders: bool, key: Option<seq<Step>>, params: seq<Parameter>,
                                     n: nat)
    requires 0 < n <= |params|
    ensures TakesPart(land, inHeaders, key, params, n) <==>
              TakesPart(land, inHeaders, key, params, n - 1) &&
              (For(params[n - 1], inHeaders) ==>
                LandsAlone(land, key, params[n - 1]) && ApartFrom(land, inHeaders, params, n - 1))
  {
  }

  lemma {:induction false} ClearIsApart(land: Landings, inHeaders: bool, params: seq<Parameter>, n: nat,
                                        have: seq<Planted>)
    requires 0 < n <= |params| && PlannedFor(land, inHeaders, params, n - 1, have)
    ensures ClearOfEach(land, params[n - 1], have) <==> ApartFrom(land, inHeaders, params, n - 1)
  {
    var p := params[n - 1];
    if ClearOfEach(land, p, have) {
      forall i | 0 <= i < n - 1 && For(params[i], inHeaders) ensures Apart(land, params[i], p) {
        assert HasParam(have, params[i]);
        var j :| 0 <= j < |have| && have[j].param == params[i];
      }
    }
    if land(p).Some? && ApartFrom(land, inHeaders, params, n - 1) {
      forall j | 0 <= j < |have| ensures !Touch(land(p).value, have[j].path) {
        assert AmongFirst(params, n - 1, inHeaders, have[j].param);
        var i :| 0 <= i < n - 1 && params[i] == have[j].param;
        assert Apart(land, params[i], p);
      }
    }
  }

  lemma {:induction false} AmongMore(params: seq<Parameter>, n: nat, inHeaders: bool, p: Parameter)
    requires 0 < n <= |params| && AmongFirst(params, n - 1, inHeaders, p)
    ensures AmongFirst(params, n, inHeaders, p)
  {
    var i :| 0 <= i < n - 1 && params[i] == p;
    assert 0 <= i < n;
  }

  lemma {:induction false} PlannedMore(land: Landings, inHeaders: bool, params: seq<Parameter>, n: nat,
                                       have: seq<Planted>, p: Planted)
    requires 0 < n <= |params| && PlannedFor(land, inHeaders, params, n - 1, have)
    requires For(params[n - 1], inHeaders) && p.param == params[n - 1] && land(p.param) == Some(p.path)
    ensures PlannedFor(land, inHeaders, params, n, have + [p])
  {
    var r := have + [p];
    forall j | 0 <= j < |r| ensures AmongFirst(params, n, inHeaders, r[j].param) {
      if j < |have| { AmongMore(params, n, inHeaders, have[j].param); } else { assert params[n - 1] == r[j].param; }
    }
    forall i | 0 <= i < n && For(params[i], inHeaders) ensures HasParam(r, params[i]) {
      if i == n - 1 {
        assert r[|have|].param == params[i];
      } else {
        assert HasParam(have, params[i]);
        var j :| 0 <= j < |have| && have[j].param == params[i];
        assert r[j].param == params[i];
      }
    }
  }

  lemma {:induction false} PlannedSame(land: Landings, inHeaders: bool, params: seq<Parameter>, n: nat,
                                       have: seq<Planted>)
    requires 0 < n <= |params| && PlannedFor(land, inHeaders, params, n - 1, have)
    requires !For(params[n - 1], inHeaders)
    ensures PlannedFor(land, inHeaders, params, n, have)
  {
    forall j | 0 <= j < |have| ensures AmongFirst(params, n, inHeaders, have[j].param) {
      AmongMore(params, n, inHeaders, have[j].param);
    }
  }

  /** A Message type takes the run: every parameter lands, in the Payload clear of the Key, those of
      one part apart from each other, and the Key lands. */
  ghost predicate Takes(mt: MessageType, keyPath: string, params: seq<Parameter>, checks: Checks) {
    var land := (p: Parameter) => Landing(mt, checks, p);
    TakesPart(land, false, KeyStepsOf(keyPath), params, |params|) &&
    TakesPart(land, true, KeyStepsOf(keyPath), params, |params|) && TakesKey(mt, keyPath, checks)
  }

  /** A run is accepted if and only if the Key path can be read and every Message type takes it. */
  lemma {:induction false} AcceptedExactly(types: seq<MessageType>, keyPath: string, params: seq<Parameter>,
                                           checks: Checks)
    ensures Plantable(types, keyPath, params, checks) <==>
              (keyPath != "" ==> ParsePath(keyPath).Some?) &&
              forall i | 0 <= i < |types| :: Takes(types[i], keyPath, params, checks)
  {
    forall i | 0 <= i < |types|
      ensures Takes(types[i], keyPath, params, checks) <==>
                PlanFor(types[i], false, keyPath, checks, params).Some? &&
                PlanFor(types[i], true, keyPath, checks, params).Some? && TakesKey(types[i], keyPath, checks)
    {
      TypeExactly(types[i], keyPath, params, checks);
    }
  }

  lemma {:induction false} TypeExactly(mt: MessageType, keyPath: string, params: seq<Parameter>, checks: Checks)
    ensures Takes(mt, keyPath, params, checks) <==>
              PlanFor(mt, false, keyPath, checks, params).Some? && PlanFor(mt, true, keyPath, checks, params).Some? &&
              TakesKey(mt, keyPath, checks)
  {
    var land := (p: Parameter) => Landing(mt, checks, p);
    assert params[..|params|] == params;
    PartExactly(mt, false, keyPath, checks, params, |params|, land);
    PartExactly(mt, true, keyPath, checks, params, |params|, land);
  }
}
