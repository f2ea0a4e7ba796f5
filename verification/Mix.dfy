/** Each message whole (internal/wire/mix.go): Payload, Headers and Key drawn, then every
    Planting of its Message type written in. */
module Mix {
  import opened JsonValues
  import opened Draws
  import opened Records
  import opened Plantings
  import opened Sources
  import opened KeyPool
  import G = Generator

  /** A Message type as a run binds it. */
  datatype Bound = Bound(name: string, payload: Source, headers: Option<Node>, planting: Set)

  datatype KeySource = NoKey | EachFresh(source: Source) | Reused(pool: Pool)
  {
    /** What drawing a Key writes. */
    ghost function Parts(): set<object> {
      match this
      case NoKey => {}
      case EachFresh(source) => source.Parts()
      case Reused(pool) => {pool, pool.picker} + pool.source.Parts()
    }
  }

  /** What one call comes to: a message, an error from generation, or a Planting that missed. */
  datatype Generated =
    | Message(typ: nat, key: Val, payload: Val, headers: Val)
    | Stopped
    | Missed

  /** The Plantings Plant has given a type: valid, and found in every record it generates. */
  ghost predicate Prepared(b: Bound)
    reads b.planting
  {
    && b.payload.Ready() && b.planting.Valid()
    && (forall i | 0 <= i < |b.planting.payload| :: InEvery(b.payload.Of(), b.planting.payload[i].path))
    && (b.planting.headers != [] ==> b.headers.Some?)
    && (b.headers.Some? ==>
          forall i | 0 <= i < |b.planting.headers| :: InEvery(JsonWalk(b.headers.value), b.planting.headers[i].path))
    && (b.planting.key.Some? ==> InEvery(b.payload.Of(), b.planting.key.value))
  }

  function MessageOf(name: string, walk: Walk, headers: Option<Node>): MessageType {
    MessageType(name, walk, if headers.Some? then Some(JsonWalk(headers.value)) else None)
  }

  /** What New plans for a type is what Set.Plant needs of it. */
  lemma PlannedIsPrepared(b: Bound, keyPath: string, checks: Checks, params: seq<Parameter>)
    requires b.payload.Ready()
    requires forall i | 0 <= i < |params| :: params[i].pointer.Some? ==> params[i].pointer.value != []
    requires PlanFor(MessageOf(b.name, b.payload.Of(), b.headers), false, keyPath, checks, params) ==
              Some(b.planting.payload)
    requires PlanFor(MessageOf(b.name, b.payload.Of(), b.headers), true, keyPath, checks, params) ==
              Some(b.planting.headers)
    requires PlanKey(MessageOf(b.name, b.payload.Of(), b.headers), keyPath, checks) == Some(b.planting.key)
    ensures Prepared(b)
  {
    var mt := MessageOf(b.name, b.payload.Of(), b.headers);
    WantedPrefix(params, false, 0);
    WantedPrefix(params, true, 0);
    PlanSound(mt, false, KeyStepsOf(keyPath), checks, Wanted(params, false));
    PlanSound(mt, true, KeyStepsOf(keyPath), checks, Wanted(params, true));
    if b.planting.key.Some? {
      KeyAskable(keyPath);
      LocatedInEvery(mt.payload, KeyStepsOf(keyPath).value);
    }
    assert b.planting.headers != [] ==> WalkOf(mt, true).Some?;
  }

  ghost function MessagesOf(types: seq<(string, Source, Option<Node>)>): (r: seq<MessageType>)
    ensures |r| == |types| && forall i | 0 <= i < |r| :: r[i] == MessageOf(types[i].0, types[i].1.Of(), types[i].2)
  {
    seq(|types|, i requires 0 <= i < |types| => MessageOf(types[i].0, types[i].1.Of(), types[i].2))
  }

  /** Plant: every Planting of the run checked, and each type given its own. */
  method Plant(types: seq<(string, Source, Option<Node>)>, keyPath: string, params: seq<Parameter>, checks: Checks)
    returns (ok: bool, bound: seq<Bound>)
    requires forall i | 0 <= i < |types| :: types[i].1.Ready()
    requires forall i | 0 <= i < |params| :: params[i].pointer.Some? ==> params[i].pointer.value != []
    ensures ok <==> Plantable(MessagesOf(types), keyPath, params, checks)
    ensures ok ==> |bound| == |types| && forall i | 0 <= i < |types| ::
              fresh(bound[i].planting) && bound[i] == Bound(types[i].0, types[i].1, types[i].2, bound[i].planting) &&
              Prepared(bound[i])
  {
    var walks: seq<MessageType> := [];
    for i := 0 to |types|
      invariant |walks| == i && forall j | 0 <= j < i :: walks[j] == MessageOf(types[j].0, types[j].1.Of(), types[j].2)
    {
      var walk := match types[i].1 case JsonSource(_, schema) => JsonWalk(schema) case AvroSource(_, w) => w;
      walks := walks + [MessageOf(types[i].0, walk, types[i].2)];
    }
    assert walks == MessagesOf(types);
    var sets;
    ok, sets := New(walks, keyPath, params, checks);
    bound := [];
    if !ok { return; }
    bound := seq(|types|, i requires 0 <= i < |types| && |sets| == |types| =>
                   Bound(types[i].0, types[i].1, types[i].2, sets[i]));
    forall i | 0 <= i < |types| ensures Prepared(bound[i]) && fresh(bound[i].planting) {
      assert sets[i] in sets;
      PlannedIsPrepared(bound[i], keyPath, checks, params);
    }
  }

  /** The trees of one message: the records drawn, the records planted into, and the Key. */
  datatype Made = Made(drawn: Tree, drawnHeaders: Tree, payload: Tree, headers: Tree, key: Tree)

  /** Each value planted sits at its own path, the Key the very object it is, and everything
      clear of them is as drawn. */
  ghost predicate PlantedIn(s: Set, payload: Val, headers: Val, key: Val, made: Made)
    reads s, Objs(made.payload), Objs(made.headers), Objs(made.key)
  {
    && Owns(payload, made.payload) && Owns(headers, made.headers) && Owns(key, made.key)
    && HoldsAll(made.payload, s.payload) && HoldsAll(made.headers, s.headers)
    && (s.key.Some? ==> PathTo(made.payload, s.key.value) == Some(made.key))
    && SameElsewhere(made.drawn, made.payload, s.payload, s.key)
    && SameElsewhere(made.drawnHeaders, made.headers, s.headers, None)
  }

  /** A generated record holds every path planted into it. */
  lemma AllThere(w: Walk, t: Tree, ps: seq<Planted>)
    requires Proper(t) && Generates(w, View(t)) && forall i | 0 <= i < |ps| :: InEvery(w, ps[i].path)
    ensures AllPresent(t, ps)
  {
    forall i | 0 <= i < |ps| ensures PathTo(t, ps[i].path).Some? { ViewAlong(t, ps[i].path); }
  }

  lemma PreparedFinds(b: Bound, pt: Tree, ht: Tree)
    requires Prepared(b) && Proper(pt) && Proper(ht)
    requires Generates(b.payload.Of(), View(pt)) && (b.headers.Some? ==> Generates(JsonWalk(b.headers.value), View(ht)))
    ensures Finds(b.planting, pt, ht)
  {
    AllThere(b.payload.Of(), pt, b.planting.payload);
    if b.headers.Some? { AllThere(JsonWalk(b.headers.value), ht, b.planting.headers); }
    if b.planting.key.Some? { ViewAlong(pt, b.planting.key.value); }
  }

  /** Every path of a valid Set is in the records. */
  ghost predicate Finds(s: Set, pt: Tree, ht: Tree)
    reads s
  {
    s.Valid() && AllPresent(pt, s.payload) && AllPresent(ht, s.headers) &&
    (s.key.Some? ==> PathTo(pt, s.key.value).Some?)
  }

  /** Every Planting of a type into records its schemas generated: none can miss. */
  method PlantInto(s: Set, payload: Val, headersVal: Val, key: Val, ghost pt: Tree, ghost ht: Tree, ghost kt: Tree)
    returns (ok: bool, ghost made: Made)
    requires Finds(s, pt, ht) && s !in Objs(pt) + Objs(ht)
    requires Owns(payload, pt) && Owns(headersVal, ht) && Owns(key, kt) && Proper(pt) && Proper(ht) && Proper(kt)
    requires Objs(pt) !! Objs(ht) && Objs(kt) !! (Objs(pt) + Objs(ht))
    modifies Objs(pt), Objs(ht)
    ensures Objs(made.payload) <= Objs(pt) + Objs(kt) && Objs(made.headers) <= Objs(ht)
    ensures ok && made.drawn == pt && made.drawnHeaders == ht && made.key == kt
    ensures PlantedIn(s, payload, headersVal, key, made)
  {
    ghost var pu, hu;
    ok, pu, hu := s.Plant(payload, headersVal, key, pt, ht, kt);
    made := Made(pt, ht, pu, hu, kt);
  }

  /** A Payload and Headers that the type's schemas generate. */
  ghost predicate RecordsOf(b: Bound, payload: Val, headersVal: Val, pt: Tree, ht: Tree)
    reads Objs(pt), Objs(ht)
  {
    && Owns(payload, pt) && Proper(pt) && Generates(b.payload.Of(), View(pt))
    && Owns(headersVal, ht) && Proper(ht) && HeadersOf(b, ht)
  }

  ghost predicate HeadersOf(b: Bound, ht: Tree) {
    b.headers.Some? ==> Generates(JsonWalk(b.headers.value), View(ht))
  }

  ghost predicate RecordsAnswer(b: Bound) {
    Answers(b.payload.Of()) && (b.headers.Some? ==> Answers(JsonWalk(b.headers.value)))
  }

  /** The history of fresh Keys, before and after one that may be drawn. */
  ghost predicate Grew(before: seq<Laid>, after: seq<Laid>, key: Option<Val>, t: Tree) {
    after == before || (key.Some? && after == before + [Laid(key.value, t)])
  }

  function KeyOf(r: Generated): Option<Val> { if r.Message? then Some(r.key) else None }

  /** What drawing from a list of bound types writes. */
  ghost function DrawnFrom(types: seq<Bound>): set<object> {
    set i, o | 0 <= i < |types| && o in types[i].payload.Parts() :: o
  }

  class Mix {
    const synth: Synthesizer
    const types: seq<Bound>
    const headers: G.Generator
    const key: KeySource

    constructor (synth: Synthesizer, types: seq<Bound>, headers: G.Generator, key: KeySource)
      ensures this.synth == synth && this.types == types && this.headers == headers && this.key == key
    {
      this.synth, this.types, this.headers, this.key := synth, types, headers, key;
    }

    /** The run's own state: the draws, the generators and the ring. No record and no Key,
        pooled or not, is part of it. */
    ghost function Machinery(): set<object> {
      {synth, headers, headers.synth} + DrawnFrom(types) + key.Parts()
    }

    /** The objects of the pooled Keys. */
    ghost function Pooled(): set<object>
      reads if key.Reused? then {key.pool} else {}
    {
      if key.Reused? then KidObjs(key.pool.trees) else {}
    }

    /** Every fresh Key of the run so far, in order; the ring holds the latest of them. */
    ghost function History(): seq<Laid>
      reads if key.Reused? then {key.pool} else {}
    {
      if key.Reused? then key.pool.history else []
    }

    ghost predicate Plantings()
      reads set i | 0 <= i < |types| :: types[i].planting
    {
      forall i | 0 <= i < |types| :: Prepared(types[i]) && types[i].planting !in Machinery()
    }

    ghost predicate KeyReady()
      reads if key.Reused? then {key.pool} else {}, Pooled()
    {
      match key
      case NoKey => true
      case EachFresh(source) => source.Ready()
      case Reused(pool) => pool.Valid() && Machinery() !! Pooled()
    }

    lemma MachineryAllocated()
      ensures forall o | o in Machinery() :: allocated(o)
    {
      forall o | o in DrawnFrom(types) ensures allocated(o) {
        var i :| 0 <= i < |types| && o in types[i].payload.Parts();
        assert allocated(types[i].payload);
      }
    }

    /** No draws stop a run: each schema it draws from answers every time. */
    ghost predicate Unstoppable() {
      (forall i | 0 <= i < |types| :: RecordsAnswer(types[i])) && KeyAnswers()
    }

    ghost predicate KeyAnswers() {
      match key
      case NoKey => true
      case EachFresh(source) => Answers(source.Of())
      case Reused(pool) => Answers(pool.source.Of())
    }

    /** A Key of this run: none, one its source generates, or one of the ring's Entities. */
    ghost predicate KeyOfRun(v: Val, t: Tree)
      reads if key.Reused? then {key.pool} else {}
    {
      match key
      case NoKey => v == Scalar(Null)
      case EachFresh(source) => Generates(source.Of(), View(t))
      case Reused(_) => Laid(v, t) in Latest(History())
    }

    /** None of the run's own state is part of a message, so no later one writes into it. */
    ghost predicate Apart(made: Made) { Parts(made) !! Machinery() }

    /** The Key of one message, drawn anew or reused. */
    method DrawKey() returns (r: Option<Val>, ghost t: Tree)
      requires KeyReady()
      modifies key.Parts()
      ensures KeyReady() && (KeyAnswers() ==> r.Some?)
      ensures r.Some? ==> Owns(r.value, t) && Proper(t) && KeyOfRun(r.value, t)
      ensures Grew(old(History()), History(), r, t)
      ensures r.Some? ==> forall o | o in Objs(t) :: o in Pooled() || fresh(o)
      ensures forall o | o in Pooled() :: o in old(Pooled()) || fresh(o)
    {
      MachineryAllocated();
      match key
      case NoKey => r, t := Some(Scalar(Null)), TScalar(Null);
      case EachFresh(source) => r, t := source.Value();
      case Reused(pool) => r, t := pool.Value();
    }

    /** DrawKey keeps the Key and the ring apart from what was drawn before it. */
    method DrawKeyApart(ghost drawn: set<object>) returns (r: Option<Val>, ghost t: Tree)
      requires KeyReady() && drawn !! Pooled()
      modifies key.Parts()
      ensures KeyReady() && (KeyAnswers() ==> r.Some?)
      ensures r.Some? ==> Owns(r.value, t) && Proper(t) && KeyOfRun(r.value, t)
      ensures Grew(old(History()), History(), r, t)
      ensures r.Some? ==> (Objs(t) + Pooled()) !! drawn && Objs(t) !! Machinery()
      ensures forall o | o in Pooled() :: o in old(Pooled()) || fresh(o)
    {
      MachineryAllocated();
      r, t := DrawKey();
    }

    /** The Payload and the Headers of one message, each in objects of its own. */
    method DrawRecords(b: Bound) returns (ok: bool, payload: Val, headersVal: Val, ghost pt: Tree, ghost ht: Tree)
      requires b.payload.Ready()
      modifies b.payload.Parts(), headers, headers.synth
      ensures RecordsAnswer(b) ==> ok
      ensures ok ==> RecordsOf(b, payload, headersVal, pt, ht)
      ensures fresh(Objs(pt)) && fresh(Objs(ht)) && Objs(pt) !! Objs(ht)
    {
      ok, payload, headersVal, ht := false, Scalar(Null), Scalar(Null), TScalar(Null);
      var p;
      p, pt := b.payload.Value();
      if p.None? { return; }
      payload := p.value;
      ObjsAllocated(pt);
      if b.headers.Some? {
        var h;
        h, ht := headers.Value(b.headers.value);
        if !h.Made? { return; }
        headersVal := h.v;
      }
      ok := true;
    }

    lemma PooledAllocated()
      ensures forall o | o in Pooled() :: allocated(o)
    {
      if key.Reused? { KidsAllocated(key.pool.trees); }
    }

    /** What writes neither the ring nor a pooled Key leaves both as they are. */
    twostate lemma KeyKept()
      requires old(KeyReady()) && (key.Reused? ==> old(allocated(key.pool)) && unchanged(key.pool))
      requires forall o: object | o in Pooled() :: old(allocated(o)) && unchanged(o)
      ensures KeyReady() && Pooled() == old(Pooled()) && History() == old(History())
    {
      if key.Reused? {
        assert Pooled() == KidObjs(key.pool.trees);
        key.pool.StaysValid();
      }
    }

    lemma PartsInMachinery(i: nat)
      requires i < |types|
      ensures types[i].payload.Parts() <= Machinery()
    {
      assert types[i].payload.Parts() <= DrawnFrom(types);
    }

    lemma {:induction false} PoolApart(i: nat)
      requires i < |types| && KeyReady() && key.Reused?
      ensures key.pool !in types[i].payload.Parts() + {headers, headers.synth}
      ensures Pooled() !! (types[i].payload.Parts() + {headers, headers.synth})
    {
      PartsInMachinery(i);
      PoolIsNoPart(i);
    }

    /** A ring is neither a generator nor a source of draws. */
    lemma {:induction false} PoolIsNoPart(i: nat)
      requires i < |types| && key.Reused?
      ensures key.pool !in types[i].payload.Parts() + {headers, headers.synth}
    {
    }

    /** DrawRecords for a type of the run, which leaves the ring alone. */
    method DrawFor(i: nat) returns (ok: bool, payload: Val, headersVal: Val, ghost pt: Tree, ghost ht: Tree)
      requires i < |types| && types[i].payload.Ready() && KeyReady()
      modifies types[i].payload.Parts(), headers, headers.synth
      ensures KeyReady() && Pooled() == old(Pooled()) && History() == old(History()) && (RecordsAnswer(types[i]) ==> ok)
      ensures ok ==> RecordsOf(types[i], payload, headersVal, pt, ht)
      ensures fresh(Objs(pt)) && fresh(Objs(ht)) && Objs(pt) !! Objs(ht)
    {
      if key.Reused? { PoolApart(i); }
      PooledAllocated();
      label Before:
      ok, payload, headersVal, pt, ht := DrawRecords(types[i]);
      KeyKept@Before();
    }

    /** A Payload, Headers and a Key of a type, none sharing an object with the Payload or the
        Headers, and no pooled Key either. */
    ghost predicate DrawnFor(i: nat, payload: Val, headersVal: Val, k: Val, pt: Tree, ht: Tree, kt: Tree)
      requires i < |types|
      reads Objs(pt), Objs(ht), Objs(kt), if key.Reused? then {key.pool} else {}
    {
      && RecordsOf(types[i], payload, headersVal, pt, ht) && Owns(k, kt) && Proper(kt)
      && Objs(pt) !! Objs(ht) && (Objs(kt) + Pooled()) !! (Objs(pt) + Objs(ht))
    }

    /** One message's Payload, Headers and Key, before planting. */
    method DrawMessage(i: nat)
      returns (ok: bool, payload: Val, headersVal: Val, key: Val, ghost pt: Tree, ghost ht: Tree, ghost kt: Tree)
      requires i < |types| && types[i].payload.Ready() && KeyReady()
      modifies Machinery()
      ensures KeyReady() && (RecordsAnswer(types[i]) && KeyAnswers() ==> ok)
      ensures ok ==> DrawnFor(i, payload, headersVal, key, pt, ht, kt) && fresh(Objs(pt)) && fresh(Objs(ht))
      ensures ok ==> KeyOfRun(key, kt) && Objs(kt) !! Machinery()
      ensures Grew(old(History()), History(), if ok then Some(key) else None, kt)
      ensures forall o | o in Pooled() :: o in old(Pooled()) || fresh(o)
    {
      key, kt := Scalar(Null), TScalar(Null);
      MachineryAllocated();
      PooledAllocated();
      PartsInMachinery(i);
      ok, payload, headersVal, pt, ht := DrawFor(i);
      if !ok { return; }
      ObjsAllocated(pt);
      ObjsAllocated(ht);
      var k;
      k, kt := DrawKeyApart(Objs(pt) + Objs(ht));
      if k.None? { return false, payload, headersVal, key, pt, ht, kt; }
      key := k.value;
    }

    /** PlantInto for a type of the run, which leaves the ring and the Sets alone. */
    method PlantFor(i: nat, payload: Val, headersVal: Val, key: Val, ghost pt: Tree, ghost ht: Tree, ghost kt: Tree)
      returns (ok: bool, ghost made: Made)
      requires i < |types| && Prepared(types[i]) && KeyReady()
      requires forall j | 0 <= j < |types| :: types[j].planting !in Objs(pt) + Objs(ht)
      requires DrawnFor(i, payload, headersVal, key, pt, ht, kt)
      requires this.key.Reused? ==> this.key.pool !in Objs(pt) + Objs(ht)
      modifies Objs(pt), Objs(ht)
      ensures ok && made.drawn == pt && made.drawnHeaders == ht && made.key == kt
      ensures PlantedIn(types[i].planting, payload, headersVal, key, made)
      ensures Objs(made.payload) <= Objs(pt) + Objs(kt) && Objs(made.headers) <= Objs(ht)
      ensures KeyReady() && Pooled() == old(Pooled()) && History() == old(History())
    {
      PooledAllocated();
      PreparedFinds(types[i], pt, ht);
      label Before:
      ok, made := PlantInto(types[i].planting, payload, headersVal, key, pt, ht, kt);
      KeyKept@Before();
    }

    /** A message as Generate leaves it: drawn from its type's schemas, with every Planting in
        its place, and apart from the run's own state. */
    ghost predicate Delivered(r: Generated, made: Made)
      reads set i | 0 <= i < |types| :: types[i].planting
      reads Parts(made)
    {
      && r.Message? && r.typ < |types|
      && Generates(types[r.typ].payload.Of(), View(made.drawn)) && HeadersOf(types[r.typ], made.drawnHeaders)
      && PlantedIn(types[r.typ].planting, r.payload, r.headers, r.key, made) && Apart(made)
    }

    /** One message of a type, drawn whole and then planted into. */
    method MessageOfType(i: nat) returns (r: Generated, ghost made: Made)
      requires i < |types| && Plantings() && KeyReady()
      modifies Machinery()
      ensures KeyReady() && !r.Missed?
      ensures RecordsAnswer(types[i]) && KeyAnswers() ==> r.Message?
      ensures r.Message? ==> r.typ == i && Delivered(r, made) && KeyOfRun(r.key, made.key)
      ensures Grew(old(History()), History(), KeyOf(r), made.key)
      ensures forall o | o in Pooled() :: o in old(Pooled()) || fresh(o)
    {
      made := Made(TScalar(Null), TScalar(Null), TScalar(Null), TScalar(Null), TScalar(Null));
      MachineryAllocated();
      PooledAllocated();
      var ok, payload, headersVal, key, pt, ht, kt := DrawMessage(i);
      if !ok { return Stopped, made; }
      ok, made := PlantFor(i, payload, headersVal, key, pt, ht, kt);
      r := if ok then Message(i, key, payload, headersVal) else Missed;
    }

    /** The type a word of the source chooses; a run of one type draws nothing. */
    function TypeAt(word: nat): nat { if |types| > 1 then Below(word, |types|) else 0 }

    /** Every type of the run is chosen by some word. */
    lemma {:induction false} EveryTypeChosen(i: nat)
      requires i < |types|
      ensures exists word :: TypeAt(word) == i
    {
      assert TypeAt(i) == i;
    }

    /** The type of the next message. */
    method ChooseType() returns (i: nat)
      requires |types| > 0 && KeyReady()
      modifies synth
      ensures i < |types| && i == TypeAt(synth.words(old(synth.pos)))
      ensures KeyReady() && Pooled() == old(Pooled()) && History() == old(History())
    {
      PooledAllocated();
      i := 0;
      if |types| > 1 { i := synth.Pick(|types|); }
    }

    /** Generate: no Planting ever misses, whatever is drawn; every value planted sits at its
        own path, and nothing that existed before is written but the run's own state. A run
        whose schemas always answer never stops. */
    method Generate() returns (r: Generated, ghost made: Made)
      requires |types| > 0 && Plantings() && KeyReady()
      modifies Machinery()
      ensures Plantings() && KeyReady()
      ensures !r.Missed? && (Unstoppable() ==> r.Message?)
      ensures r.Message? ==> Delivered(r, made) && KeyOfRun(r.key, made.key)
      ensures r.Message? ==> r.typ == TypeAt(synth.words(old(synth.pos)))
      ensures Grew(old(History()), History(), KeyOf(r), made.key)
      ensures forall o | o in Pooled() :: o in old(Pooled()) || fresh(o)
    {
      MachineryAllocated();
      PooledAllocated();
      var i := ChooseType();
      r, made := MessageOfType(i);
    }

    /** The objects of a message. */
    ghost function Parts(made: Made): set<object> { Objs(made.payload) + Objs(made.headers) + Objs(made.key) }

    lemma MadeAllocated(made: Made)
      ensures forall o | o in Parts(made) :: allocated(o)
    {
      ObjsAllocated(made.payload);
      ObjsAllocated(made.headers);
      ObjsAllocated(made.key);
    }

    /** One message more, which leaves those before it as they are. */
    method GenerateNext(ghost before: seq<Generated>, ghost mades: seq<Made>) returns (r: Generated, ghost made: Made)
      requires |types| > 0 && Plantings() && KeyReady()
      requires |before| == |mades| && forall k | 0 <= k < |before| :: Delivered(before[k], mades[k])
      modifies Machinery()
      ensures Plantings() && KeyReady()
      ensures forall k | 0 <= k < |before| :: Delivered(before[k], mades[k])
      ensures if r.Message? then Delivered(r, made) && KeyOfRun(r.key, made.key) else r.Stopped? && !Unstoppable()
      ensures Grew(old(History()), History(), KeyOf(r), made.key)
    {
      forall k | 0 <= k < |mades|
        ensures forall o | o in Parts(mades[k]) :: allocated(o)
      {
        MadeAllocated(mades[k]);
      }
      r, made := Generate();
      forall k | 0 <= k < |before|
        ensures Delivered(before[k], mades[k])
      {
        assert old(Delivered(before[k], mades[k]));
      }
    }

    /** The calls of Generate of one run, up to n of them: each leaves the messages before it as
        they are, and the history of fresh Keys grows by the Keys drawn and nothing else. */
    method GenerateMany(n: nat)
      returns (messages: seq<Generated>, ghost mades: seq<Made>, ghost histories: seq<seq<Laid>>)
      requires |types| > 0 && Plantings() && KeyReady()
      modifies Machinery()
      ensures Plantings() && KeyReady()
      ensures |messages| == |mades| <= n && (Unstoppable() ==> |messages| == n)
      ensures forall k | 0 <= k < |messages| :: Delivered(messages[k], mades[k])
      ensures IsRun(old(History()), History(), histories, messages, mades)
    {
      messages, mades, histories := [], [], [History()];
      while |messages| < n
        invariant Plantings() && KeyReady()
        invariant |messages| <= n && RanSoFar(old(History()), histories, messages, mades)
        decreases n - |messages|
      {
        var r, made := GenerateFurther(old(History()), histories, messages, mades);
        if !r.Message? { return; }
        messages, mades, histories := messages + [r], mades + [made], histories + [History()];
      }
    }

    /** The messages of a run so far, all of them as they were delivered. */
    ghost predicate RanSoFar(first: seq<Laid>, histories: seq<seq<Laid>>, messages: seq<Generated>, mades: seq<Made>)
      reads set i | 0 <= i < |types| :: types[i].planting
      reads set k, o | 0 <= k < |mades| && o in Parts(mades[k]) :: o
      reads if key.Reused? then {key.pool} else {}
    {
      && |messages| == |mades| && (forall k | 0 <= k < |messages| :: Delivered(messages[k], mades[k]))
      && IsRun(first, History(), histories, messages, mades)
    }

    /** A run continued by one message more. */
    method GenerateFurther(ghost first: seq<Laid>, ghost histories: seq<seq<Laid>>, ghost messages: seq<Generated>,
                           ghost mades: seq<Made>)
      returns (r: Generated, ghost made: Made)
      requires |types| > 0 && Plantings() && KeyReady() && RanSoFar(first, histories, messages, mades)
      modifies Machinery()
      ensures Plantings() && KeyReady()
      ensures if r.Message? then RanSoFar(first, histories + [History()], messages + [r], mades + [made])
              else RanSoFar(first, histories, messages, mades) && !Unstoppable()
    {
      r, made := GenerateNext(messages, mades);
      if r.Message? { RunGrows(first, histories, messages, mades, r, made, History()); }
    }

    /** The histories of a run: from one call to the next a Key may be added, the one of that
        message; and a reused Key is among the latest of its time. */
    ghost predicate IsRun(first: seq<Laid>, last: seq<Laid>, histories: seq<seq<Laid>>, messages: seq<Generated>,
                          mades: seq<Made>) {
      && |mades| == |messages| && |histories| == |messages| + 1
      && histories[0] == first && histories[|messages|] == last
      && forall k | 0 <= k < |messages| :: IsStep(histories[k], histories[k + 1], messages[k], mades[k])
    }

    ghost predicate IsStep(before: seq<Laid>, after: seq<Laid>, r: Generated, made: Made) {
      r.Message? && Grew(before, after, Some(r.key), made.key) &&
      (key.Reused? ==> Laid(r.key, made.key) in Latest(after))
    }

    lemma {:induction false} RunGrows(first: seq<Laid>, histories: seq<seq<Laid>>, messages: seq<Generated>,
                                      mades: seq<Made>, r: Generated, made: Made, now: seq<Laid>)
      requires |histories| == |messages| + 1 && IsRun(first, histories[|messages|], histories, messages, mades)
      requires IsStep(histories[|messages|], now, r, made)
      ensures IsRun(first, now, histories + [now], messages + [r], mades + [made])
    {
      var hs, rs, ms := histories + [now], messages + [r], mades + [made];
      forall k | 0 <= k < |rs| ensures IsStep(hs[k], hs[k + 1], rs[k], ms[k]) {
        if k < |messages| { assert IsStep(histories[k], histories[k + 1], messages[k], mades[k]); }
      }
    }
  }

  /** What a run may write, before its Plantings are made. */
  ghost function RunParts(types: seq<(string, Source, Option<Node>)>, synth: Synthesizer, headers: G.Generator,
                          key: KeySource): set<object> {
    {synth, headers, headers.synth} + (set i, o | 0 <= i < |types| && o in types[i].1.Parts() :: o) + key.Parts()
  }

  lemma RunPartsAllocated(types: seq<(string, Source, Option<Node>)>, synth: Synthesizer, headers: G.Generator,
                          key: KeySource)
    ensures forall o | o in RunParts(types, synth, headers, key) :: allocated(o)
  {
    forall i, o | 0 <= i < |types| && o in types[i].1.Parts() ensures allocated(o) { assert allocated(types[i].1); }
  }

  ghost predicate IsNew(key: KeySource)
    reads if key.Reused? then {key.pool} else {}, if key.Reused? then KidObjs(key.pool.trees) else {}
  {
    match key
    case NoKey => true
    case EachFresh(source) => source.Ready()
    case Reused(pool) => pool.Valid() && pool.trees == [] && pool.history == []
  }

  /** The Mix of a run, once every Planting is checked. */
  method Start(types: seq<(string, Source, Option<Node>)>, keyPath: string, params: seq<Parameter>, checks: Checks,
               synth: Synthesizer, headers: G.Generator, key: KeySource)
    returns (mix: Option<Mix>)
    requires (forall i | 0 <= i < |types| :: types[i].1.Ready()) && IsNew(key)
    requires forall i | 0 <= i < |params| :: params[i].pointer.Some? ==> params[i].pointer.value != []
    ensures mix.Some? <==> Plantable(MessagesOf(types), keyPath, params, checks)
    ensures mix.Some? ==> mix.value.Plantings() && mix.value.KeyReady() && mix.value.History() == []
    ensures mix.Some? ==> |mix.value.types| == |types| && mix.value.key == key
    ensures mix.Some? ==> mix.value.Machinery() <= RunParts(types, synth, headers, key)
  {
    RunPartsAllocated(types, synth, headers, key);
    var ok, bound := Plant(types, keyPath, params, checks);
    if !ok { return None; }
    var m := new Mix(synth, bound, headers, key);
    assert m.Machinery() <= RunParts(types, synth, headers, key) by {
      forall i, o | 0 <= i < |bound| && o in bound[i].payload.Parts()
        ensures o in RunParts(types, synth, headers, key)
      {
        assert bound[i].payload == types[i].1;
      }
    }
    mix := Some(m);
  }

  /** A run: every Planting checked first, then up to n messages, starting with an empty ring. */
  method Run(types: seq<(string, Source, Option<Node>)>, keyPath: string, params: seq<Parameter>, checks: Checks,
             synth: Synthesizer, headers: G.Generator, key: KeySource, n: nat)
    returns (mix: Option<Mix>, messages: seq<Generated>, ghost mades: seq<Made>, ghost histories: seq<seq<Laid>>)
    requires |types| > 0 && (forall i | 0 <= i < |types| :: types[i].1.Ready()) && IsNew(key)
    requires forall i | 0 <= i < |params| :: params[i].pointer.Some? ==> params[i].pointer.value != []
    modifies RunParts(types, synth, headers, key)
    ensures mix.Some? <==> Plantable(MessagesOf(types), keyPath, params, checks)
    ensures mix.None? ==> messages == []
    ensures mix.Some? ==> |messages| == |mades| <= n && (mix.value.Unstoppable() ==> |messages| == n)
    ensures mix.Some? ==> forall k | 0 <= k < |messages| :: mix.value.Delivered(messages[k], mades[k])
    ensures mix.Some? ==> mix.value.IsRun([], mix.value.History(), histories, messages, mades)
    ensures mix.Some? ==> mix.value.key == key && mix.value.KeyReady()
  {
    messages, mades, histories := [], [], [];
    mix := Start(types, keyPath, params, checks, synth, headers, key);
    if mix.Some? { messages, mades, histories := mix.value.GenerateMany(n); }
  }
}
