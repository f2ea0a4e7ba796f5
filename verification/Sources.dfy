/** ValueSource and keyplan.Generator: what a run draws Payloads and Keys from. */
module Sources {
  import opened JsonValues
  import opened Generation
  import opened Records
  import opened Plantings
  import G = Generator
  import A = AvroGenerator
  import AG = AvroGeneration

  /** No draws stop a generator at this schema, which comes to a value rather than an absence. */
  ghost predicate Answers(w: Walk) {
    match w
    case JsonWalk(s) => Answerable(DefsOf(s), s, 0) && !Yields(DefsOf(s), s, 0, Absent)
    case AvroWalk(env, root) => AG.Answerable(env, root, 0)
  }

  datatype Source = JsonSource(json: G.Generator, schema: Node) | AvroSource(avro: A.AvroGenerator, walk: Walk)
  {
    /** The walk of the schema this source generates from. */
    ghost function Of(): Walk {
      match this
      case JsonSource(_, schema) => JsonWalk(schema)
      case AvroSource(_, walk) => walk
    }

    ghost predicate Ready() {
      match this
      case JsonSource(_, _) => true
      case AvroSource(_, walk) => walk.AvroWalk? && AG.WellFormed(walk.env)
    }

    /** What drawing writes: the generator and the Synthesizer it draws from. */
    ghost function Parts(): set<object> {
      match this
      case JsonSource(g, _) => {g, g.synth}
      case AvroSource(g, _) => {g.synth}
    }

    method Value() returns (r: Option<Val>, ghost t: Tree)
      requires Ready()
      modifies Parts()
      ensures fresh(Objs(t))
      ensures r.Some? ==> Owns(r.value, t) && Proper(t) && Generates(Of(), View(t))
      ensures Answers(Of()) ==> r.Some?
    {
      match this
      case JsonSource(g, schema) =>
        var m;
        m, t := g.Value(schema);
        r := if m.Made? then Some(m.v) else None;
      case AvroSource(g, walk) => r, t := g.Value(walk.env, walk.root);
    }
  }
}
