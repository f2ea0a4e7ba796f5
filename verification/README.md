# What the test-data generator promises, proved

The program in this repository compiles schemas before it writes any record. It decides statically
where a value may be planted, resolves `$ref` graphs into self-contained schemas, splits several Avro
records into separately registered subjects, and then generates records from one stream of draws.
This Dafny project models that code and proves what it promises. The stream is arbitrary, so every
claim about generation reads "whatever is drawn".

`dafny verify dfyconfig.toml` checks the whole project.

## How the model is laid out

| modules | what they model |
|---|---|
| `JsonValues`, `Sorting`, `Paths` | decoded JSON, Go's string order, paths into values |
| `SchemaTypes`, `SchemaMerge`, `AllOfMeaning`, `AllOfRefusals`, `AllOfKeywords`, `PropertyOrder`, `Literals` | type lists, allOf merging, its meaning, its refusals and the keywords without a rule, declared order, order-preserving literals |
| `Draws`, `Streams`, `Generation`, `Outcomes`, `LiteralAnswers`, `DeclaredBounds` | the source of draws, and what the JSON Schema generator can yield as a relation over every stream of them: its literals, objects, bounds |
| `Replay`, `Reachable`, `Generator`, `LiteralCopies` | what one stream makes of a schema, that every outcome is made by some stream, and the generator itself, which computes it in fresh objects on the heap |
| `GuaranteedWalk`, `SchemaWalk`, `GuaranteedExactly` | the static walk, its soundness against the generator, and how much it locates |
| `Records`, `PlantOne`, `Plantings`, `KeyPaths` | records as owned heap trees, writing one value in place, checking and planting all values of a run, path syntax |
| `Sources`, `KeyPool`, `Mix`, `RunsAccepted` | payload sources, the ring of reused Keys, a whole run, and which runs are accepted |
| `AvroModel`, `AvroRender`, `AvroExactly`, `BranchNames` | the Avro value convention, its walk, renderer and branch names |
| `AvroGeneration`, `AvroReplay`, `AvroReachable`, `AvroGenerator` | the Avro generator: what a type yields, what one stream makes of it, that every value is made by some stream, the methods |
| `AvscShapes`, `ShallowForms`, `FullNames`, `UnionCollect`, `UnionMembers` | collecting the named types of several avscs into shallow form, and Avro's rule for their names |
| `UnionReach`, `UnionRender`, `UnionRenderer`, `UnionScope` | rendering them back, and what a rendering defines, names and needs |
| `UnionOrder`, `UnionGraph`, `UnionPlan`, `UnionPromises`, `UnionMeaning`, `UnionSameName` | registration order, the plan, what the plan promises and what it keeps of the payloads |
| `PointerTokens`, `SpecRefs`, `SpecPaths`, `OrderStamps`, `WrittenOrders`, `RefResolver`, `SchemaResolver`, `RefMeaning`, `RefRoots`, `RefTexts` | references in a spec and the resolver that expands them |
| `TemplateFill`, `TopicBind` | filling a templated address with a topic name |
| `PatternAst`, `PatternParse`, `PatternGrammar`, `PatternPrint`, `PatternParser`, `PatternBytes`, `PatternReplay`, `PatternReach` | the regex subset: trees, parser, grammar, printing, generation, bytes, and which words are written |
| `TraitMerge`, `TraitMeaning`, `TraitReferences` | merging message traits, without references and with them |
| `Iban` | check digits |

Code that changes things step by step is modelled by classes and methods with loops: the generator, the
planner's composer, renderer and orderer, the resolver, the planting Sets, the ring, the backtracking
filler and the pattern parser keep the fields the source keeps. Each such method is proved against a
specification function or relation, and the properties are proved about those.

## Where a property needs a condition

The proofs show where the code does less than its documentation suggests. Each case has a lemma with a
concrete input or a whole failing family.

* Two Message types that carry the same name count as one definer of a type they share, so the type is
  not registered and both subjects define it (`UnionSameName.SameNameTwice`). A type is defined in exactly
  one subject if and only if it is registered or no two payloads hold it inline
  (`UnionPromises.DefinedOnceExactly`); with distinct names every type is
  (`UnionPromises.DefinedInExactlyOne`).
* An object that holds, under `"$ref"`, a reference that leads to a text is copied into something that
  reads as a reference (`RefTexts.TextBecomesReference`). A resolved schema means what its node means if
  and only if no such object is met, or its text happens to name a definition that reads the same
  (`RefMeaning.ResolvedMeansTheSame`, `RefRoots.MeansByTheSpec`). Nothing else is asked of the spec: a
  schema resolves if and only if every reference it reaches can be followed
  (`SchemaResolver.ExpandsExactly`), so the external references that `define` alone would keep are never
  reached.
* Merging `allOf` refuses more than it should. The schemas themselves show whether some value is valid
  under both (`AllOfRefusals.AgreeableExact`). A refusal over types is right unless they set numbers
  against integers (`AllOfRefusals.TypeRefusalExact`, `AllOfRefusals.NumberClashesWithInteger`), which is
  also where a merge that succeeds loses values (`AllOfRefusals.MergedTypeExact`,
  `AllOfMeaning.MergeMeansBoth`). A "distinct const" refusal is right where every step to the values is
  required of what can only be an object, and where nothing else conflicts nowhere else
  (`AllOfRefusals.ForcedClashIsRight`, `AllOfRefusals.ClashRefusalExact`,
  `AllOfRefusals.OptionalClashRefused`).
* A bound declared on one side only is drawn against the default of the other: with `maximum` -5 alone the
  integer 0 is drawn, with `maxItems` 0 alone an array of one item
  (`DeclaredBounds.MaximumBelowZero`, `DeclaredBounds.NoItemsAllowed`). Integers keep their bounds if and only
  if no upper one is set or some integer is in range (`DeclaredBounds.IntegersKeepBounds`); arrays keep their
  counts if and only if `maxItems` is not set or the least is not above it (`DeclaredBounds.ArraysKeepCounts`).
* The pattern parser reads bytes. For a pattern in ASCII the text written is in the language of its
  characters (`PatternBytes.AsciiWritten`); a pattern of literals alone is written back as it is if and only
  if it is in ASCII (`PatternBytes.PlainWritten`, `PatternBytes.AccentWritten`).

## Model

| member | source | states |
|---|---|---|
| GuaranteedWalk.WalkSound | internal/generator/walk.go:40-65 | whenever the walk locates a path in a schema, every value the generator can yield for it, whatever is drawn, holds the resolved path, and what sits there is a value of the schema node the walk ended at |
| GuaranteedWalk.NeverAbsent | internal/generator/walk.go:97-129 | a node the walk accepts is never one the generator leaves out when its depth budget runs out |
| GuaranteedWalk.ResolveSound | internal/generator/walk.go:97-129 | following references and merging allOf as the walk does changes nothing about what can be yielded, and ends at a node that is no reference, literal, allOf or choice |
| GuaranteedWalk.DescendSound | internal/generator/walk.go:152-183 | a step the walk takes exists in every value yielded: a required property of an object, or an item below minItems of an array |
| SchemaWalk.ResolveGuaranteed | internal/generator/walk.go:97-129 | the unbounded loop ends on every schema, cyclic $defs included, and computes the resolution WalkSound is about |
| SchemaWalk.TakeStep | internal/generator/walk.go:152-183 | the step taken is the one DescendSound is about, each refusal included |
| SchemaWalk.Locate | internal/generator/walk.go:40-65 | the loop succeeds exactly where the located path exists, with its steps and its field |
| GuaranteedExactly.LocatedExactly | internal/generator/walk.go:40-183 | of a schema the generator answers, a path of fields and indexes is located if and only if every outcome has it and nothing on its way is refused outright: an alternative, a literal above a further step, a reference past the budget or to nothing, an allOf that does not merge |
| GuaranteedExactly.EmptyPathExact | internal/generator/walk.go:97-129 | the empty path is located if and only if the chain of single references and allOf merges ends within the budget at a node with neither oneOf nor anyOf, whether or not a literal answers that node |
| GuaranteedExactly.RefusedIsMissing | internal/generator/walk.go:152-183 | where the walk refuses a step at a node built by its type, some outcome of the node lacks it |
| GuaranteedExactly.TokensEitherWay | internal/generator/walk.go:152-183 | a token is read as the field or the index the node asks for: a path with tokens is located exactly as its reading is |
| Generator.Generator.Value | internal/generator/generator.go:91-97 | what comes back, and how much is drawn, is what `Replay.RunNode` makes of the stream; it is a value the schema can yield, in objects nobody else holds, or an absence the schema allows, and it fails for no draws at all where every schema within reach is one it handles |
| Generator.Generator.Node | internal/generator/generator.go:99-173 | the whole dispatch of a schema node, literals, allOf, oneOf, anyOf and type lists included, terminates on cyclic $defs, yields what the schema can yield, and stops with an error only where a reference, a merge, a branch, a type list, a property, a required entry or a negative minItems within reach can stop it |
| Generator.Generator.Ref | internal/generator/generator.go:176-190 | a reference costs one level of the depth budget; past it only null or an absence comes back, whatever the target is |
| Generator.Generator.Literal | internal/generator/generator.go:99-140 | a literal comes back as the first of the keywords that has one says, a member of an enum as drawn, copied into objects of its own |
| Generator.Generator.DrawType | internal/generator/generator.go:233-243 | the type drawn is one of the listed ones, and which one the stream decides |
| Generator.Generator.DrawObject | internal/generator/generator.go:264-302 | an object holds every required property whose node is not absent, in declared order, each a value of its schema; it fails only over a property that can fail |
| Generator.Generator.DrawArray | internal/generator/generator.go:314-342 | an array draws a count between minItems and its maximum and keeps every item that is not absent, each a value of the items schema |
| Generator.EmitObject | internal/generator/generator.go:290-302 | an object's drawn properties come out in declared order, none lost and none repeated |
| Generation.EmittedInOrder | internal/generator/generator.go:290-302 | two keys that come out stand as the declared order has them |
| Replay.RunIsOutcome | internal/generator/generator.go:99-342 | whatever a stream makes of a schema the schema yields, and where a stream stops the generator does not answer the schema |
| Reachable.EveryOutcomeReached | internal/generator/generator.go:99-342 | the outcomes of a schema are exactly what streams of draws make of it: each literal, branch, type, property in or out, count and item is drawn by some stream |
| Reachable.AnswersExactly | internal/generator/generator.go:99-342 | no stream stops the generator at a schema if and only if everything within reach is a schema it handles |
| LiteralAnswers.ExampleFirst | internal/generator/generator.go:107-120 | with an example, whatever else is declared, the values generated are exactly the example, in the order recorded for it |
| LiteralAnswers.ExamplesNext | internal/generator/generator.go:107-120 | without one, exactly the first of non-empty examples |
| LiteralAnswers.ConstNext | internal/generator/generator.go:107-120 | without either, exactly the const |
| LiteralAnswers.EnumLast | internal/generator/generator.go:107-120 | without any of them, exactly the members of a non-empty enum, each in its recorded order |
| DeclaredBounds.IntegersExactly | internal/generator/generator.go:395-413 | where some integer is in range, the integers drawn are exactly those that keep the bounds, and 0 or 1000 where a side is not bounded |
| DeclaredBounds.IntegersKeepBounds | internal/generator/generator.go:395-413 | for whole bounds, every integer drawn keeps them if and only if no upper bound is set or some integer is in range |
| DeclaredBounds.MaximumBelowZero | internal/generator/generator.go:395-413 | a concrete schema whose integers do not keep its maximum |
| DeclaredBounds.NumbersKeepBounds | internal/generator/generator.go:415-433 | every number drawn keeps the bounds if and only if the least of them does, which is the minimum where that is set alone |
| DeclaredBounds.ArraysKeepCounts | internal/generator/generator.go:314-342 | where no item is absent every array has as many items as asked for if and only if maxItems is not set or the least asked for is not above it |
| DeclaredBounds.NoItemsAllowed | internal/generator/generator.go:314-342 | a concrete schema that allows no item yields an array of one |
| Draws.Synthesizer.Int | internal/synth/synth.go:40-49 | the draw lies in the range for every word drawn, the range of all 64-bit integers included, and an empty range draws nothing |
| Draws.WrappedRange | internal/synth/synth.go:40-49 | subtraction and addition wrapping at 2^64 still land a draw between the bounds |
| Draws.IntCovers | internal/synth/synth.go:40-49 | every integer of a range is drawn by some word |
| Draws.FloatInRange | internal/synth/synth.go:52-57 | a float drawn lies between the bounds, the upper one excluded |
| Sorting.FirstDifferenceDecides | internal/generator/ordered.go:11-30 | names sort by their first difference, and a prefix before what it begins |
| Records.GraftProper | internal/planting/path.go:142-179 | replacing what a path leads to keeps a record a tree and puts the new value at the path |
| Records.GraftElsewhere | internal/planting/path.go:142-179 | a location neither above nor below the planted path reads as before |
| Records.ViewAlong | internal/planting/path.go:181-206 | reading a record on the heap along a path is reading its value along it |
| PlantOne.Plant | internal/planting/path.go:142-179 | writing in place succeeds exactly where the path leads somewhere, turns the record into the one with the value grafted at the path, and leaves the value itself alone |
| PlantOne.Written | internal/planting/path.go:142-179 | one store into the holder of the last step, with every other object untouched, is that graft |
| Plantings.LocatedInEvery | internal/planting/planting.go:163-200 | a path either walk locates exists in every value of its format, and a path without unresolved tokens is kept step for step |
| Plantings.PlanSound | internal/planting/planting.go:101-159 | the paths planned for a Message type are present in every record of it and pairwise clear of each other and of the Key |
| Plantings.New | internal/planting/planting.go:101-159 | it accepts exactly the runs every Message type of which can take every Topic parameter and the Key, and then each Set holds the planned paths in order |
| Plantings.CheckOne | internal/planting/planting.go:119-140 | one Topic parameter is accepted exactly when its path is located, holds the value and overlaps nothing planned before it |
| Plantings.PlaceAll | internal/planting/planting.go:114-140 | the nested loops give every Set the same plan, parameter by parameter, and touch nothing else of it |
| Plantings.PlaceKeys | internal/planting/planting.go:142-158 | the Key's steps are located in every Message type, or the run is refused |
| RunsAccepted.AcceptedExactly | internal/planting/planting.go:101-200 | a run is accepted if and only if the Key path can be read and each Message type, on its own, has a place for the Key and for every Topic parameter of its Payload and headers that holds it, no two in one part lying one inside the other |
| Plantings.Set.Plant | internal/planting/planting.go:215-240 | given located paths nothing is missed; all parameters and the Key then sit at their own paths at once, the Key as the very object it is, and every location clear of them is unchanged |
| KeyPaths.Overlap | internal/planting/path.go:128-139 | two paths overlap exactly when one is a prefix of the other |
| KeyPaths.PathRoundTrip | internal/planting/path.go:34-105 | parsing a printed path gives it back exactly when it is not empty, its field names are non-empty and free of dots and opening brackets, and its indexes fit an int |
| KeyPaths.ParsedSteps | internal/planting/path.go:61-105 | whatever is parsed has only such steps |
| KeyPaths.ReadPath | internal/planting/path.go:61-105 | the scan with an index and a buffer computes the parse the round trip is about, errors included |
| KeyPaths.WritePath | internal/planting/path.go:34-48 | the loop prints the path the round trip is about |
| KeyPaths.AtoiItoa | internal/planting/path.go:61-105 | every index an int holds prints and reads back as itself |
| KeyPaths.AtoiReads | internal/asyncapi/document.go:353-358 | leading zeros and a sign are read as in any decimal |
| Mix.Mix.Generate | internal/wire/mix.go:95-126 | over a whole run no Planting ever misses; each message's parameters and Key sit at their paths in a record its schema yields, and only the run's own state and the new record are written, so no pooled Key changes; the history of fresh Keys grows by the Key drawn or not at all, the Key is one its source generates or one of the latest, and a run whose schemas always answer never stops |
| Mix.Mix.GenerateMany | internal/wire/mix.go:95-126 | any number of calls, each leaving every message before it as it is; from one call to the next the history of fresh Keys grows by that message's Key or not at all, and a reused Key is among the latest 1000 of its time |
| Mix.Run | internal/wire/mix.go:49-126 | a run starts exactly where every Planting can be made, and then gives up to n messages as above, from an empty ring on; it gives all n where its schemas always answer |
| Mix.PlannedIsPrepared | internal/wire/mix.go:49-88 | a Message type planned by the checks before the run is one Generate never misses in |
| Mix.Mix.DrawMessage | internal/wire/mix.go:95-126 | the Payload and the Headers are new objects, apart from each other, from the Key and from every pooled Key |
| Mix.Mix.ChooseType | internal/wire/mix.go:95-100 | the type of a message is the one the word drawn picks, and a lone type draws nothing |
| Mix.Mix.EveryTypeChosen | internal/wire/mix.go:95-100 | every type of a run is picked by some word |
| Mix.Mix.PlantFor | internal/wire/mix.go:95-126 | planting into a drawn record always succeeds and leaves the pooled Keys as they are |
| KeyPool.PushKeepsRing | internal/keyplan/reuse.go:37-52 | one more Key turns the ring of the latest Keys into the ring of the latest Keys, full or not |
| KeyPool.Pool.Value | internal/keyplan/reuse.go:37-52 | after any number of calls the ring holds exactly the last 1000 fresh Keys in rotated order, and the Key returned is the new one or one of them |
| LiteralCopies.CopyLiteral | internal/generator/ordered.go:52-88 | the ordered copy of a literal is laid out in objects of its own, so planting into a record reaches no schema |
| Literals.OrderedLiteralIsLiteral | internal/generator/ordered.go:52-88 | with its order forgotten an ordered literal is the literal, for every order tree, malformed ones included |
| Literals.OrderedLiteralFollows | internal/generator/ordered.go:52-88 | every object of it has each key once: those of its tree first, in that order, then the others sorted |
| PropertyOrder.OrderByIsPermutation | internal/generator/ordered.go:11-30 | the declared order is a permutation of the property names: the recorded ones by first occurrence, then the others sorted |
| PropertyOrder.ReadDeclaredOrder | internal/generator/ordered.go:11-30 | the loop computes that order |
| AvroModel.AvroWalkSound | internal/avro/walk.go:32-53 | a path the Avro walk locates exists in every value of the conventional shape of the type, with a value of the located type there |
| AvroModel.Locate | internal/avro/walk.go:32-53 | the loop computes the located path |
| AvroExactly.AvroLocatedExactly | internal/avro/walk.go:32-125 | a path is located if and only if no union is on its way and every value of the type has it |
| AvroReplay.RunIsYielded | internal/avro/generate.go:68-240 | whatever a stream makes of a type the type yields, and where a stream stops the generator does not answer the type |
| AvroReachable.EveryValueReached | internal/avro/generate.go:68-240 | the values of a type are exactly what streams of draws make of it: every branch, symbol, count, digit and leaf is drawn by some stream |
| AvroReachable.AnswersExactly | internal/avro/generate.go:68-240 | no stream stops the generator at a type if and only if everything within the depth bound is a type it handles and whatever is past it has an escape |
| AvroGeneration.YieldsConform | internal/avro/generate.go:68-240 | whatever a type yields has its conventional shape |
| AvroGenerator.AvroGenerator.Value | internal/avro/generate.go:61-66 | over cyclic named types generation terminates for every draw; the value is the one `AvroReplay.RunType` makes of the stream, laid out in fresh objects, and conforms to its type; an error comes back only where the type cannot be answered |
| AvroGenerator.AvroGenerator.Node | internal/avro/generate.go:68-108 | every construct below the depth limit yields its conventional shape, and past it exactly a union with null, an array or a map comes back |
| AvroGenerator.AvroGenerator.DrawUnion | internal/avro/generate.go:143-165 | a union value is null or names exactly the branch drawn, with a value of that branch; null is drawn only where it is a branch |
| AvroGenerator.AvroGenerator.DrawRecord | internal/avro/generate.go:131-141 | a record value has each field once, each of its field's type |
| AvroGenerator.AvroGenerator.DrawArray | internal/avro/generate.go:167-178 | an array value holds one to five values of the items type |
| AvroGenerator.AvroGenerator.DrawMap | internal/avro/generate.go:180-193 | a map value holds one to four values of the values type under the keys k0, k1 and so on |
| AvroGenerator.AvroGenerator.DrawMantissa | internal/avro/convention.go:165-184 | the decimal mantissa drawn digit by digit has exactly the precision's digits |
| AvroRender.RenderDatum | internal/avro/render.go:77-100 | a value of the conventional shape never fails to render, and renders as what the type shows of it |
| AvroRender.UnionShowsItsBranch | internal/avro/render.go:201-217 | a union renders as exactly what the branch that was drawn renders as, without the name that wraps it |
| AvroRender.ShownAlong | internal/avro/render.go:77-217 | where the walk leads in a value it leads in the rendering too, to what that place renders as |
| AvroRender.ShownInOrder | internal/avro/render.go:179-249 | a record renders with its fields in declared order, a list with as many items, a map with the same keys |
| AvroRender.Latin1ReadsBack | internal/avro/render.go:282-288 | bytes show as the characters of their numbers, so no two show alike |
| BranchNames.NamesTellApart | internal/avro/convention.go:215-235 | two unnamed types share a branch name if and only if they are the same branch: a logical type is told from its base and from every other |
| UnionCollect.Composer.Shallow | internal/wire/avrowire/union.go:141-172 | collecting succeeds exactly when the records' fields are objects and every definition agrees with the others, and then the node is its shallow form and the environment has grown by its definitions, credited to the Message type |
| UnionCollect.Composer.Define | internal/wire/avrowire/union.go:186-233 | the same for a named type: a first definition is kept, a later one must be equal, and each is credited once |
| UnionCollect.AgreeTwice | internal/wire/avrowire/union.go:186-233 | collecting one schema after another finds a disagreement exactly when the two together hold one |
| UnionCollect.GrownTwice | internal/wire/avrowire/union.go:186-233 | two collections one after the other are the collection of both |
| UnionMembers.Collect | internal/wire/avrowire/union.go:66-90 | the Message types are accepted exactly when each payload is a record no other has and all definitions agree; the environment then holds exactly their named types, credited to exactly the names that define them |
| FullNames.FullNameIs | internal/wire/avrowire/union.go:186-233 | the full name of a definition is the one Avro's rule gives it, and no other: a dotted name is full itself, any other stands in the namespace beside it, or else in the enclosing one |
| FullNames.SpaceIs | internal/wire/avrowire/union.go:186-233 | a definition's fields are read in what stands before the last dot of its full name |
| FullNames.RefersByTheRule | internal/wire/avrowire/union.go:401-406 | a name in a schema refers to what a definition of that name would define there |
| FullNames.CollectedAsDeclared | internal/wire/avrowire/union.go:141-233 | the names collected from a payload are those it declares by that rule |
| ShallowForms.DefsAreGood | internal/wire/avrowire/union.go:186-231 | every stored definition has its full namespace written out and shallow fields |
| ShallowForms.ReadBack | internal/wire/avrowire/union.go:186-231 | a stored definition reads back as itself wherever its namespace can be told |
| UnionRender.RendersFaithfully | internal/wire/avrowire/union.go:324-397 | what the renderer writes reads back as the shallow node it was given, and defines exactly the named types reached from it that are not defined before or registered elsewhere, each once |
| UnionRender.DefFaithful | internal/wire/avrowire/union.go:345-363 | a rendered definition reads back as its name and as the collected definition |
| UnionRenderer.Renderer.Ref | internal/wire/avrowire/union.go:324-343 | it renders a name or a first definition as specified, records each outside name once, and fails only on a type without a namespace named from inside one |
| UnionRenderer.Renderer.Definition | internal/wire/avrowire/union.go:345-363 | the same for a whole definition; the outside names recorded are exactly those of the types it defines |
| UnionRenderer.Renderer.Schema | internal/wire/avrowire/union.go:365-397 | the same for any shallow node, and rendering terminates on mutually recursive types |
| UnionScope.RendersScoped | internal/wire/avrowire/union.go:324-397 | a rendered schema can be read in document order: every name in it is a primitive, already defined, or among the references, and none is defined twice |
| UnionOrder.Dependencies | internal/wire/avrowire/union.go:276-309 | the search returns, each once, exactly the registered types reached through types that stay inline |
| UnionOrder.Order | internal/wire/avrowire/union.go:237-264 | it fails exactly when a branch's references lead into a cycle; otherwise the order has each registered type reached once, after every type it refers to, and nothing else |
| UnionOrder.OrderedHasNoCycle | internal/wire/avrowire/union.go:237-264 | in such an order no walk along references repeats a type |
| UnionPlan.PlanUnion | internal/wire/avrowire/union.go:66-130 | a plan comes out exactly when the Message types compose, no branch leads into a cycle and no type without a namespace is named from inside one |
| FullNames.PlannedByName | internal/wire/avrowire/union.go:66-130 | each branch of a plan is the full name its payload declares by Avro's rule |
| FullNames.TypesByName | internal/wire/avrowire/union.go:66-130 | the types planned are those some payload declares by that rule |
| UnionMeaning.ShallowExactly | internal/wire/avrowire/union.go:141-183 | two nodes have one shallow form if and only if they are of one type: alike in every attribute, each type in them the same by name |
| UnionMeaning.StoredExactly | internal/wire/avrowire/union.go:186-233 | two definitions of a type agree if and only if they have the same name and namespace, the same attributes, and the same fields in order with the same types, defaults and other attributes |
| UnionMeaning.UnionKeeps | internal/wire/avrowire/union.go:66-130 | each definition in a payload is in the inline union, the same in that sense |
| UnionMeaning.UnionAdds | internal/wire/avrowire/union.go:66-130 | each definition in the inline union is one of a payload's |
| UnionMeaning.SubjectKeeps | internal/wire/avrowire/union.go:66-130 | the subject of a payload's type holds the payload's own definition |
| UnionMeaning.SubjectAdds | internal/wire/avrowire/union.go:66-130 | each definition in a subject is one of a payload's |
| UnionPlan.SubjectRendered | internal/wire/avrowire/union.go:106-115 | a subject defines exactly the types inline in it, and its references are exactly its dependencies |
| UnionPromises.UnionRoundTrip | internal/wire/avrowire/union.go:119-128 | collecting the inline union again gives back the branches and the whole environment; each type is defined in it once and it stands without outside names |
| UnionPromises.SubjectStandsAlone | internal/wire/avrowire/union.go:106-115 | a subject's schema is its type's definition, defines each inline type once, and names nothing else but its references |
| UnionPromises.EarlierPayloadsFirst | internal/wire/avrowire/union.go:237-262 | what the first payloads reach is registered before whatever they do not reach, for any number of them |
| UnionPromises.ReferencesAreEarlier | internal/wire/avrowire/union.go:106-115 | every reference of a subject is registered strictly before it |
| UnionPromises.DefinedOnceExactly | internal/wire/avrowire/union.go:92-115 | every named type is defined in exactly one subject of the plan, unless it is unregistered and two payloads hold it inline, and then it is not |
| UnionPromises.DefinedInExactlyOne | internal/wire/avrowire/union.go:92-115 | when Message types have distinct names, every named type is defined in exactly one subject of the plan |
| UnionPromises.InlineInOne | internal/wire/avrowire/union.go:92-99 | a type inline in two registered types is unregistered and inline in two payloads |
| UnionPromises.InlineInSome | internal/wire/avrowire/union.go:101-115 | every collected type is inline in some subject |
| UnionSameName.SharedTypeDefinedOnce | internal/wire/avrowire/union.go:92-100 | a type that is no payload is defined in exactly one subject if and only if Message types of two names define it or no two payloads hold it inline |
| UnionSameName.SameNameTwice | internal/wire/avrowire/union.go:92-100 | two Message types of the same name are planned, and no plan of theirs defines their shared enum once |
| SpecRefs.Pointer | internal/asyncapi/document.go:335-364 | the loop over unescaped tokens follows an internal reference and refuses every other, each error included |
| SpecPaths.FollowsTheKeys | internal/asyncapi/document.go:335-364 | a reference written from keys, escaped, joined by slashes, percent-encoded or not, leads to a value if and only if those keys lead there from the root, through lists by printed index, and nowhere if they lead nowhere |
| SpecPaths.FollowsPlainKeys | internal/asyncapi/document.go:335-364 | the same for keys without a percent sign, written as they are |
| SpecPaths.SplitOfJoin | internal/asyncapi/document.go:344 | parts free of slashes come back in order from their join |
| SpecPaths.JoinOfSplit | internal/asyncapi/document.go:344 | a text is the join of the parts it is split into |
| SpecPaths.PercentRoundTrip | internal/asyncapi/document.go:339 | decoding gives back every text, however much of it was percent-encoded |
| SpecPaths.UnescapeFails | internal/asyncapi/document.go:339-342 | decoding fails if and only if some percent sign is not followed by two hexadecimal digits |
| SpecPaths.UnderItsIndex | internal/asyncapi/document.go:353-358 | an item of a list stands under its index as decimals print it |
| RefResolver.Resolver.Define | internal/asyncapi/document.go:456-475 | a name is claimed before its target is copied, so definition ends on every cycle; a name defined holds its target's copy, whose references are all defined in turn |
| RefResolver.Resolver.Local | internal/asyncapi/document.go:478-507 | a copy keeps each reference as a local one to a name defined |
| RefResolver.StampedLocal | internal/asyncapi/document.go:478-507 | stamping orders onto a copy adds no reference |
| SchemaResolver.SchemaCopier.Node | internal/asyncapi/document.go:401-439 | each reference not being expanded is replaced by its target's copy, any other by a local one to a name defined; expansion ends because a reference is never expanded inside itself |
| SchemaResolver.ExpandsExactly | internal/asyncapi/document.go:401-439 | a node can be expanded if and only if every reference reached from it through others can be followed |
| SchemaResolver.Schema | internal/asyncapi/document.go:372-393 | the resolved schema is the copy with the cycles' targets under $defs, and comes out exactly where every reference reached can be followed and the copy is an object |
| OrderStamps.StampAddsOnly | internal/asyncapi/order.go:130-152 | the recorded orders touch no other key of the copy |
| WrittenOrders.StampedPropertiesAsWritten | internal/asyncapi/order.go:130-152 | properties of a stamped copy are declared in the order the spec writes them |
| WrittenOrders.StampedLiteralAsWritten | internal/asyncapi/order.go:130-175 | an example or a const of a stamped copy comes out with every object in it ordered as the spec writes it |
| WrittenOrders.StampedMemberAsWritten | internal/asyncapi/order.go:130-175 | and so does each member of examples and of an enum |
| WrittenOrders.PlacesAre | internal/asyncapi/order.go:93-127 | whatever is in a literal is no schema and not stamped, and under a keyword of names each name has a schema whatever it is called |
| RefMeaning.ResolvedMeansTheSame | internal/asyncapi/document.go:372-507 | along every path, reading the copy through the schema's own $defs sees exactly what reading the spec through its references sees, if and only if no object met holds under "$ref" a reference to a text that does not read the same |
| RefMeaning.AddedDefsHideNothing | internal/asyncapi/document.go:382-391 | the added $defs change nothing that is seen below the root outside $defs |
| RefRoots.MeansByTheSpec | internal/asyncapi/document.go:372-507 | where no such text reads as a local reference, which the spec alone shows, the meaning is kept if and only if no such object is met |
| RefRoots.MeansWithoutTexts | internal/asyncapi/document.go:372-507 | where no such text names a definition, the meaning is kept if and only if no such object is met |
| RefRoots.ResolvedRoot | internal/asyncapi/document.go:372-393 | at the root the keys are the spec's, and $defs where a cycle was kept |
| RefRoots.EveryReferenceLocal | internal/asyncapi/document.go:372-507 | every reference left in the resolved schema is a local one whose target is in its $defs |
| RefRoots.StrayFromText | internal/asyncapi/document.go:401-427 | a reference left that is not local comes from an object met that holds a reference to a text under "$ref" |
| RefTexts.TextBecomesReference | internal/asyncapi/document.go:401-427 | a concrete spec resolves, and at "$ref" it shows a text where the resolved schema shows nothing |
| PointerTokens.TokenRoundTrip | internal/asyncapi/document.go:514-520 | two sequential replacements each way undo each other on every string |
| PointerTokens.TokenCanonical | internal/asyncapi/document.go:514-520 | reading a token and writing it again gives it back exactly when it is a token RFC 6901 allows |
| TemplateFill.Fill | internal/asyncapi/topic.go:157-192 | the backtracking search lists no way, the one way, or two distinct ways, and none that is not one |
| TemplateFill.FillIsExact | internal/asyncapi/topic.go:157-192 | how many it lists says whether no, exactly one or more than one assignment makes the address the topic |
| TopicBind.Bind | internal/asyncapi/topic.go:36-60 | it refuses exactly when an entry can be filled in two ways or two entries fill theirs differently, and otherwise returns every entry that stands for the topic, in order, with its one assignment |
| TopicBind.AssignmentReads | internal/asyncapi/topic.go:146-152 | the map of values by name says what the list of values says |
| PatternParser.Pattern | internal/synth/pattern.go:28-40 | it succeeds exactly on the texts of the grammar in the comments, and for every draw the text written is in the language of the one derivation the text has, * and + unbounded |
| PatternParser.Parser.ParseAlternation | internal/synth/pattern.go:91-110 | the descent with an index reads what the parse functions read from the text that is left, and fails where they do |
| PatternParser.Parser.ParseQuant | internal/synth/pattern.go:244-282 | counts in braces, clamped at the largest int, with every malformed form refused |
| PatternParser.Parser.ParseClass | internal/synth/pattern.go:204-241 | a class is the pool of its ranges; negated, reversed, open and empty ones are refused |
| PatternParser.GenNode | internal/synth/pattern.go:296-318 | what is appended is an occurrence of the node |
| PatternReplay.EveryWordWritten | internal/synth/pattern.go:296-318 | the words written for a compiled pattern are exactly its occurrences, each written by some stream |
| PatternReach.WrittenExactly | internal/synth/pattern.go:244-318 | they are exactly what the pattern matches with no unbounded repetition taken more than six times |
| PatternReach.EscapedPools | internal/synth/pattern.go:178-200 | what the escaped classes stand for |
| PatternReach.EscapableIs | internal/synth/pattern.go:178-200 | the characters a backslash takes literally |
| PatternGrammar.ReadsTheDerivation | internal/synth/pattern.go:90-282 | the parser reads a whole text as a tree if and only if the tree is its derivation in the grammar of the comments |
| PatternGrammar.OneDerivation | internal/synth/pattern.go:90-282 | a text has at most one derivation, and one exactly where the parser reads all of it |
| PatternGrammar.AltDerives | internal/synth/pattern.go:90-110 | what the parser takes from the front of a text is a derivation of an alternation |
| PatternGrammar.RangesRead | internal/synth/pattern.go:203-241 | the ranges a class derives are the ranges read |
| PatternAst.WrittenMatches | internal/synth/pattern.go:296-318 | whatever is written for a compiled pattern the pattern matches |
| PatternPrint.PatternRoundTrip | internal/synth/pattern.go:90-282 | parsing the print of a tree gives the tree back with nothing left if and only if the tree is a normal form |
| PatternPrint.ReadsAsPrinted | internal/synth/pattern.go:90-282 | whatever a pattern parses to is a normal form, so its print parses to the same |
| PatternBytes.PatternOfText | internal/synth/pattern.go:28-40 | any text can be given; it succeeds exactly where its bytes are in the grammar, writes a text in the language of an ASCII pattern's characters, and the bytes of a pattern of literals alone |
| PatternBytes.AsciiWritten | internal/synth/pattern.go:145-175 | for a pattern in ASCII the text written is in the language of its characters |
| PatternBytes.PlainWritten | internal/synth/pattern.go:171-174 | a pattern of literals alone is written as its bytes, each a character, which is in its language if and only if it is in ASCII |
| PatternBytes.AccentWritten | internal/synth/pattern.go:171-174 | a concrete literal outside ASCII is written as two other characters |
| SchemaMerge.MergeTwoSchemas | internal/generator/merge.go:46-132 | the loop over keys builds the merge whatever the order of iteration |
| SchemaMerge.MergeProperties | internal/generator/merge.go:137-167 | properties of both schemas merge, those of one stand |
| SchemaMerge.UnionRequired | internal/generator/merge.go:170-199 | the union lists each required name once, by first occurrence |
| SchemaMerge.UniqueNamesExact | internal/generator/merge.go:170-199 | exactly the names either list holds |
| SchemaMerge.MergeSchemas | internal/generator/merge.go:28-42 | the branches fold left to right |
| SchemaMerge.AllOfShrinks | internal/generator/merge.go:28-42 | the merge of allOf's branches is shallower than the schema that lists them, so generation and the walk end |
| AllOfKeywords.LastBranchStands | internal/generator/merge.go:28-132 | a keyword without a rule of its own has, over the whole fold, the value of the last branch that has it, and is absent where none has it |
| AllOfKeywords.LastTreeStands | internal/generator/merge.go:46-132 | of the orders recorded for a literal those of the last branch stand, as its literal does |
| AllOfKeywords.BranchOrderStands | internal/generator/merge.go:28-132 | the properties of a merge are declared in branch order, each where the first branch that mentions it has it |
| AllOfKeywords.UniqueInOrder | internal/generator/merge.go:170-199 | a union lists its names in the order they are first listed in |
| AllOfKeywords.FormersOrder | internal/generator/merge.go:204-226 | the types left stay in the former's order |
| AllOfKeywords.OddKinds | internal/generator/merge.go:46-132 | bounds that are no numbers give way to the latter's, required lists that are no lists to the former's |
| SchemaTypes.IntersectExact | internal/generator/merge.go:204-226 | the types left are exactly those both allow, and it fails exactly when none is |
| SchemaTypes.IntersectTypes | internal/generator/merge.go:204-226 | the code computes that intersection |
| SchemaTypes.ReadTypes | internal/generator/generator.go:197-228 | a type keyword reads as its list of known, distinct names or is refused |
| AllOfMeaning.MergeMeansBoth | internal/generator/merge.go:46-167 | a value is valid under a merge if and only if it is valid under both schemas, recursively through properties, and holds nowhere a number that one schema takes as number and the other as integer |
| AllOfMeaning.UnmixedLosesNothing | internal/generator/merge.go:204-226 | schemas that nowhere take numbers against integers lose no value |
| AllOfMeaning.AllOfSound | internal/generator/merge.go:28-42 | a value valid under the merge of allOf's branches is valid under every branch |
| AllOfRefusals.AgreeableExact | internal/generator/merge.go:28-226 | some value is valid under two schemas if and only if the schemas themselves show one, so a refusal is right exactly where they show none |
| AllOfRefusals.TypeRefusalExact | internal/generator/merge.go:204-226 | type lists that share no name are refused, and a value has both types if and only if they set numbers against integers |
| AllOfRefusals.MergedTypeExact | internal/generator/merge.go:204-226 | the types of a merge are those of both schemas if and only if they do not set numbers against integers |
| AllOfRefusals.ConstClashRefused | internal/generator/merge.go:93-101 | distinct const values are refused, and no value valid under both schemas holds anything at that place |
| AllOfRefusals.ForcedClashIsRight | internal/generator/merge.go:93-101 | the refusal is right where every step of the path is required of what can only be an object |
| AllOfRefusals.ClashRefusalExact | internal/generator/merge.go:93-167 | where nothing else conflicts, a value is valid under both schemas if and only if the path is not forced |
| AllOfRefusals.OptionalClashRefused | internal/generator/merge.go:137-167 | a concrete pair is refused for a property neither requires, and has a common value |
| AllOfRefusals.NumberClashesWithInteger | internal/generator/merge.go:204-226 | number and integer clash although integers are valid under both |
| TraitMerge.Merge | internal/asyncapi/traits.go:58-107 | the loop computes the merge whatever the order of the patch's keys |
| TraitMerge.Object | internal/asyncapi/document.go:304-323 | the object at the end of a chain of at most 32 references |
| TraitMeaning.MergesAsRfc | internal/asyncapi/traits.go:45-107 | on documents without references mergePatch is the algorithm of section 2 of RFC 7386, and fails exactly when the patch nests deeper than 64 objects |
| TraitMeaning.MergeIdempotent | internal/asyncapi/traits.go:45-47 | on reference-free documents within the depth limit, merging the same patch a second time changes nothing |
| TraitMeaning.PatchIdempotent | internal/asyncapi/traits.go:45-47 | applying a patch twice as the RFC does is applying it once |
| TraitMeaning.UnderlayKeeps | internal/asyncapi/traits.go:53-55 | underlay keeps every non-object value the target declares and removes nothing, references or not |
| TraitMeaning.UnderlayIsPatch | internal/asyncapi/traits.go:49-107 | on documents without references or nulls, laying a patch under a target is patching the patch with the target |
| TraitMeaning.UnderlaySucceeds | internal/asyncapi/traits.go:58-107 | within the depth limit underlay does not fail |
| TraitReferences.MergesThroughReferences | internal/asyncapi/traits.go:45-107 | following every reference of what a merge gives is patching one side, with its references followed, over the other, whichever side wins, for documents that hold no null |
| Iban.Mod97 | internal/synth/text.go:172-183 | the fold is the remainder of the whole expanded number for strings of any length |
| Iban.NumberIsConverted | internal/synth/text.go:172-183 | that number is ISO 13616's conversion of the string to digits, read in decimal |
| Iban.CheckLeavesOne | internal/synth/text.go:166-167 | the check is between 2 and 98 and leaves one modulo 97 |
| Iban.Build | internal/synth/text.go:156-168 | for every layout and draw the IBAN is country, two check digits and a BBAN of the layout, and rearranged it is one modulo 97 |

## Left out

- UnionPlan.PlanUnion: takes decoded avscs that `avro.Parse` accepted, as `UnionGraph.Parsed` says: every name a definition uses is primitive or defined in the same document, no type has a primitive's name, and no node carries an attribute named `items` or `values` where Avro gives it none, which the renderer would take for a schema (internal/wire/avrowire/union.go:385-394). An object `{"type": "X"}` with another name X is taken to name a primitive, as the composer leaves it untouched.
- RefMeaning.ResolvedMeansTheSame: is about the copy before the cycles' targets are added to its `$defs`, where a target replaces an entry of the same name (`RefMeaning.AddedDefsHideNothing` covers every path outside the root's own `$defs`), and does not read the two keywords that record orders.
- OrderStamps.StampAddsOnly: the order an object is written in is looked up by the object's content, where the program uses the identity of the decoded map; two equal objects are taken to be written alike.
- Generator.Generator.Node: leaf texts are arbitrary strings, so a string with an unsupported pattern never stops it here: field-name heuristics, formats, the choice of a pattern's text and string lengths are not part of the relation `Yields`. A float outside the 64-bit range converts by wrapping. A schema's recorded orders of the wrong kind, at which the program panics, count as failures.
- Draws.Synthesizer.Int: nothing is said of how draws are distributed. What the random source makes of its words to stay below a bound is a function of one word that reaches every number below it (`Draws.Below`).
- Plantings.New: whether a located field can hold a value (`Field.Holds`, `HoldsKey`) is a parameter of the model, and a Topic parameter's location has at least one token, as internal/asyncapi/topic.go:245-260 ensures.
- Plantings.Set.Plant: schemas are immutable values here; that planting reaches no schema is stated as the freshness of every literal's copy (`LiteralCopies.CopyLiteral`). How Go grows the slices of an ordered object is not modelled.
- LiteralCopies.CopyLiteral: copies an object that is ordered already, where the program returns it shared; decoded literals hold none.
- AvroGenerator.AvroGenerator.DrawMantissa: a decimal keeps a power of ten as its denominator, where the program's rationals are reduced; the two are the same number.
- AvroRender.RenderDatum: instants and durations render as an uninterpreted text, and escaping bytes of the JSON output is not modelled. Records are taken to have distinct field names.
- PatternParser.GenNode: repeat counts are unbounded; a range of counts wider than an int, at which the program panics, is not modelled. Errors name no construct.
- TemplateFill.Fill: takes the address already split at its parameters.
- TraitReferences.MergesThroughReferences: references inside lists are not followed, and of documents that hold nulls beside references only the computation itself (`TraitMerge.Merge`) and `TraitMeaning.UnderlayKeeps` are covered.
- Iban.Build: the country layouts are a parameter.
- Kafka, the registry client, sinks, signals, logging and flags: input and output.
- YAML and JSON decoding, the Confluent codec, MIME types and the jsonschema validator: other libraries; decoded trees are inputs.
- keyHeldBy (internal/generator/keyholds.go) and conformance of generated strings to their formats and lengths: leaf texts are arbitrary here.
- DeclaredBounds.IntegersKeepBounds: is about whole bounds; a fractional one is cut toward zero before it is drawn from.
- The wording of errors, and the differences between the AsyncAPI 2 and 3 front ends.
