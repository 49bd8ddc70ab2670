# UpsideFuzz: a Dafny model of its hard core

UpsideFuzz is a schema-aware fuzzer for HTTP services. This project models the parts of it whose correctness is not
visible from one function, and proves what they promise. `dafny verify dfyconfig.toml` checks all of it.

- **Typed request bodies** (`Body*.dfy`, `Json*.dfy`, `Crash*.dfy`, `SelfReference.dfy`, `SchemaCompiler.dfy`).
  A schema graph is instantiated into a mutable value tree, at most one of ten structural operators rewrites it in place,
  a hand-written printer turns it into JSON, and a greedy pass deletes from it whatever a crash does not need. Live trees
  are objects on the heap; `BodyValues` says when they are trees without sharing (`Owned`) and what they mean (`View`, a
  `Tree` of `BodyTree`). Every method is proved against a function on trees: `Json`, `Build`, `ApplyValid`,
  `ApplyAdversarial`, `MinTree`. The theorems are about those functions, and about conformance to the schema;
  `BodyFigures` says in plain figures and texts what is built and what the operators put in.
- **Comparison logging** (`Il*.dfy`, `CmpLog*.dfy`). Instructions that record operands are inserted into compiled methods.
  A small stack machine gives both bodies a meaning, and a forward simulation relates them.
- **Probes and coverage** (`OperandQueue`, `CoverageHook`, `CoverageBuckets`, `ShmCoverageReader`). A lock-free
  deduplicating queue as interleaved steps, a first-observer-wins merge whose deltas add up, and a word-skipping scan.
- **Inheritance of constraints** (`TypeResolver`, `ConstraintWalker`). A mutating walk with a shared visited set computes
  the exact transitive closure.
- **Campaign files** (`CampaignLines`, `CampaignParser`). A layout parser and a printer undo each other.
- **Request chains and race bursts** (`ChainMinimizer`, `RaceTracker`). Verdicts and results that hold over every run.

Randomness, map iteration order, the target's answers, leaf values and interleavings are arguments or free choices: what is
proved holds for all of them.

## Model

| member | source | states |
|---|---|---|
| BodyMinimizeProofs.MinimizerIsSafe | src/void/internal/engine/minimize.go:130-201 | for any target, deterministic or not: the result is the start tree minus deletions; the probes spent are the trees sent, within the budget; if anything changed the result is exactly the last accepted tree (every rejected deletion back in its place), Body is its JSON, and this pass sent it and got a status of 500 or more; otherwise tree, Body and item are untouched |
| BodyMinimizeProofs.NoCrashNoChange | src/void/internal/engine/minimize.go:67-77 | a target that never answers with a status of 500 or more, transport errors included, leaves tree, Body and item as they were |
| BodyMinimizeProofs.MinimizerIsLocallyMinimal | src/void/internal/engine/minimize.go:130-201 | for a deterministic, monotone target, one probe per element and the Body of any sent item (JSON, form or multipart): no deletion anywhere in the returned tree is still answered with a status of 500 or more |
| BodyMinimizeProofs.AlwaysCrashIsEmptied | src/void/internal/engine/minimize.go:130-201 | a target that crashes on everything: nothing is left to delete |
| BodyMinimizeProofs.OneFieldIsLeft | src/void/internal/engine/minimize.go:130-201 | a target that crashes on every object with a certain field: of any such body that field is left, once, with nothing in it |
| BodyMinimizeProofs.SentUnblocked | src/void/internal/engine/minimize.go:79-89 | the no-op guard of trySet never throws a candidate of a sent item away |
| BodyMinimizeProofs.MinNodeMinimal | src/void/internal/engine/minimize.go:159-201 | one recursive call leaves its subtree minimal in place, within one probe per element |
| BodyWire.SentOpens | src/void/internal/engine/template.go:591-611 | form and multipart text never starts like a JSON container |
| BodyWire.EscapeSpells | src/void/internal/engine/body_serialize.go:139-143 | in form text every other ASCII character is a percent sign and two hexadecimal digits |
| BodyWire.EscapeKeeps | src/void/internal/engine/body_serialize.go:139-143 | letters, digits and four marks stay, a space becomes a plus |
| BodyWire.CandidateOpens | src/void/internal/engine/minimize.go:135-145 | every candidate, being what is left of a container, prints as a container |
| CrashMinimizers.CrashMinimizer.MinimizeBodyTree | src/void/internal/engine/minimize.go:130-148 | the heap pass over a clone of fresh nodes computes exactly the value-level minimizer; no node of the original tree changes; the item points to the clone only if something was accepted |
| CrashMinimizers.CrashMinimizer.MinimizeNode | src/void/internal/engine/minimize.go:159-201 | the recursive walk on live nodes equals the value-level walk at the same path, rewrites nodes below that path only, and leaves a tree without sharing |
| CrashMinimizers.CrashMinimizer.MinimizeAll | src/void/internal/engine/minimize.go:179-199 | the walk over the children that remain, with the list taken before the walk |
| CrashMinimizers.CrashMinimizer.VisitKid | src/void/internal/engine/minimize.go:179-199 | one child of that walk: later children are as they were |
| CrashMinimizers.CrashMinimizer.DropFields | src/void/internal/engine/minimize.go:164-178 | the field loop equals the value-level loop; the node stays where it was in the tree |
| CrashMinimizers.CrashMinimizer.DropItems | src/void/internal/engine/minimize.go:182-196 | the item loop equals the value-level loop |
| CrashMinimizers.CrashMinimizer.TryDropField | src/void/internal/engine/minimize.go:166-177 | one field cut out; after a rejection every node, the position of the field included, is exactly as before |
| CrashMinimizers.CrashMinimizer.TryDropItem | src/void/internal/engine/minimize.go:184-195 | one item cut out, and put back in place after a rejection |
| CrashMinimizers.CrashMinimizer.Attempt | src/void/internal/engine/minimize.go:135-145 | re-serialises the live tree and tries it; an accepted candidate becomes the item |
| CrashMinimizers.CrashMinimizer.TrySet | src/void/internal/engine/minimize.go:79-89 | skips candidates equal to the item, keeps those that crash |
| CrashMinimizers.CrashMinimizer.Probe | src/void/internal/engine/minimize.go:67-77 | sends only within the budget and counts every request; a crash is an answer with a status of 500 or more, a transport error is none |
| JsonPrinter.DeletionShortens | src/void/internal/engine/body_serialize.go:49-98 | a deletion at or above the depth cap makes the printed text strictly shorter |
| ChainMinimizer.MinimizerIsSafe | src/void/internal/engine/minimize.go:375-429 | for any target: the result keeps the final step and drops others only; probes are the requests sent and within the budget; if changed, the whole replay of the result is among them, error-free, ending in a status of 500 or more |
| ChainMinimizer.MinimizerIsLocallyMinimal | src/void/internal/engine/minimize.go:375-429 | when the replays the pass makes come out as an outcome of chains says, one that adding steps to a part of the original does not undo, and there is budget for one replay per step: no non-final step can be dropped any more, and what crashed still crashes |
| ChainMinimizer.StartingOverIsMinimal | src/void/internal/engine/minimize.go:365-429 | so for every target that answers and starts over after the final step, however much earlier steps matter |
| ChainMinimizer.SetupIsKept | src/void/internal/engine/minimize.go:365-429 | such a target that crashes on a step after another one: every chain that holds that one ends up as just the two |
| ChainMinimizer.ResultReproduces | src/void/internal/engine/minimize.go:375-429 | for any budget: when the replays come out as they would alone, the result crashes the target by itself |
| ChainMinimizer.StaleStateMisleads | src/void/internal/engine/minimize.go:387-426 | a target that remembers across replays: the pass drops the step the crash needs, and the result alone does not crash |
| ChainMinimizer.DropIsSafe | src/void/internal/engine/minimize.go:412-426 | one descending pass keeps all that |
| ChainMinimizer.DropIsMinimal | src/void/internal/engine/minimize.go:412-426 | after the pass down from step i no non-final step can be dropped any more |
| ChainMinimizer.DropKeepsMinimal | src/void/internal/engine/minimize.go:412-426 | a successful drop does not make later steps droppable |
| ChainMinimizer.CrashMeansFullReplay | src/void/internal/engine/minimize.go:394-408 | a candidate counts as crashing only after all its steps were sent and answered within the budget |
| ChainMinimizer.Fuzzer.StillCrashes | src/void/internal/engine/minimize.go:394-408 | the replay loop computes that, one probe per request |
| ChainMinimizer.Fuzzer.MinimizeChainCandidate | src/void/internal/engine/minimize.go:375-429 | the outer loop computes the specified minimization, every request recorded |
| JsonRoundTrip.ReadTextToJson | src/void/internal/engine/body_serialize.go:43-98 | a JSON reader (RFC 8259) undoes ToJSON for every tree with valid number texts: same order, repeated keys kept, numbers digit for digit, a blank number text read as 0; below level sixty-five it reads null |
| JsonRoundTrip.ReadTextToJsonWithinCap | src/void/internal/engine/body_serialize.go:40-98 | within sixty-five levels nothing is lost |
| JsonRoundTrip.LevelSixtySix | src/void/internal/engine/body_serialize.go:40-57 | what sits on level sixty-six is read as null, whatever it was |
| JsonRoundTrip.BlankIsWhiteSpace | src/void/internal/engine/body_serialize.go:83-89 | the number texts printed as 0 are the empty one and those of Unicode white space only |
| JsonRoundTrip.ReadJson | src/void/internal/engine/body_serialize.go:49-98 | the same for a value in any context, leaving what follows unread |
| JsonRoundTrip.ToJsonInjective | src/void/internal/engine/body_serialize.go:43-98 | two trees within the cap print alike if and only if they mean the same JSON |
| JsonRoundTrip.UnescapeEscape | src/void/internal/engine/body_serialize.go:106-132 | unescaping (section 7 of RFC 8259) undoes jsonEscapeString for every string |
| JsonPrinter.EscapeVerbatim | src/void/internal/engine/body_serialize.go:100-132 | a payload without quotes, backslashes and control characters reaches the wire as it is |
| JsonPrinter.EscapeConcat | src/void/internal/engine/body_serialize.go:106-132 | escaping goes character by character |
| JsonPrinter.SpecialsEscaped | src/void/internal/engine/body_serialize.go:106-132 | quotes, backslashes and three controls have short escapes, other control characters four hexadecimal digits, lower case |
| JsonPrinter.ElementsPrint | src/void/internal/engine/body_serialize.go:49-78 | elements are separated by a comma, keys followed by a colon, without white space |
| JsonPrinter.JsonTruncate | src/void/internal/engine/body_serialize.go:54-57 | printing never looks past the depth cap |
| JsonPrinter.TruncateIdentity | src/void/internal/engine/body_value.go:97-118 | cutting at the cap changes no tree whose height fits |
| BodySerialize.ToJSON | src/void/internal/engine/body_serialize.go:43-47 | the builder method prints what the live tree means |
| BodySerialize.WriteJSON | src/void/internal/engine/body_serialize.go:49-98 | appends exactly the text of the value to what the builder held; ReadTextToJson says what that text means, number by number |
| BodySerialize.WriteFields | src/void/internal/engine/body_serialize.go:59-69 | the field loop, commas and repeated keys included |
| BodySerialize.WriteItems | src/void/internal/engine/body_serialize.go:70-78 | the item loop |
| BodySerialize.JsonEscapeString | src/void/internal/engine/body_serialize.go:106-132 | the escaping loop computes the quoted string that UnescapeEscape undoes |
| BodyClone.Clone | src/void/internal/engine/body_value.go:93-95 | a clone consists of fresh nodes only, none reachable twice, and means its source cut at the cap |
| BodyClone.CloneDepth | src/void/internal/engine/body_value.go:97-118 | the recursion behind it |
| BodyClone.CloneAll | src/void/internal/engine/body_value.go:97-118 | the loops over children: copies share no node with each other |
| BodyValues.ChangeAt | src/void/internal/engine/body_value.go:31-41 | heap shape: when one node of a tree is changed into a tree again, the whole is a tree, and its meaning changed at that path only |
| BodySchema.ConformsMore | src/void/internal/engine/body_mutate_test.go:18-128 | conformance does not depend on how many schema steps are allowed |
| BodyConformance.BuiltConforms | src/void/internal/engine/body_build.go:47-142 | what is built, with tags pending, conforms whenever Buildable holds along the branches taken: nested, untagged and partly mapped variants included |
| BodyConformance.BuiltConformsIff | src/void/internal/engine/body_build.go:47-142 | and only then, at the depth cap and on self-referential schemas too, where no other branch takes the value |
| BodyConformance.VariantFreeCommitted | src/void/internal/engine/body_build.go:47-85 | a schema without oneOf/anyOf always meets that proviso |
| BodyConformance.ConformingIsBuildable | src/void/internal/engine/body_build.go:47-142 | the necessary half, by induction over the build |
| BodyConformance.TaggedObjectIff | src/void/internal/engine/body_build.go:126-142 | an object written over with tags conforms if and only if names and tags suit the node and every field not written over conforms |
| BodyConformance.FittingConforms | src/void/internal/engine/body_build.go:47-206 | the same from the schema alone: nodes that fit one by one, none met below the cap, leaves that answer to their nodes; no mention of what is built |
| BodyConformance.FittingIsBuildable | src/void/internal/engine/body_build.go:47-142 | such a schema is Buildable at every position, with a tag pending too |
| BodyConformance.NullMeansNullable | src/void/internal/engine/body_build.go:87-100 | on such a schema null is built only where it is allowed |
| BodyConformance.CapNeverMet | src/void/internal/engine/body_build.go:36-56 | where no node is met below the cap, any larger cap builds the same tree |
| BodyConformance.CircleNeverConforms | src/void/internal/engine/body_build.go:54-56 | objects and arrays that always lead to one another never conform when built |
| BodyConformance.CycleNeverConforms | src/void/internal/engine/body_build.go:54-56 | in particular along any cycle of declared properties and item schemas |
| BodyBuild.NumericDefaultFits | src/void/internal/engine/body_build.go:177-189 | the numeric default is in range if and only if the bounds are in order; truncated, if and only if truncation does not cross them |
| BodyBuild.StringDefaultFits | src/void/internal/engine/body_build.go:191-206 | the string default has a fitting length if and only if the length bounds are in order |
| BodyBuild.DefaultLeafConforms | src/void/internal/engine/body_build.go:163-206 | the default leaf conforms to its scalar node if and only if DefaultFits, read off the node |
| BodyBuild.BuiltParallel | src/void/internal/engine/body_build.go:58-85 | a built tree runs in step with its schema: objects at object nodes with declared keys only, arrays at array nodes |
| BodyBuild.BuiltHeight | src/void/internal/engine/body_build.go:26-56 | building stops by itself on every schema graph, at most fourteen levels high |
| BodyBuild.TaggedFields | src/void/internal/engine/body_build.go:126-142 | tagging leaves every other field in place and the property carrying the tag |
| BodyFigures.BuiltLength | src/void/internal/engine/body_build.go:70-85 | a fresh array has one item, or minItems of them from two to five, five above, none without an item schema; its length conforms if and only if the bounds leave room for that |
| BodyFigures.CircleIsCut | src/void/internal/engine/body_build.go:47-85 | an array of itself is built thirteen layers deep around a stand-in text |
| BodyFigures.BuiltNames | src/void/internal/engine/body_build.go:58-68 | properties come in the declared order, names without a schema passed over |
| BodyFigures.BuiltBranch | src/void/internal/engine/body_build.go:87-100 | the branch asked for, the first one for any other number, null without branches; the tag is that branch's |
| BodyFigures.DefaultTexts | src/void/internal/engine/body_build.go:163-206 | the default leaf: first enum value, true, the UUID or stand-in text, padded with x, cut to maxLength |
| BodyFigures.DefaultNumber | src/void/internal/engine/body_build.go:177-189 | the default number is 1 where the bounds allow it, else the bound in the way, truncated for integers |
| BodyBuilder.BuildBodyValue | src/void/internal/engine/body_build.go:47-115 | the heap build yields fresh nodes, none reachable twice, meaning exactly the specified tree |
| BodyBuilder.BuildFieldList | src/void/internal/engine/body_build.go:60-68 | the property loop: declared properties, in order |
| BodyBuilder.BuildItemList | src/void/internal/engine/body_build.go:70-85 | the item loop: as many items as BuiltLength says in figures |
| BodyBuilder.BuildVariantValue | src/void/internal/engine/body_build.go:87-100 | one branch, tagged; null without branches; an index out of range means the first |
| BodyBuilder.ApplyDiscriminatorTag | src/void/internal/engine/body_build.go:126-142 | overwrites the first field of the name in place or appends one, on the live object |
| Decimals.TruncMeans | src/void/internal/engine/body_mutate.go:683-688 | conversion to int moves toward zero by less than one and leaves exactly the whole numbers alone |
| Decimals.ItoaMeans | src/void/internal/engine/body_mutate.go:683-688 | the printed integer is a valid JSON number of that value |
| Decimals.FormatFloatMeans | src/void/internal/engine/body_mutate.go:683-688 | the printed decimal is a valid JSON number of that value |
| BodySites.SitesIff | src/void/internal/engine/body_mutate.go:212-246 | the sites offered are exactly the value positions that the schema describes |
| BodySites.SiteSnoc | src/void/internal/engine/body_mutate.go:212-246 | step by step: a position is a site if and only if it is the root or a declared field or an item below a site that is no oneOf/anyOf |
| BodyFigures.SiteBelowSite | src/void/internal/engine/body_mutate.go:212-246 | no such field and no such item is left out |
| BodySites.ElsewhereUnchanged | src/void/internal/engine/body_mutate.go:159-183 | replacing the value at one site changes nothing off the path to it |
| BodySites.SiteDecides | src/void/internal/engine/body_mutate.go:159-183 | in a conforming body, the new value at a site conforms if and only if the body still does |
| BodyMutate.ValidKeepsConforming | src/void/internal/engine/body_mutate.go:257-654 | every valid operator maps a conforming body to a conforming body, given what its own rebuild needs |
| BodyMutate.AddFieldConforms | src/void/internal/engine/body_mutate.go:257-294 | adding a missing declared field |
| BodyMutate.RemoveFieldConforms | src/void/internal/engine/body_mutate.go:257-294 | removing a field that is not required, on any object |
| BodyMutate.ResizeConforms | src/void/internal/engine/body_mutate.go:321-377 | resizing within the bounds |
| BodyMutate.EdgeConforms | src/void/internal/engine/body_mutate.go:634-654 | the edge value conforms if and only if the bounds are in order and whole where truncation would cross them |
| BodyFigures.EdgeIs | src/void/internal/engine/body_mutate.go:634-654 | the edge value is the first enum value; the minimum, else the maximum, else 0; minLength characters, else maxLength |
| BodyFigures.ResizedItems | src/void/internal/engine/body_mutate.go:364-377 | resizing keeps the first items and appends fresh builds up to the length, unless there is no item schema |
| BodyMutate.FittingIsSound | src/void/internal/engine/body_mutate.go:381-389 | on a schema that fits node by node every rebuild conforms |
| BodyFigures.OrderConforms | src/void/internal/engine/body_build.go:47-206 | an example: an order with a required number, an array and a oneOf conforms when built with the default leaves |
| BodyMutate.BuiltOverCircle | src/void/internal/engine/body_build.go:47-115 | a body built with a site in a circle of objects and arrays does not conform to begin with |
| BodyMutate.NestingRebuildBreaks | src/void/internal/engine/body_mutate.go:541-551 | rebuilding a node of such a circle never conforms, and whatever body it is in, conforming before or not, does not conform afterwards |
| BodyAdversarial.AdversarialBreaksBody | src/void/internal/engine/body_mutate.go:298-656 | each of the nine adversarial operators breaks a conforming body if and only if its own condition holds at the site |
| BodyAdversarial.AdversarialBreaksIff | src/void/internal/engine/body_mutate.go:298-656 | the same at the site, the variant switch and the nesting included |
| BodyAdversarial.OmitBreaks | src/void/internal/engine/body_mutate.go:298-317 | a required key is missing afterwards |
| BodyAdversarial.ResizeOutBreaks | src/void/internal/engine/body_mutate.go:346-377 | the length is out of bounds, or the array cannot grow and stays as it is |
| BodyAdversarial.UndeclaredBreaks | src/void/internal/engine/body_mutate.go:467-482 | an undeclared key breaks the object if and only if extras are forbidden |
| BodyAdversarial.DuplicateRepeats | src/void/internal/engine/body_mutate.go:510-525 | exactly one key is doubled |
| BodyAdversarial.ViolatingConforms | src/void/internal/engine/body_mutate.go:656-681 | the violating value conforms if and only if the condition for breaking fails |
| BodyFigures.ViolatingIs | src/void/internal/engine/body_mutate.go:656-681 | the violating value is exactly one below the minimum or above the maximum; one character over maxLength or under minLength; an enum value with a suffix |
| BodyAdversarial.ViolatingNumber | src/void/internal/engine/body_mutate.go:656-688 | minimum - 1 stays below and maximum + 1 above the bound, truncated or not |
| BodyAdversarial.SwitchTagMismatch | src/void/internal/engine/body_mutate.go:391-413 | a retagged value carries the tag of the next branch and conforms if and only if that branch takes it; without the property, a tag or an object it is the built value |
| BodyFigures.SwitchedTo | src/void/internal/engine/body_mutate.go:391-413 | the tag written is that of branch (branch + 1) modulo the number of branches |
| BodyAdversarial.TakesShapeIff | src/void/internal/engine/body_mutate.go:398-409 | what it takes for a node to accept the retagged object, read off the node and the fields that keep their values |
| BodyAdversarial.SwitchBetweenObjects | src/void/internal/engine/body_mutate.go:391-413 | between object branches: it conforms if and only if the next node knows or tolerates the first one's names and the property, requires no other, and takes the tag and the values built for the first |
| BodyAdversarial.PlainSwitchConforms | src/void/internal/engine/body_mutate.go:398-410 | not retagged, it conforms if the branch is sound; where that branch is the one that counts, if and only if it is Buildable |
| BodyAdversarial.SwitchedTagMissed | src/void/internal/engine/body_mutate.go:391-413 | at two open object branches tagged A and B the shape of A under tag B conforms |
| BodyAdversarial.WrappedConforms | src/void/internal/engine/body_mutate.go:592-600 | a value in any number of wrapper objects conforms if and only if the nodes on the way down take the key |
| BodyFigures.NestIs | src/void/internal/engine/body_mutate.go:578-602 | nesting puts exactly four objects around the copy |
| BodyAdversarial.NestingMissed | src/void/internal/engine/body_mutate.go:581-602 | at an open object schema without requirements every nested value conforms |
| BodyAdversarial.VariantIff | src/void/internal/engine/body_mutate_test.go:18-128 | what a oneOf/anyOf asks of a value, branch by branch |
| BodyMutate.OneOperatorUnderCap | src/void/internal/engine/body_serialize.go:40-57 | one operator on a built tree stays below the printing and cloning cap |
| BodyMutate.ValidHeight | src/void/internal/engine/body_mutate.go:257-654 | how high a valid operator can make its site |
| BodyMutate.AdversarialHeight | src/void/internal/engine/body_mutate.go:298-681 | how high an adversarial operator can make its site |
| BodyWalk.CollectBodySites | src/void/internal/engine/body_mutate.go:212-246 | the walk over the live tree collects those sites, each with a setter that fits |
| BodyWalk.Set | src/void/internal/engine/body_mutate.go:212-246 | a setter replaces the value at the site and nothing else, and leaves a tree |
| BodyWalk.Overwrite | src/void/internal/engine/body_mutate.go:185-201 | so does the root setter, which overwrites the root node in place |
| BodyMutator.BuildAndMutateBodyTree | src/void/internal/engine/body_mutate.go:159-183 | a tree of fresh nodes: as built, or changed at one site by the operator picked, then named in the label; an adversarial render, or a valid one that is to be mutated, stays as built only if no site of the tree has work for that operator, by its node and its value |
| BodyFigures.EveryOperatorHasWork | src/void/internal/engine/body_mutate.go:159-183 | on an order with a required number, an array and a oneOf each of the nine adversarial operators has a site to work at, whatever the leaves; so none may decline |
| BodyFigures.ValidOperatorsHaveWork | src/void/internal/engine/body_mutate.go:159-183 | so have the valid operators but the one for self-references |
| BodyMutator.ValidRenderConforms | src/void/internal/engine/body_mutate.go:159-183 | a valid render of a Buildable schema conforms |
| BodyMutator.FittingRenderConforms | src/void/internal/engine/body_mutate.go:159-183 | a valid render conforms whenever the schema fits node by node: no condition on the tree or the operator |
| BodyMutator.AdversarialRenderBreaks | src/void/internal/engine/body_mutate.go:159-183 | an adversarial render breaks the schema if and only if the condition of its operator holds |
| BodyMutator.RenderUnderCap | src/void/internal/engine/body_mutate.go:159-183 | printing and cloning any render loses nothing |
| BodyMutator.OpAddRemoveFieldValid | src/void/internal/engine/body_mutate.go:257-294 | at one object site the first declared name that is absent is added, or the first field that is not required cut; if it declines, every node is as before and no site has such a name, or field |
| BodyMutator.OpRequiredFieldOmission | src/void/internal/engine/body_mutate.go:298-317 | at one object site the first field that is required is cut; if it declines, every node is as before and no site has an object with one |
| BodyMutator.OpArrayResizeValid | src/void/internal/engine/body_mutate.go:321-344 | some array site gets a length between its bounds; if it declines, every node is as before and no site has an array node |
| BodyMutator.OpArrayResizeAdversarial | src/void/internal/engine/body_mutate.go:346-362 | some array site is resized to one beyond a bound; if it declines, every node is as before and no site has an array node with maxItems or a positive minItems |
| BodyMutator.ResizeNode | src/void/internal/engine/body_mutate.go:364-377 | cuts or grows the items of the live node, fresh trees being appended; a node that is no array gets them without showing them |
| BodyMutator.OpVariantSwitchValid | src/void/internal/engine/body_mutate.go:381-389 | some site is rebuilt for one of its branches; if it declines, every node is as before and no site has a oneOf/anyOf node with more than one |
| BodyMutator.OpVariantSwitchAdversarial | src/void/internal/engine/body_mutate.go:391-413 | some site is rebuilt for one branch and retagged for the next; if it declines, every node is as before and no site has a oneOf/anyOf node with more than one |
| BodyMutator.OpTypeSubstitution | src/void/internal/engine/body_mutate.go:424-449 | some scalar site gets a value of another kind; if it declines, every node is as before and no site has a scalar node |
| BodyMutator.OpNullInjection | src/void/internal/engine/body_mutate.go:453-463 | some site that is not nullable gets null; if it declines, every node is as before and no site has a typed node that is not nullable |
| BodyMutator.OpUndeclaredProperty | src/void/internal/engine/body_mutate.go:467-482 | some object site gets a field with a key it does not declare, at any position; if it declines, every node is as before and no site has an object node |
| BodyMutator.UndeclaredKeyFor | src/void/internal/engine/body_mutate.go:484-495 | the search without a bound ends, with a key that is not declared |
| BodyMutator.OpDuplicateKey | src/void/internal/engine/body_mutate.go:510-525 | some object site gets one of its keys a second time; if it declines, every node is as before and no site has an object with fields |
| BodyMutator.OpNestingDepthStressValid | src/void/internal/engine/body_mutate.go:541-551 | some site whose node leads back to itself is rebuilt; if it declines, every node is as before and no site has a node for which the search says so |
| BodyMutator.OpNestingDepthStressAdversarial | src/void/internal/engine/body_mutate.go:581-602 | some site gets four layers around a copy of its value: the tree holds no node twice, no cycle arises; if it declines, every node is as before and no site has a node at all |
| BodyMutator.OpConstraintBoundaryValid | src/void/internal/engine/body_mutate.go:606-614 | some constrained scalar site gets its edge value; if it declines, every node is as before and no site has a scalar node with a length, a bound, an enum or a pattern |
| BodyMutator.OpConstraintBoundaryAdversarial | src/void/internal/engine/body_mutate.go:616-624 | some constrained scalar site gets the violating value; if it declines, every node is as before and no site has a scalar node with a length, a bound, an enum or a pattern |
| SelfReference.HitMeansCycle | src/void/internal/engine/body_mutate.go:553-576 | a node is called self-referential only if it lies on a cycle, in whatever order maps are walked |
| SelfReference.SearchIsExact | src/void/internal/engine/body_mutate.go:553-576 | and, where at most thirteen nodes can be reached, if it does |
| SelfReference.LongRingMissed | src/void/internal/engine/body_mutate.go:553-576 | every longer ring is missed |
| SchemaCompiler.CompiledLevels | tools/grammar/grammarc/schema_ast.py:110-248 | however references go in circles, the compiled tree has at most ten levels |
| SchemaCompiler.CompilesIff | tools/grammar/grammarc/schema_ast.py:125-140 | a schema compiles if and only if it is a dictionary that resolves or is cut; it becomes an inert leaf if and only if its reference is being followed already or it lies more than eight levels down |
| SchemaCompiler.CompiledKind | tools/grammar/grammarc/schema_ast.py:138-248 | each kind of schema becomes its kind of node, oneOf before anyOf before allOf and objects before arrays |
| SchemaCompiler.InlineCircleIsCut | tools/grammar/grammarc/schema_ast.py:134-135 | an array of itself without a reference becomes nine arrays around an inert leaf |
| SchemaCompiler.CompiledProperties | tools/grammar/grammarc/schema_ast.py:159-180 | properties are those whose schemas compile, each under its name, in order |
| SchemaCompiler.CompiledVariants | tools/grammar/grammarc/schema_ast.py:138-149 | variants are those that compile, in order |
| SchemaCompiler.ObjectNames | tools/grammar/grammarc/schema_ast.py:159-187 | all declared names are in the order; those whose schemas compile are properties; required are exactly the required names among them |
| SchemaCompiler.CompiledNamesOk | tools/grammar/grammarc/schema_ast.py:110-248 | the same, with distinct names, in every object of the compiled tree |
| SchemaCompiler.TagsIndexVariants | tools/grammar/grammarc/schema_ast.py:79-149 | a tag's index finds its own schema's node if and only if every variant up to it compiles |
| SchemaCompiler.ImplicitIs | tools/grammar/grammarc/schema_ast.py:98-104 | without a mapping a tag is the name of a variant, for the last one of that name |
| SchemaCompiler.ExplicitIs | tools/grammar/grammarc/schema_ast.py:88-97 | with one it is a tag whose target, cut to its last part, names a variant, for the first of that name |
| SchemaCompiler.DiscriminatorIs | tools/grammar/grammarc/schema_ast.py:79-107 | a discriminator is there if and only if it has a property and any tag at all |
| SchemaCompiler.DroppedVariantShifts | tools/grammar/grammarc/schema_ast.py:79-149 | two variants of which the first resolves to nothing: the second one's index points past the end |
| SchemaCompiler.CompiledNeverCut | src/void/internal/engine/body_build.go:36-56 | a schema compiled with cap 8 is built without meeting cap 12: the tree is the same with three levels less |
| SchemaCompiler.CompiledConforms | src/void/internal/engine/body_build.go:47-115 | every instance of a compiled schema conforms, given array lengths, branches and leaves in order |
| CmpLogSimulation.LoggingPreservesMeaning | tools/dotnet/instrumentor/Program.cs:397-481 | after any number of original steps the rewritten body stands at the same original instruction with the same stack, world and original locals, or has stopped with the same result; the log is the operands of the sites entered by falling through |
| CmpLogSimulation.LoggingPreservesTermination | tools/dotnet/instrumentor/Program.cs:397-481 | it stops if and only if the original stops, with the same result |
| CmpLogSimulation.StepMatches | tools/dotnet/instrumentor/Program.cs:397-481 | forward simulation: one original step, jumps into sites included |
| CmpLogSimulation.TargetsResolve | tools/dotnet/instrumentor/Program.cs:397-481 | branch targets resolve to the original instruction, past what was put before it |
| CmpLogSimulation.StringChunkRuns | tools/dotnet/instrumentor/Program.cs:410-429 | the seven inserted instructions restore the stack and record both operands |
| CmpLogSimulation.IntChunkRuns | tools/dotnet/instrumentor/Program.cs:463-479 | the inserted instructions behind a constant restore the stack and record it widened |
| CmpLogSimulation.JumpedSiteIsNotLogged | tools/dotnet/instrumentor/Program.cs:397-431 | the rewritten body, entering its comparison by a branch or by falling through, returns the same; only the latter is logged |
| CmpLogSimulation.ComparedConstantIsLogged | tools/dotnet/instrumentor/Program.cs:439-481 | a constant of either width, a nop, then ceq, beq or bne.un: the rewritten body records the constant and returns the same |
| CmpLogRewrite.IntSiteIff | tools/dotnet/instrumentor/Program.cs:439-461 | the integer sites are exactly the constants off exception boundaries that ceq, beq or bne.un follows, nops aside |
| CmpLogRewrite.BoundariesUntouched | tools/dotnet/instrumentor/Program.cs:399-461 | where every instruction is an exception boundary nothing is inserted |
| CmpLogRewrite.PassesAreExpand | tools/dotnet/instrumentor/Program.cs:341-346 | the two passes one after the other are one expansion |
| CmpLogRewrite.StringPassKeepsLookahead | tools/dotnet/instrumentor/Program.cs:448-461 | the first pass hides no integer site from the second |
| CmpLogInstrumentor.MethodBody.InstrumentStringComparisons | tools/dotnet/instrumentor/Program.cs:397-431 | collecting sites, then inserting around each in place, computes the specified pass; two variables a site |
| CmpLogInstrumentor.MethodBody.InstrumentIntComparisons | tools/dotnet/instrumentor/Program.cs:443-481 | collecting sites, then inserting behind each in place, computes the specified pass |
| CmpLogInstrumentor.MethodBody.CollectStringTargets | tools/dotnet/instrumentor/Program.cs:399-408 | the string calls off exception boundaries, in order |
| CmpLogInstrumentor.MethodBody.CollectIntTargets | tools/dotnet/instrumentor/Program.cs:445-461 | the constants that feed a comparison past nops |
| CmpLogInstrumentor.MethodBody.InsertStringChunk | tools/dotnet/instrumentor/Program.cs:417-428 | seven instructions of new identity in front of the call |
| CmpLogInstrumentor.MethodBody.InsertIntChunk | tools/dotnet/instrumentor/Program.cs:468-478 | two or three behind the constant |
| CmpLogInstrumentor.MethodBody.Instrument | tools/dotnet/instrumentor/Program.cs:341-346 | both passes on one body |
| CmpLogInstrumentor.InstrumentedPreservesMeaning | tools/dotnet/instrumentor/Program.cs:276-366 | what Instrument leaves behind preserves the meaning of the body |
| CmpLogInstrumentor.InstrumentedPreservesTermination | tools/dotnet/instrumentor/Program.cs:276-366 | and whether and how it stops |
| OperandQueue.RunKeepsInv | tools/prep/fuzzprep/instrumentor_gen.py:694-715 | every interleaving: the seen set is the disjoint union of the queue and the values in threads' hands; the queue exceeds its cap by at most the threads still trimming |
| OperandQueue.StepKeepsInv | tools/prep/fuzzprep/instrumentor_gen.py:700-715 | one collection call of one thread keeps it |
| OperandQueue.NoDuplicates | tools/prep/fuzzprep/instrumentor_gen.py:694-715 | so the queue never holds a value twice |
| OperandQueue.RefusedIff | tools/prep/fuzzprep/instrumentor_gen.py:703-706 | a value is refused if and only if it is queued or in the hands of a thread |
| OperandQueue.LostIff | tools/prep/fuzzprep/instrumentor_gen.py:700-715 | a refused value is neither queued nor about to be if and only if a thread that took it out has yet to forget it |
| OperandQueue.AtRestAgree | tools/prep/fuzzprep/instrumentor_gen.py:694-715 | with no thread inside, queue and set agree within the cap |
| OperandQueue.StringsAtRest | tools/prep/fuzzprep/instrumentor_gen.py:685-707 | at the real limits: at most 512 strings, non-empty, at most 256 units long |
| OperandQueue.IntsAtRest | tools/prep/fuzzprep/instrumentor_gen.py:686-715 | at most 256 integers |
| OperandQueue.StringsAreKept | tools/prep/fuzzprep/instrumentor_gen.py:685-707 | 512 different strings of 1 to 256 units, recorded one after the other, are all kept in order |
| OperandQueue.IntsAreKept | tools/prep/fuzzprep/instrumentor_gen.py:686-715 | so are 256 different integers |
| OperandQueue.OldestLeaves | tools/prep/fuzzprep/instrumentor_gen.py:700-715 | one more, undisturbed, pushes out the oldest, from queue and set |
| OperandQueue.EvictedValueLost | tools/prep/fuzzprep/instrumentor_gen.py:703-706 | at any cap: between eviction and removal another thread's record of the evicted value is lost |
| OperandQueue.ZeroIsLost | tools/prep/fuzzprep/instrumentor_gen.py:709-715 | that run at the real integer cap |
| CoverageHook.DeltasAddUp | tools/prep/fuzzprep/instrumentor_gen.py:501-671 | over any interleaving of requests, bitmap writes and resets the deltas since the last reset add up to the total, the number of pairs in the virgin map |
| CoverageHook.MergedOnce | tools/prep/fuzzprep/instrumentor_gen.py:624-671 | a finished request merged exactly once, on the normal, short-circuited, partly failed and rethrown paths |
| CoverageHook.SeenIsTaken | tools/prep/fuzzprep/instrumentor_gen.py:501-671 | over any interleaving the virgin map holds exactly the pairs shown by the bitmaps merged since the last reset, and the total counts them |
| CoverageHook.Paths | tools/prep/fuzzprep/instrumentor_gen.py:624-671 | a request that fails in a way to report merges before its answer, or at the end if the response cannot be cleared; any other merges at the end |
| CoverageHook.StepKeepsInv | tools/prep/fuzzprep/instrumentor_gen.py:501-671 | one event keeps the invariant |
| CoverageHook.CoverageRuntime.MergeAndCountNovel | tools/prep/fuzzprep/instrumentor_gen.py:501-534 | the merge loop: the virgin map takes exactly the pairs the bitmap shows, and the total counts those it holds |
| CoverageHook.CoverageRuntime.Reset | tools/prep/fuzzprep/instrumentor_gen.py:577-586 | clears virgin map and total, and zeroes the bitmap where it is mapped |
| CoverageBuckets.BuildCountClass | src/void/internal/engine/coverage.go:32-58 | the table gives every byte its bucket, in figures |
| CoverageBuckets.ObservedIs | src/void/internal/engine/coverage.go:32-58 | a byte shows one pair: 1, 2 and 3 for themselves, then 4-7, 8-15, 16-31, 32-127 and 128 up; 0 shows none |
| CoverageBuckets.ScanMeans | src/void/internal/engine/coverage.go:339-397 | scanning adds exactly the pairs shown and counts exactly the new ones |
| CoverageBuckets.SkipZeros | src/void/internal/engine/coverage.go:362-383 | a zero word changes nothing |
| CoverageBuckets.ScanInto | src/void/internal/engine/coverage.go:362-395 | the word-skipping loop with its tail equals the byte-by-byte scan |
| CoverageBuckets.PairsBound | src/void/internal/engine/coverage.go:30-58 | at most eight pairs a byte |
| ShmCoverageReader.SHMCoverageReader.GetEdges | src/void/internal/engine/coverage.go:339-397 | edges is the number of distinct pairs in all snapshots since the reset; a snapshot of another length starts over |
| ShmCoverageReader.SHMCoverageReader.Reset | src/void/internal/engine/coverage.go:399-415 | the file is zeroed and the count starts over, or a failed write leaves map and count as they were |
| ShmCoverageReader.OrderDoesNotMatter | src/void/internal/engine/coverage.go:339-397 | snapshots count alike in any order and number |
| ShmCoverageReader.RescanAddsNothing | src/void/internal/engine/coverage.go:339-397 | the same snapshot again adds nothing |
| ShmCoverageReader.CountGrowsWithin | src/void/internal/engine/coverage.go:339-397 | the count never falls and is at most eight a byte |
| ConstraintWalker.ExactClosure | tools/dotnet/analyzer/ConstraintWalker.cs:106-133 | cycles, diamonds, any order: a type holds a name if and only if it or a type it reaches declares it |
| ConstraintWalker.InheritsAlong | tools/dotnet/analyzer/ConstraintWalker.cs:106-133 | along any chain of base-type names that resolve, the first type has every name the last one declares |
| ConstraintWalker.InheritedFrom | tools/dotnet/analyzer/ConstraintWalker.cs:106-133 | for whatever a type has, such a chain leads to a type that declares it so |
| ConstraintWalker.MergeAll | tools/dotnet/analyzer/ConstraintWalker.cs:106-113 | the closing loop: own declarations stay, every entry was declared by a reachable type, and every type is complete |
| ConstraintWalker.MergeBaseProperties | tools/dotnet/analyzer/ConstraintWalker.cs:118-133 | the recursion with its shared visited set ends, covering all it newly saw |
| ConstraintWalker.MergeOne | tools/dotnet/analyzer/ConstraintWalker.cs:120-132 | one base |
| ConstraintWalker.CopyMissing | tools/dotnet/analyzer/ConstraintWalker.cs:125-131 | takes over what is lacking and replaces nothing |
| ConstraintWalker.TakenOverSound | tools/dotnet/analyzer/ConstraintWalker.cs:125-131 | what is taken over was declared by something reachable |
| ConstraintWalker.MergedIsComplete | tools/dotnet/analyzer/ConstraintWalker.cs:106-133 | a walk from one type leaves nothing reachable out |
| TypeResolver.Resolve | tools/dotnet/analyzer/TypeResolver.cs:17-30 | the scan computes the edge function of the graph |
| TypeResolver.ResolvedIs | tools/dotnet/analyzer/TypeResolver.cs:17-30 | a name that is no full name is resolved if and only if some type bears it: to the last one in the preferred namespace, else to the first |
| TypeResolver.StripGenericIs | tools/dotnet/analyzer/TypeResolver.cs:11-15 | generic arguments, question marks behind the name and white space around it are cut off |
| CampaignParser.ParsePrintedText | tools/campaign/parser.py:112-225 | text of printed lines parses to the same document: splitting, stripping and refusals included |
| CampaignParser.ParsePrinted | tools/campaign/parser.py:157-225 | the same from lines, whatever the indentation steps, keys without a value included |
| CampaignParser.ParsePrintedList | tools/campaign/parser.py:157-200 | a document that is one sequence likewise |
| CampaignParser.ExampleParses | tools/campaign/parser.py:157-225 | an example: a name, a list of two steps and a key without a value |
| CampaignParser.BlockRead | tools/campaign/parser.py:164-173 | a printed block in any context |
| CampaignParser.MappingRead | tools/campaign/parser.py:203-225 | a printed mapping, from any entry on |
| CampaignParser.SequenceRead | tools/campaign/parser.py:176-200 | a printed sequence |
| CampaignParser.EntryRead | tools/campaign/parser.py:206-224 | one entry |
| CampaignParser.EveryLineOnce | tools/campaign/parser.py:112-225 | a document that parses has at most one item or entry a line, and exactly one if and only if no key is repeated |
| CampaignParser.AcceptedIsLaidOut | tools/campaign/parser.py:157-225 | whatever parses: every line is an entry or a scalar item, and none is deeper than the line before unless that is a key without a value |
| CampaignParser.PutKnown | tools/campaign/parser.py:203-225 | a repeated key keeps its place and takes its latest value |
| CampaignParser.EntryShape | tools/campaign/parser.py:37 | an entry is text up to the first colon that neither is empty nor starts with white space, and the rest less one white space |
| CampaignParser.RunSimpleYaml | tools/campaign/parser.py:112-161 | the whole parse, from text to value |
| CampaignParser.RunBlock | tools/campaign/parser.py:164-173 | the mutual recursion ends and computes the specified parse; a success moves on and stays within the lines |
| CampaignParser.RunSequence | tools/campaign/parser.py:176-200 | the sequence loop |
| CampaignParser.RunMapping | tools/campaign/parser.py:203-225 | the mapping loop |
| CampaignLines.StripComment | tools/campaign/parser.py:40-53 | cuts at the first # outside quotes |
| CampaignLines.CommentFound | tools/campaign/parser.py:40-53 | a # behind text without quotes starts a comment |
| CampaignLines.QuotedIsSkipped | tools/campaign/parser.py:40-53 | a quoted text is passed over, whatever is in the quotes, and only the same quote ends it |
| CampaignLines.UnclosedQuote | tools/campaign/parser.py:40-53 | one that is not closed hides everything behind it |
| CampaignLines.ReadLineIs | tools/campaign/parser.py:130-152 | a raw line is refused if and only if it is indented by a tab or what is left without comment is a document mark, has an anchor, a brace, or a bracket outside a list; otherwise it comes to its indentation and its text, or to nothing |
| CampaignLines.CollectLines | tools/campaign/parser.py:128-152 | the loop over raw lines: the first refusal ends it |
| CampaignLines.PlainLineSurvives | tools/campaign/parser.py:130-152 | a trimmed line without special characters is read as it is |
| CampaignLines.SplitJoin | tools/campaign/parser.py:128 | splitting undoes joining for lines without separators |
| CampaignLines.SplitFirst | tools/campaign/parser.py:128 | a break ends a line, a carriage return with a line feed is one |
| CampaignLines.StripIs | tools/campaign/parser.py:133-152 | stripping takes the white space off both ends and nothing else |
| RaceTracker.VerdictsAreSound | src/void/internal/engine/race.go:28-75 | whatever is evicted, a burst is judged at most once, and a verdict counts exactly its 2xx results, all of which came in |
| RaceTracker.CompleteIsJudged | src/void/internal/engine/race.go:28-75 | a complete burst that was never dropped has been judged |
| RaceTracker.FewBurstsAreKept | src/void/internal/engine/race.go:22-90 | with at most 2048 bursts in a run none is dropped and none judged is forgotten |
| RaceTracker.FewBurstsAreJudged | src/void/internal/engine/race.go:22-75 | so every complete burst has been judged once, any other not at all |
| RaceTracker.InProgress | src/void/internal/engine/race.go:28-44 | successes <= results seen < size |
| RaceTracker.MapsStayWithinCap | src/void/internal/engine/race.go:22-90 | the tracking maps stay within 2048 after each call |
| RaceTracker.BurstAlwaysOk | src/void/internal/engine/race.go:28-75 | the invariant of one burst over every run |
| RaceTracker.Fuzzer.RecordRaceBurstResult | src/void/internal/engine/race.go:28-75 | the call does what the state machine does for some possible choice of victims |
| RaceTracker.Fuzzer.EvictOldestRaceBurstIfOverCap | src/void/internal/engine/race.go:81-90 | drops one burst from both maps, over the cap only |
| RaceTracker.Fuzzer.Evaluate | src/void/internal/engine/race.go:46-75 | closes the burst and reports more than one success |

## Findings

Properties that the code does not have, each with an input and with the condition under which it holds.

| what fails | input | when it holds |
|---|---|---|
| building a self-referential schema conforms | `BodyConformance.CycleNeverConforms`: any cycle of declared properties and item schemas, at the site (`BodyMutate.NestingRebuildBreaks`) or anywhere below the root (`BodyMutate.BuiltOverCircle`) | `BodyConformance.BuiltConformsIff`, exact at the depth cap too |
| a fresh array has a conforming length | `BodyFigures.BuiltLength`: minItems above five, maxItems 0, bounds out of order | `BodyBuild.ArrayFits` |
| the violating constraint value violates | `BodyAdversarial.ViolatingConforms`: only a pattern, or a zero minimum length | `BodyAdversarial.ViolationBreaks` |
| an array resized out of its bounds violates them | `BodyAdversarial.ResizeOutBreaks`: only an upper bound and no item schema, so nothing changes | `BodyAdversarial.CanResizeOut` |
| a value of another type violates the schema | `BodyAdversarial.AdversarialBreaksIff`: a scalar type the schema language does not know | the type is known, or the number substituted is out of range |
| an undeclared key violates the schema | `BodyAdversarial.UndeclaredBreaks`: extra properties allowed | extras forbidden |
| the tag of another branch violates a oneOf | `BodyAdversarial.SwitchedTagMissed`: two open object branches tagged A and B | `BodyAdversarial.SwitchTagMismatch`: it is retagged at all and the next node refuses it; `BodyAdversarial.SwitchBetweenObjects` reads that off the two nodes |
| layers wrapped around a value violate the schema | `BodyAdversarial.NestingMissed`: extra properties allowed, none required | `BodyAdversarial.WrappedConforms` |
| a minimized chain crashes by itself | `ChainMinimizer.StaleStateMisleads`: the target remembers an earlier replay | `ChainMinimizer.ResultReproduces`: replays come out as they would alone; `ChainMinimizer.StartingOverIsMinimal`: the target starts over after the final step |
| every cycle of a schema is found | `SelfReference.LongRingMissed`: a ring of fourteen nodes | `SelfReference.SearchIsExact`: at most thirteen nodes can be reached |
| default and edge values conform | `BodyBuild.DefaultLeafConforms`, `BodyMutate.EdgeConforms`: fractional bounds on an integer, enum on a number, bounds out of order | `BodyBuild.DefaultFits`, `BodyMutate.EdgeFits` |
| a discriminator tag finds its variant | `SchemaCompiler.DroppedVariantShifts`: an earlier variant resolves to nothing | `SchemaCompiler.TagsIndexVariants`: every variant up to it compiles |
| every recorded operand reaches the queue | `OperandQueue.EvictedValueLost`, `OperandQueue.ZeroIsLost`: recorded between eviction and removal | `OperandQueue.LostIff`: no thread is about to forget the value |
| every executed comparison site is logged | `CmpLogSimulation.JumpedSiteIsNotLogged`: a branch straight to the call | sites entered by falling through |

## Left out

- Path labels on values, nil pointers inside value trees, and invalid UTF-8: texts are code points; schema lengths count UTF-8 bytes.
- `ToForm` and `ToMultipart`: which pairs and parts they list; of their texts only what they start with is used. The minimizer's target answers on JSON text in the heap model, and on any function of the tree in the theorems about trees.
- Minimizing query, path, form and plain JSON parts, which run before or after the tree.
- Random weights of operators and seeds: every choice is free instead.
- HTTP, files, shared-memory plumbing, reports and the user interface.
- `body_bind.go`: leaf values are an argument; `LeavesFit` is what is asked of them.
- Pattern and UniqueItems of schemas.
- A discriminator over a branch that is itself oneOf/anyOf: covered by `Buildable`, not by the node-wise rules.
- Rounding of 64-bit floats: numbers are finite decimals, without NaN, infinities and negative zero; a number text outside section 6 of RFC 8259 counts as 0.
- Negative length bounds, on which the original panics, are not representable.
- `allOf` merging and `$ref` resolution are arguments of `SchemaCompiler`; the node for additional properties is ignored.
- Which calls are string comparisons, and which instructions an exception handler starts or ends at: both are given with the body.
- Exception regions beyond skipping boundary sites, prefix opcodes, macro expansion, address-taken locals; recorders return normally.
- Attribute extraction, enum tables and `FluentValidationWalker`: only the inheritance merge is modelled.
- Scalar coercion of campaign files is an argument; inline lists reach it as text. After `&` and `*` only ASCII letters, digits and `_` count as word characters.
- Severity, class and action strings of race findings.
- Reads of the class total while a merge runs: request headers may show a later total.
- Decimals.FormatFloatMeans: for exact decimals; rounding to 64 bits and the shortest form of a rounded value are not modelled.
- BodyMinimizeProofs.MinimizerIsLocallyMinimal: for targets that are deterministic and monotone under deletion; without that the result is only what MinimizerIsSafe says.
- ChainMinimizer.MinimizerIsLocallyMinimal: for passes whose replays tell what the chains do and outcomes that adding steps does not undo; without that the result is only what MinimizerIsSafe says.
- SelfReference.SearchIsExact: beyond thirteen reachable nodes what is found depends on the order in which maps are walked, and only HitMeansCycle is left.
