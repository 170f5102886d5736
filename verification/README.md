# Morphic's `ir`, `compile` and cache algorithms, verified

Morphic compiles API descriptions to an intermediate representation. Its `ir`
package, its interning registry and its compile cache rest on algorithms whose
claims are about every value graph, every type registry, every run of calls. This
project restates those algorithms in Dafny, keeps their branches, constants and
error cases, and proves the claims.

`dafny verify dfyconfig.toml` checks the whole project.

## What is modelled

| files | what |
|---|---|
| `Values`, `Walk`, `WalkReach`, `WalkTrace` | the reflection walk one traversal shares among its visitors: each visitor's log is the log of a walk of its own, and that log is told of the values alone |
| `Clone` | the deep copy of a node: an isomorphic graph on new references |
| `EntryStack` | the stack of map entries, whose storage nested frames reuse |
| `Graphs`, `Trails`, `Components` | reachability, the order a depth-first walk reads in, and the invariants of the iterative strongly-connected-components walk |
| `Registry`, `Exposure`, `Members`, `Flatten`, `FlattenLaws` | alias chains, composition, and flattening a model's properties over that walk |
| `Composition` | the plain and the step-budgeted searches flattening is compared with |
| `Services`, `Slices`, `EditTree` | an edit's lazily rebuilt service tree, over slices in memory, against the eager edit it stands for |
| `Sequences`, `Numbers` | the orders, sorting and cutting the others share |
| `DeclaredIDs`, `Editing` | the copy-on-write edit of the types, and the comparison of declared IDs that keeps it from adding one |
| `Decimals`, `DecimalText`, `BigVals` | exact decimals over `real`: scanner, saturating exponent, order, spelling |
| `Naming`, `Hints` | the naming grammar and the hints composed in it |
| `Interning`, `Settlements` | the interning registry, its rounds of promises, and the settlements taken after them |
| `PathLog`, `References` | the delta-compressed path log, and resolving references in one pass |
| `CacheKeys`, `CacheEntries`, `CacheRuns`, `CacheDir` | the compile cache: keys, seals, transparent hits, and the bound on the directory |

Code that updates fields in place is a class whose methods are proved against a
specification; what is promised is then proved of the specification. A visitor is a
function of what it was shown so far, and a compile a function of what its reads
returned so far, which is every deterministic one. The Unicode tables are functions
held to `Naming.Lawful`: lowering keeps letters, digits and marks and is idempotent, a
lower-case rune is a letter, and neither the underscore nor the error rune is a word
rune. A hash is any function that does not collide on the byte strings a run hashed
(`CacheKeys.CollisionFree`). References, the slices of services, the types under edit
and entry storage live in maps or sequences keyed by address, so sharing and
overwriting are explicit.

Three results go beyond or against what the source's comments say:

- An entry naming the empty ID composes nothing, yet `ExposedProps` follows it to a type
  held there. `FlattenLaws.EmptyIDExposesMore` gives a registry whose flattening lacks a
  property exposed; `HoldsWhatIsExposed` says which properties those are, and
  `HoldsExactlyWhen` of which registries there are none.
- A compile is refused nothing exactly when its plan is legitimate
  (`Interning.Compile`), for which an injective derivation is not enough: a build may
  return nil (`Interning.NilBuildIsNotLegit`), or mint a node in a coordinate's space
  (`Interning.SharedSpaceIsNotLegit`).
- A replacement may declare an ID the entry does not, its own, where the entry is nil or
  holds a node off its key: `Editing.ReplacementMayAddItsOwn` gives the inputs, and
  `ReplacementAddsNone` says it is only there. Over a run the same holds of the document's
  entry (`Editing.EditTypes`).

## Model

| member | source | states |
|---|---|---|
| `Walk.WalkValues` | ir/walk.go:79-121 | for any graph and any list of visitors, 64 to a traversal, each visitor's log of visits and cycle calls is the log of a walk of its own, and the walk is truncated exactly when some lone walk is |
| `Walk.WalkGroup` | ir/walk.go:107-121 | one shared traversal shows each visitor what it would see alone |
| `Walk.ValueWalk.Walk` | ir/walk.go:319-334 | a value is shown to the active visitors and entered for those that ask, each visitor's state moving as its lone walk's |
| `Walk.ValueWalk.Show` | ir/walk.go:319-334 | each active visitor gets the value and path, and just those that ask go on |
| `Walk.ValueWalk.Children` | ir/walk.go:373-393 | descending by kind moves every active visitor's state as its lone descent does, and no other's |
| `Walk.ValueWalk.FieldsOf` | ir/walk.go:373-393 | a struct's fields are stepped into in order, each at its own path |
| `Walk.ValueWalk.PointerTo` | ir/walk.go:404-419 | a pointer is entered for just the visitors that have not entered it, and is a cycle where the walk is inside it |
| `Walk.ValueWalk.ClosesCycle` | ir/walk.go:438-452 | a reference met again is reported to the active visitors that hear of cycles, with the path it was entered at |
| `Walk.ValueWalk.Sequence` | ir/walk.go:462-484 | a slice or array is walked element by element, guarded against containing itself, bytes skipped |
| `Walk.ValueWalk.Mapping` | ir/walk.go:487-512 | a map's keys and values are walked in rendered-key order, guarded likewise |
| `WalkReach.ShowsWhatRootReaches` | ir/walk.go:68-78 | a walk whose visitor asks by value shows only values the root reaches through values it asks about, and all of them unless the cap cut it |
| `WalkTrace.WalkIsRead` | ir/walk.go:319-334 | a visitor's lone walk, whatever its state, comes to the root and to each value held by one it went into, and to nothing else; in field, element and entry order, a value before what it holds; it asks of each as it comes, goes not again into a reference it is inside nor into a pointer an earlier value took it to, tells of each what is to be told, and is cut exactly where the cap keeps it from something held |
| `WalkTrace.WalkIsOne` | ir/walk.go:319-334 | those conditions, put on ways through the values and not on the walk's code, hold of one sequence of visits alone, calls, paths and all |
| `WalkTrace.ShownIsThere` | ir/walk.go:319-358 | a value shown is where its path leads from the root, pointers and interfaces adding no step |
| `WalkTrace.CycleIsThere` | ir/walk.go:421-452 | of a cycle told, both paths lead to a reference with its key, the path it was entered at being where the way to the other first passed one, and a prefix of that other |
| `WalkTrace.CycleIsTold` | ir/walk.go:404-452 | a visitor that hears cycles and asks by the value alone is told one right after each reference shown that it asks about, that holds something, and that the way there passed already, entered where it was first passed; after one not passed none is told |
| `WalkTrace.SelfPointerIsCycle` | ir/walk.go:404-452 | a struct whose field points back to it is walked as three values shown and the cycle the third closes, entered at the root |
| `Clone.CloneNode` | ir/clone.go:8-28 | a copy has the source's paths, shapes, map keys and sharing, on references none of which the heap held, the heap otherwise as it was; what an interface or array holds is shared as it is; there is none exactly of a node the cap cuts as its references are first met: only of one with a path past the cap that enters no reference twice, and never of one with a reference no path within the cap leads to |
| `Clone.Cloner.Fill` | ir/clone.go:50-70 | a value's copy is it with each reference renamed to its copy, every reference met since finished |
| `Clone.Cloner.CopyReference` | ir/clone.go:74-152 | a reference's copy is recorded before it is filled, and is complete when the call returns uncut |
| `Clone.Cloner.Each` | ir/clone.go:90-152 | elements, fields and map values are copied in order one step deeper, those holding no reference assigned as they are |
| `Clone.PathMirrors` | ir/clone.go:13-16 | a path through no interface or array leads through the copy exactly where it led through the source, map keys and all, to the copy of what it led to |
| `Clone.SharedPath` | ir/clone.go:42-70 | a path through an interface or array leads to the very value it led to in the source |
| `Clone.SharingMirrors` | ir/clone.go:13-16 | two paths end in one reference of the copy exactly when they ended in one of the source, and none that enters no interface or array ends in a reference of the source |
| `EntryStack.EntryStack.Push` | ir/entries.go:45-70 | a map's entries go on top, in rendered-key order, and every frame below still reads what its map held |
| `EntryStack.EntryStack.Pop` | ir/entries.go:72-79 | popping the top frame frees its cells and leaves the frames below reading what they did |
| `EntryStack.EntryStack.Entry` | ir/entries.go:36-53 | the k-th entry of a live frame is its map's k-th by rendered key, whatever was pushed and popped above it |
| `EntryStack.EntryStack.Reserve` | ir/entries.go:121-133 | cells are claimed past those of every live frame of the type, outgrown storage left to the frames that read it |
| `EntryStack.SortOrders` | ir/entries.go:48-53 | a frame's items are a permutation of its map's, ordered by rendered key |
| `EntryStack.OrderIsFixed` | ir/entries.go:48-53 | whatever order a map is ranged in, its entries are stacked in one, no two keys rendering alike |
| `Sequences.TextByCharacter` | ir/entries.go:48-53 | text comes before other text that goes on from it, or whose character is the greater where they first differ |
| `Components.FollowSound` | ir/flatten.go:211-232 | following an entry to a node met keeps the walk's invariants: low-links, and the order nodes are done in |
| `Components.MeetSound` | ir/flatten.go:164-171 | meeting a node keeps the walk's invariants, the order nodes are done in among them |
| `Components.FinishSound` | ir/flatten.go:174-183 | finishing a node that leads back keeps the walk's invariants, the order nodes are done in among them |
| `Components.CloseSound` | ir/flatten.go:139-161 | reading a whole component off the stack keeps the walk's invariants, the order nodes are done in among them |
| `Components.DoneInLayoutOrder` | ir/flatten.go:122-161 | a walk that is done read what the root reaches, each once, a component's nodes together and a node after all it leads to outside its component; a node stands before each that only later entries lead to, inside a component too, and what every way to leads through a node before that node |
| `Registry.AliasStandsForBase` | ir/composition.go:68-82 | an alias stands for the model its base stands for |
| `Registry.ResolvedModel` | ir/composition.go:80-98 | where a chain of aliases resolves decides the model, wherever on a cycle it stops |
| `Exposure.ExposedModels` | ir/composition.go:183-248 | the models a root reaches with aliases as nodes are those composition reaches with aliases read through, and, just where one of those has an entry naming the empty ID, those a type there reaches |
| `Exposure.ComposesStep` | ir/flatten.go:189-232 | one model composes another exactly when its base, a type it implements or a mixin, named by no empty ID, stands for it |
| `Exposure.LeadsStep` | ir/composition.go:186-248 | the registry's references are what a model names in its base, what it implements and its mixins, and an alias's base |
| `Members.FlatteningHoldsAll` | ir/flatten.go:269-334 | the members taken and the ones overridden are the declarations read, no more and no fewer |
| `Members.LastOwner` | ir/flatten.go:299-334 | the member taken for a wire name is the last of its declarations in the order read |
| `Flatten.FlattenedProperties` | ir/flatten.go:60-161 | a flattening holds each model read, in layout order from the root's model, earlier entries' models before those only later ones lead to; it lists the targets naming none, and takes at most 1 + S + 2E + M + P + R steps |
| `Flatten.Flattener.Resolve` | ir/flatten.go:238-267 | a chain read through the memo ends where the plain chain does, at a cost of one step and one for each alias first read |
| `Flatten.Flattener.Chase` | ir/flatten.go:238-267 | the chain walked marks each alias on it once and stops at its end or at a cycle |
| `Flatten.Flattener.ParentAt` | ir/flatten.go:211-232 | an entry's model is met anew, or lowers the low-link when unread, or is noted as unflattened |
| `Flatten.EntryAt` | ir/flatten.go:189-205 | a model's i-th composition entry is its base, then what it implements, then its mixins, which `Exposure.PlacesInOrder` says of the three lists |
| `Exposure.PlacesInOrder` | ir/flatten.go:189-205 | over the three lists of a model: the base is entry 0, what is implemented follows in order, and the mixins follow that in order; no entry stands elsewhere |
| `FlattenLaws.Flattened` | ir/flatten.go:51-161 | the shape of a root is flattened over an order of the models its composition reaches, within the step bound; what the root exposes is what it holds, and what a type at the empty ID exposes where a model read names that ID |
| `FlattenLaws.InOrder` | ir/flatten.go:122-161 | the models the exposure search reaches are exactly those read, and those past an empty ID that an entry read names |
| `FlattenLaws.HoldsWhatIsExposed` | ir/composition.go:150-167 | a property is exposed by a root exactly when its flattening holds it, or a model read has an entry naming the empty ID and the type there exposes it |
| `FlattenLaws.HoldsWhatIsComposed` | ir/flatten.go:122-161 | a flattening holds just the properties that the models its root's model composes declare |
| `FlattenLaws.HoldsExactlyWhen` | ir/composition.go:150-167 | a flattening holds just what its root exposes if and only if no model composed names the empty ID in an entry, or the models composed declare every property the type there exposes, which is read off the registry alone |
| `FlattenLaws.EmptyIDExposesMore` | ir/composition.go:183-248 | in a registry with a type at the empty ID that a root's entry names, the root exposes a property that no flattening of it holds |
| `FlattenLaws.SiblingsInOrder` | ir/flatten.go:51-60 | the model an entry composes is read before any that no entry up to that one leads to and every way goes through the entry's model: base before implemented, implemented before mixins, each list in order; where the first leads back, when the other leads to it and it is met inside as well |
| `FlattenLaws.InsideFirst` | ir/flatten.go:122-161 | a model that every way from the root leads to through another is read before that other, in one component too |
| `FlattenLaws.RootIsLast` | ir/flatten.go:51-60 | the root's own model is read last |
| `FlattenLaws.LastReadTakes` | ir/flatten.go:269-334 | no member takes a declaration of its name that another model read later declares |
| `FlattenLaws.LaterSiblingTakes` | ir/flatten.go:51-60 | of a root's entries that lead to declarations of one name the later one's is taken: the model an earlier entry composes takes no member that one only later entries lead to declares |
| `FlattenLaws.ComposerOverrides` | ir/flatten.go:35-60 | the member taken is never one a strictly composing model redeclares |
| `FlattenLaws.MembersByName` | ir/flatten.go:269-334 | members stand in the order their wire names are first read, one to each name |
| `FlattenLaws.RequiredWhen` | ir/flatten.go:318-334 | a member is required just when some declaration of its name is or some model read requires the name |
| `Composition.AliasTarget` | ir/composition.go:80-98 | reading an alias chain within a budget ends where the unlimited reading does when the budget pays, and otherwise spends it all |
| `Composition.ChainStopResolves` | ir/composition.go:80-98 | the chain stops at its end, or at an alias of the cycle when there is none |
| `Composition.SupertypesWithin` | ir/composition.go:24-58 | the supertypes of a type, each read through its aliases, when the budget pays for reading all; `Composition.SupertypesByEntry` says which, in what order |
| `Composition.SupertypesByEntry` | ir/composition.go:11-58 | a model's supertypes are where the chain of its base stops, then that of each type it implements, in order |
| `Composition.SuperStep` | ir/composition.go:11-58 | one type is a supertype of another exactly when that is a model whose base, or a type it implements, has a chain that stops at it, and it is not unset; a mixin is none |
| `Composition.MixinsAreNoSupertypes` | ir/composition.go:11-20 | a model with no base that implements nothing is a subtype of nothing, whatever it mixes in |
| `Composition.MixinsChangeNoSubtype` | ir/composition.go:11-20 | what any model mixes in changes no answer about subtypes |
| `Composition.SearchDecides` | ir/composition.go:120-148 | the search for a base finds it exactly when something queued leads to it |
| `Composition.IsSubtypeWithin` | ir/composition.go:113-148 | an answer just when the limit pays for the whole search, with the search's own answer and step count: reachability by one or more supertype steps |
| `Composition.IsSubtype` | ir/composition.go:100-111 | the subtype relation is one or more supertype steps, on cyclic hierarchies too |
| `Composition.HuntFinds` | ir/composition.go:186-216 | the exposure walk finds exactly what its root exposes |
| `Composition.ExposesWithin` | ir/composition.go:169-183 | an answer just when the limit pays, and then whether the root exposes the property |
| `Composition.ExposedProps` | ir/composition.go:150-167 | the properties a root exposes, through composition and alias scalars alike |
| `Services.UpdateChangesOne` | ir/edit_tree.go:18-37 | an update taken keeps every node's ID in its place, and what every node but one holds of its own |
| `Services.RemoveDropsIt` | ir/edit_tree.go:53-59 | a removal leaves no node at the ID, and declares none more often than before |
| `EditTree.ServiceTree.Value` | ir/edit_tree.go:6-16 | a read gives, as it stands in memory, the node the eager edit holds at an ID when it holds just one there; it changes nothing held, writes no array, and allocates nothing where no write was taken |
| `EditTree.ServiceTree.Update` | ir/edit_tree.go:18-37 | after an update the tree shows what the eager update leaves, refused at an ID held by none or several, every array as it was |
| `EditTree.ServiceTree.Remove` | ir/edit_tree.go:53-59 | after a removal the tree shows what the eager removal leaves |
| `EditTree.ServiceTree.Settle` | ir/edit_tree_nodes.go:160-164 | settling hands over exactly the services the edit holds, every array as it was; each slice no write reached is the document's own, and one a write reached keeps those in it alike |
| `EditTree.EditServices` | ir/edit_tree_nodes.go:8-16 | over every sequence of reads, updates and removals each read, and the services handed over at the end, are those of the eager edit; no array of the document is written, and at the end every read still spells what it did; a slice with no node under it at an ID written is the document's own, at every depth, and where no write was taken nothing is allocated |
| `Slices.SpellsAllStill` | ir/edit_tree_nodes.go:8-16 | what a slice shows, at every depth, stays while no array is written |
| `EditTree.ServiceTree.Index` | ir/edit_tree_nodes.go:72-115 | reading the tree off the services, no deeper than the cap, shows them as they are |
| `EditTree.ServiceTree.IndexNode` | ir/edit_tree_nodes.go:85-115 | a node, then its operations, then its groups are recorded in that order, each list showing its slice |
| `EditTree.ServiceTree.Find` | ir/edit_tree_nodes.go:117-141 | the nodes found at an ID and not inside a removed one are as many as the services show there, and the one found is the one shown |
| `EditTree.ServiceTree.Touch` | ir/edit_tree_nodes.go:144-151 | the lists on the path to a node go stale, and no list off it |
| `EditTree.PathIsTouched` | ir/edit_tree_nodes.go:144-151 | a list a write makes stale has a node under it at the ID written |
| `EditTree.ServiceTree.ValueOf` | ir/edit_tree_nodes.go:167-193 | building what is stale in a node gives what the edit holds there, and changes what no node shows |
| `EditTree.ServiceTree.Built` | ir/edit_tree_nodes.go:195-210 | a list built anew drops the removed nodes and shows the rest in order, in an array of its own, or nil for none |
| `EditTree.BuiltKeeps` | ir/edit_tree_nodes.go:195-210 | an array built of what the nodes of a list hold keeps each slice its elements kept, those gone aside |
| `EditTree.FitsWritten` | ir/edit_tree_nodes.go:8-16 | after a write and its touch every list is stale or still shows its nodes |
| `EditTree.ShowRewritten` | ir/edit_tree_nodes.go:8-16 | writing one node changes what the whole tree shows as the eager change does |
| `EditTree.ShowDropped` | ir/edit_tree_nodes.go:153-158 | removing one node changes what the whole tree shows as the eager removal does |
| `EditTree.LiveIsHeld` | ir/edit_tree_nodes.go:117-141 | walking down past removed nodes finds exactly the nodes no ancestor of which is removed |
| `DeclaredIDs.Scan` | ir/edit_ids.go:52-102 | a scan lists each ID a node declares as often as it declares it |
| `DeclaredIDs.Excess` | ir/edit_ids.go:131-158 | the least ID declared more often than before, with both counts, and nothing exactly when the one multiset is within the other |
| `DeclaredIDs.Merge` | ir/edit_ids.go:142-157 | one pass over two ordered lists decides multiset inclusion and finds the least excess |
| `Editing.Editor.Update` | ir/edit_types.go:20-40 | an update is taken exactly when the edit is open, the node at its own key, and its change writes nothing else, keeps the ID and declares none more often; the entry is then the copy, and otherwise nothing changes; what is refused is its own cause, after whatever its change's calls were refused for |
| `Editing.Editor.Updated` | ir/edit.go:82-120 | a change is taken exactly when it intrudes nowhere, moves nothing and adds no ID, and one not taken is refused for the first of those, the least ID in excess named with both counts |
| `Editing.Editor.Apply` | ir/edit.go:122-145 | while a change runs every write and ending it makes is refused, remembered and reported, in order, whatever it calls |
| `Editing.Editor.Replace` | ir/edit_types.go:51-93 | a replacement is taken exactly when the edit holds its ID, it is not the document's own node, and it declares no ID the replaced node does not, its own aside; one taken is refused nothing, one not taken its cause |
| `Editing.ReplacementAddsNone` | ir/edit_types.go:75-93 | a replacement taken declares no ID more often than the entry it replaces if and only if that entry holds a node at its own key, or the ID is empty |
| `Editing.ReplacementMayAddItsOwn` | ir/edit_types.go:75-93 | a node may replace a nil entry, or one off its key, and so declare an ID the entry does not: its own |
| `Editing.TypeDeclaresItself` | ir/typedef.go:59-66 | a type declares its own ID once, and no other type's, however its parts are nested |
| `Editing.Editor.Remove` | ir/edit_registries.go:159-169 | a removal takes the entry away; it is refused, for its cause alone, after the end, inside a change and where no entry is |
| `Editing.Editor.End` | ir/edit.go:147-169 | ending an edit puts the document's node back just where a taken node has moved off its key, once, and returns what was unreported, in order, then a refusal for exactly each ID put back; a later call returns what came since; inside a change it ends nothing and returns what is unreported, its own refusal last, to be reported again |
| `Editing.UpdateReportsNothing` | ir/edit_types.go:20-40 | an update outside a change is refused nothing exactly when it is taken |
| `Editing.ReplaceReportsNothing` | ir/edit_types.go:51-93 | a replacement outside a change is refused nothing exactly when it is taken |
| `Editing.NothingRefusedInside` | ir/edit.go:122-145 | a change is refused nothing on the way exactly when none of its calls writes or ends the edit |
| `Editing.MovedReportHas` | ir/edit_types.go:102-122 | the end refuses exactly the IDs whose taken node is off its key |
| `Editing.FlatIsEmpty` | ir/edit.go:147-169 | nothing is reported exactly when each call was refused nothing |
| `Editing.Editor.RefuseMoved` | ir/edit_types.go:102-122 | each entry is as it was, or the document's own where the taken node is off its key; just those are refused, in ID order |
| `Editing.PutBackIsAtKey` | ir/edit_types.go:102-122 | no node the edit took is off its key once it ends |
| `Editing.Editor.Run` | ir/edit.go:17-26 | whatever a caller does the edit adds no key; each call's refusals are its own, told one after the other and none lost; at a key where no node it took was altered, the node held is at its key and declares no ID more often than the document's, but its own exactly where the document's is nil or off its key; once the edit has ended, and unless a node is altered after that, each node it took is at its key |
| `Editing.EditTypes` | ir/edit.go:147-169 | whatever calls an edit gets, it returns the refusals of each in order, and nothing exactly when every call and the ending were refused nothing; what it hands over has no key the document lacks; unless a node is altered after the edit ended, no type is off its key but the document's own; at a key where no node the edit took was altered, a type declares no ID more often than the document's, but its own exactly where the document's is nil or off its key |
| `Decimals.ScanDecimal` | ir/decimal.go:124-158 | the scanner reads what the specified scan does |
| `Decimals.ScanIsGrammar` | ir/decimal.go:66-95 | the scan accepts a literal exactly when the grammar spells it, with its parts |
| `Decimals.ExponentValue` | ir/decimal.go:171-202 | the exponent is exact up to the saturation bound and saturates past it, no sum overflowing; which number it is `Decimals.ReadsAsWritten` says |
| `Decimals.ReadsAsWritten` | ir/decimal.go:124-202 | any literal put together of a sign, digits, a point, digits, and an exponent with its letter, sign and digits is read as such: the number its digits spell, times the power of ten the exponent's digits spell, taken down only by a minus sign, less one for each digit past the point; negative only by a minus sign in front |
| `Decimals.PlusSaysNothing` | ir/decimal.go:171-202 | a plus sign before an exponent's digits says nothing: whatever stands before, what is read or refused is the same without |
| `Decimals.LeadExponent` | ir/decimal.go:204-228 | the leading digit's power, computed without overflow for literals under 10^18 characters |
| `Decimals.SaturationHarmless` | ir/decimal.go:171-228 | saturating never changes the verdict: in range exactly when the exact power is, with the right side reported |
| `Decimals.ParseDecimal` | ir/decimal.go:96-120 | a literal is read as its decimal, refused when it is no number or its power of ten is out of range, with no sum overflowing under 10^18 characters |
| `Decimals.ParsedValue` | ir/decimal.go:96-120 | a literal read denotes the number it spells, in canonical form |
| `Decimals.CmpIsNumeric` | ir/decimal.go:254-272 | comparing decimals is comparing the numbers they denote |
| `Decimals.EqualIsValue` | ir/decimal.go:65-95 | two canonical decimals are equal exactly when they denote one number |
| `Decimals.RangeIsByValue` | ir/decimal.go:204-240 | a literal is refused exactly when its magnitude lies outside the range, and its sign and smallness are the number's |
| `Decimals.ByValueAlone` | ir/decimal.go:96-106 | two literals of one value are accepted or refused together, and read alike only when they are |
| `DecimalText.IsIntIsWhole` | ir/decimal.go:274-280 | the integrality test holds exactly of whole numbers |
| `DecimalText.RefusedIntegrality` | ir/decimal.go:56-63 | a refused literal's reported integrality is its number's |
| `DecimalText.TextRoundTrips` | ir/decimal.go:289-309 | a decimal's text reads back to the same decimal |
| `BigVals.NewBigVal` | ir/bigval.go:22-43 | a number is accepted and spelled as specified |
| `BigVals.FormIsSpelling` | ir/bigval.go:45-54 | the test that skips the rewrite holds exactly when the rewrite would change nothing |
| `BigVals.WrittenAsJson` | ir/bigval.go:55-73 | what is kept is in the grammar of section 6 of RFC 8259 |
| `BigVals.BigValKeepsValue` | ir/bigval.go:22-43 | what is kept denotes the number given, and keeping it again changes nothing |
| `BigVals.AcceptedExactly` | ir/bigval.go:22-43 | accepted exactly: a literal of the grammar whose number is in range |
| `Naming.SourceWords` | ir/naming.go:146-190 | a name is cut into its words |
| `Naming.WordsAreCut` | ir/naming.go:146-221 | the words are the word runes of a name in the order they stand, none lost, and a word begins exactly where no word rune stands before or the two are cut: a rune that carries case after a lower-case letter or a digit, the second of two capitals before a lower-case letter where either carries case, and between a letter and a digit |
| `Naming.CanonicalWords` | ir/naming.go:64-105 | the canonical form joins the words, lowered |
| `Naming.HasCanonicalWords` | ir/naming.go:107-125 | the comparison that builds nothing says exactly whether words is the canonical form of name |
| `Naming.CanonicalIsFixed` | ir/naming.go:50-64 | canonicalising a canonical form changes nothing, and its words are the name's, lowered |
| `Naming.CanonicalKeepsRunes` | ir/naming.go:64-105 | no word rune is lost or added but for case, and only a name without any has an empty form |
| `Hints.HintNeutral` | compilers/compile/naming.go:81-95 | a neutral hint is neutral, and a neutral spelling is kept as it is |
| `Hints.JoinNeutral` | compilers/compile/naming.go:57-80 | joining two neutral names by an underscore is neutral |
| `Hints.SubHintNeutral` | compilers/compile/naming.go:57-72 | a hint made from a parent and a suffix is neutral |
| `Hints.SubHints` | compilers/compile/naming.go:73-80 | a hint composed at once is the hint composed step by step |
| `Hints.NamingNames` | compilers/compile/naming.go:35-56 | a naming keeps the source's spelling beside the canonical form of it, or, where the source declares no name, stands on a neutral hint |
| `Interning.Compile` | compilers/compile/types.go:66-85 | whatever order the roots come in and whichever are promised, nothing is refused exactly when the plan is legitimate, and then the registry is the determined one, with inverse maps over exactly the coordinates reached |
| `Interning.DeterminedOnce` | compilers/compile/types.go:14-17 | a plan determines one registry, so no order of interning shows in it |
| `Interning.NilBuildIsNotLegit` | compilers/compile/types.go:165-172 | whatever the derivation, a build that returns nil makes a plan refused |
| `Interning.SharedSpaceIsNotLegit` | compilers/compile/types.go:120-141 | whatever the derivation, a node minted in the space of a coordinate makes a plan refused |
| `Interning.Types.Intern` | compilers/compile/types.go:143-176 | interning ends on cyclic schemas, gives the derived ID, and refuses nothing of a legitimate plan |
| `Interning.Types.Claim` | compilers/compile/types.go:99-141 | a coordinate is claimed, refused exactly when another owns its ID or minted nodes its space |
| `Interning.Types.Finished` | compilers/compile/types.go:165-176 | a build's node is stored at rest, and a nil one drops the claim and is refused |
| `Interning.Types.Register` | compilers/compile/types.go:178-209 | a minted node is added just where its ID held none, the held one standing otherwise; the refusals are just those of no ID, a nil node, a space of coordinates, and another node at the ID |
| `Interning.Types.NodeAt` | compilers/compile/types.go:217-231 | a coordinate has a node exactly when it is interned and at rest, and it is its own |
| `Interning.Types.Building` | compilers/compile/types.go:239-253 | an ID is building exactly when its coordinate's build has not returned |
| `Interning.Types.Promise` | compilers/compile/promise.go:14-36 | a coordinate is queued once; it is refused, nothing changing, exactly when it comes late or has no build |
| `Interning.Types.Fulfil` | compilers/compile/promise.go:38-67 | rounds end with every promised coordinate interned, or something refused |
| `Interning.TypeIDNamesBoth` | compilers/compile/ids.go:67-134 | an ID names its space, and two paths share one exactly when a leading separator alone tells them apart |
| `Settlements.Settling.Queue` | compilers/compile/settle.go:26-50 | a settlement is queued by its kind, refused when nil or late |
| `Settlements.Settling.Settle` | compilers/compile/settle.go:51-77 | every settlement is taken once, those completing a node before those deferred whenever queued, each kind in order |
| `Settlements.Settling.Take` | compilers/compile/settle.go:64-75 | a settlement is refused for its count exactly when its rewrites changed how many nodes there are |
| `Settlements.CountIsAccounted` | compilers/compile/settle.go:51-58 | the registry's count moves by what a settlement registered and what its rewrites added or removed |
| `Settlements.KeepingIsAccounted` | compilers/compile/settle.go:13-24 | a settlement whose rewrites keep the IDs removes no node and is never refused for its count |
| `Settlements.SwapIsAccounted` | compilers/compile/settle.go:51-58 | whatever the registry, a rewrite that swaps one node for another keeps the count, so nothing is refused for it, though an ID is gone |
| `PathLog.SharedSteps` | ir/pathlog.go:73-82 | no longer prefix is shared |
| `PathLog.Log.Record` | ir/pathlog.go:34-47 | a path is kept as the steps past the longest prefix it shares with the one before |
| `PathLog.Log.All` | ir/pathlog.go:54-71 | replaying gives exactly the paths recorded, in order |
| `PathLog.Replay` | ir/pathlog.go:54-71 | any paths recorded from an empty log and replayed come back as they were |
| `References.IDReferences.Visited` | ir/references.go:79-138 | one pass keeps just what it met unresolved, and every declaration met |
| `References.IDReferences.Unresolved` | ir/references.go:140-167 | the references reported are those of the two-pass definition: in no map and declared nowhere in the whole walk, in walk order with their paths |
| `References.MetIsEnough` | ir/references.go:79-86 | sifting what was met unresolved is sifting the whole walk |
| `References.UnresolvedIn` | ir/references.go:140-167 | from new, one pass over any walk reports exactly what dangles in the whole of it |
| `References.DanglingHas` | ir/references.go:140-167 | a reference is reported exactly when a visit of the walk makes it and no map and no declaration resolves it |
| `References.ReportedWhen` | ir/references.go:79-167 | a reference is reported exactly when the walk shows its text at that path, its class refers, and its ID is no key of the class's map, or, for a class without one, the walk was not cut short and no node of it declares the ID |
| `References.CutShortIsSilent` | ir/references.go:140-167 | of a walk cut short only what a map lacks is reported |
| `CacheKeys.UvarintReadsBack` | engine/cache/key.go:16-27 | a length is read off the front of what follows it in one way |
| `CacheKeys.FrameIsInjective` | engine/cache/key.go:16-27 | two lists of fields frame alike only by being equal |
| `CacheKeys.KeyOf` | engine/cache/key.go:16-27 | a key is the hash of its fields' frames |
| `CacheKeys.FieldsAreInjective` | engine/cachekey.go:47-58 | two runs have one list of fields exactly when their inputs are equal |
| `CacheKeys.KeysAreInjective` | engine/cachekey.go:17-58 | two runs share a key exactly when their inputs are the same, the hash not colliding |
| `CacheKeys.DeriveKey` | engine/cachekey.go:47-58 | the passes go after their count and the settings last, in order |
| `CacheKeys.BytesByNumber` | engine/cachekey.go:47-58 | byte strings are ordered by the number of the byte where they first differ, a prefix first |
| `CacheEntries.OpensToWhatWasSealed` | engine/cacheentry.go:43-77 | an entry opens under its key to what was sealed |
| `CacheEntries.OpensOnlyIntact` | engine/cacheentry.go:33-41 | bytes under a sound entry's seal open only under its key and only unchanged |
| `CacheEntries.DamagedSealIsRefused` | engine/cacheentry.go:64-70 | a damaged seal is refused |
| `CacheEntries.CutShortIsRefused` | engine/cacheentry.go:64-70 | an entry cut short anywhere is refused |
| `CacheRuns.Recorder.Note` | engine/cachereads.go:56-69 | a recording is sound exactly while every read returned and repeats agreed |
| `CacheRuns.Recorder.Settled` | engine/cachereads.go:71-86 | a sound recording lists every read once, by location, then container, then limit, with the hash of what it got, and nothing else |
| `CacheRuns.ListingIsOne` | engine/cachereads.go:71-86 | reads have one such list, whatever order they were noted in |
| `CacheRuns.ReadsUnchanged` | engine/cachereads.go:23-34 | the reads, made again in order until one fails, stand exactly when each returns and hashes as listed |
| `CacheRuns.RecordingVouches` | engine/cachereads.go:36-49 | where every read a sound recording lists is made again and stands, its result is what the compile produces of the new replies, however documents moved while it was made |
| `CacheRuns.CompileCached` | engine/cache.go:73-106 | a run is answered exactly when the store holds an entry under its key that answers, and compiled and kept, when its reads were steady, otherwise; while documents change, and unless hashes collide or an entry was forged, the result is what compiling produces of replies the run got |
| `CacheRuns.HitIsRight` | engine/cache.go:108-128 | an entry that answers a run was kept by a run of the same inputs and spec, and its result is what the compile produces of the replies just got |
| `CacheRuns.NextIsAnswered` | engine/cache.go:147-165 | what a run kept answers the next run of its inputs, with its result, while what it read stands still |
| `CacheRuns.ExplainsStill` | engine/cache.go:39-44 | where documents stand still, what compiling produces of replies got is the one result of compiling |
| `CacheRuns.Serve` | engine/cache.go:21-27 | over every sequence of runs, with entries lost, damaged and handed back for the wrong key between them, every result is what compiling produces of replies its run got |
| `CacheRuns.Fetch` | engine/cache.go:108-128 | an entry answers if and only if it opens, each read it lists stands, and its document decodes; the answer is that document |
| `CacheDir.RecordReadsBack` | engine/cache/ledger.go:23-36 | a record reads back to the size stored |
| `CacheDir.TallyDue` | engine/cache/ledger.go:58-76 | a prune is due unless the ledger is whole records, few enough, adding up to an eighth of the limit at most |
| `CacheDir.Prune` | engine/cache/prune.go:37-61 | the files removed are the shortest run of the unused longest that makes the rest fit |
| `CacheDir.OldestGo` | engine/cache/prune.go:37-61 | a prune removes nothing of what fits, and otherwise only files used no later than any kept, ties in name order, the last of them one that would not fit beside the rest |
| `CacheDir.NewestStays` | engine/cache/prune.go:37-61 | a file every other comes before outlasts a prune |
| `CacheDir.Dir.Store` | engine/cache/dir.go:95-119 | whatever was stored before, the entries total at most the limit and an eighth, and at most the limit after a prune; a prune removes the shortest run of those unused longest; an entry newer than the rest is kept |
| `CacheDir.Dir.Load` | engine/cache/dir.go:70-93 | a load finds the one entry stored at a name and marks it used, changing no size |
| `CacheDir.MarkedAt` | engine/cache/dir.go:70-93 | a load sets the time of the entry at its name and nothing else of any entry |
| `CacheDir.LoadedStays` | engine/cache/dir.go:70-93 | an entry just loaded outlasts the prune that comes next |
| `CacheDir.Dir.Run` | engine/cache/dir.go:37-45 | over every run of stores and loads the bound holds |
| `CacheDir.Kept` | engine/cache/dir.go:37-45 | from an empty directory the entries of any run total at most the limit and an eighth, and none is past the limit alone |

## Left out

- Walk.WalkValues: the asks of a context and the stop it orders are not modelled, and a set of visitors is a set, not the bits of a word.
- Paths are kept as steps; how a step is spelled is modelled only where a log keeps it.
- Reflection: a value's kind, type and identity are given in the graph. Storage of size zero, where distinct references share one address, is not modelled, nor is a field that cannot be set.
- EntryStack.EntryStack.Push: a map behind an unexported field keeps entries of its own (`readable` false); how a key is rendered is given with the entry.
- Flatten.FlattenedProperties: a nil document or registry is the empty registry. Overridden members are kept by ID alone.
- Composition.IsSubtype: the unlimited form is the limited one at the largest integer, so its contract holds of searches that take fewer steps.
- EditTree.ServiceTree.Index: the services read are a finite tree, so a slice holding itself does not arise, while slices may be shared; a slice is an array of its own, not a part of one. Nodes are numbered rather than addressed, the depth a node is read at is kept in the proof alone, an array is allocated filled rather than filled as it is built, and a list is marked fresh as its slice is stored rather than just before its elements are read. Whether the cap was met only words a refusal.
- EditTree.ServiceTree.Update: what a change may do is `Editing.Editor.Updated`; here it is a function that may refuse.
- Editing.Editor.Run: the registries of servers, channels, messages and schemes hold values the same way, and the document's own fields are changed by one more such update; neither is modelled beside the types. A change that panics is not modelled. A type nesting past what an edit copies is marked so, `deep`, rather than measured. No part of a type declares a type's ID, since only `TypeCommon` has one and nothing a type holds embeds it.
- DeclaredIDs.Excess: sorting is a function; which algorithm sorts in place is not modelled. A class is its name.
- Decimals: characters stand for bytes, and literals of 10^18 characters and more are outside the bound on the sums.
- Naming.CanonicalWords: names are sequences of runes, so the decoding of UTF-8 is not modelled beyond its error rune.
- Interning.Compile: a build is the steps it takes and whether it returns nil; a promised build interns its own coordinate. Primitives, which claim neither ID nor space, are not modelled. Every derived ID has a space segment, as `compile.TypeID` gives it.
- Settlements.Settling.Take: a settlement is its rewrites and registrations in order; what a registration's namespace claims is `Interning.Types.Register`.
- Interning.Types.Fulfil: a round is taken in any order, of which the sorted one is one.
- References.IDReferences.Visited: the classes and maps of a document come as tables, and labels and nouns are not spelled.
- CacheRuns.CompileCached: documents change from one read of a run to the next, not within one. Errors of the store, which cost work and never a result, cancellation, the options that keep a run out of the cache, and how JSON spells a head or a document are not modelled.
- CacheDir.Dir.Store: one process, no faults, and no file but entries and the ledger: temporary files, foreign names and failing removals are not modelled.
- The OpenAPI compiler, readers and writers of files, the command line, validation passes and message wording are not part of this model.
