# A verified model of the plugin manager's core

This project models five parts of the repository and proves what they promise. Objects that the source
updates in place are classes with `modifies` clauses; code that only computes is functions; what a method
does is stated against a function or predicate whose own properties are lemmas. Nothing was executed.

**Manifests** (`src/core/manifest.cpp`). `ManifestModel` has the properties, methods and enums of a manifest
as objects. A `Universe` is the set of objects a manifest can reach, with the name each field denotes.
`DefinitionWalks` says, as a function of the manifest as written, which definitions its table gets;
`TypeTables` hoists inline definitions into that table, collapses duplicates onto one object and links names;
`PrototypeCycles` is the three-colour search over the linked graph; `ManifestResolution` puts the passes
together. `WrittenManifests` says what can be met in a manifest as it is written, what of it the table gets, and
when the manifest is accepted; `HiddenDefinitions` has three manifests in particular, and `RepeatedDefinitions` says
about the objects themselves what makes two definitions the same. `ManifestValidation` has
what consumers of a resolved manifest rely on, and the checks that run afterwards. `Digraph` and `Lexicographic` are the theories of graphs and of name order used there.

**Strings** (`include/plg/string.hpp`). `StringLayout` is the 24-byte little-endian representation of a string
of `char`, byte by byte. `StringMemory` has buffers that are handed out and handed back, and block moves.
`StringModel` has the editing operations in place and with a larger buffer, where the characters to insert may
be characters of the string itself.

**Vectors** (`include/plg/vector.hpp`, `split_buffer.hpp`, `uninitialized.hpp`). `VectorMemory` has memory slot
by slot: raw, holding an object, or holding an object whose value was moved away. Constructing needs a raw
slot, assigning and destroying need an object, moving from a slot needs a value, and a buffer can be handed
back only once, with its own size and no object left in it. `VectorModel` has the split buffer and the vector.

**Versions** (`include/plg/version.hpp`). `SemverLexer`, `SemverParser` and `SemverPrinter` have the lexer, the
cursor, the parser and the backward printer; `SemverGrammar` has the texts of items 2, 9 and 10 of Semantic
Versioning 2.0.0 independently of any parser, and `SemverAcceptance` connects the two. `SemverOrder` has the
comparison and item 11; `SemverRange`, `SemverLocality` and `SemverRangeParser` have ranges.

**The extension lifecycle** (`src/core/extension.cpp`, `stages_impl.hpp`, `pipeline.hpp`, `extension_loader.hpp`,
`failure_tracker.hpp`, `manager.cpp`). `Extensions` is one extension and its state machine, `ExtensionLoading`
the calls to language modules with a log of them and of the answers that matter, `ExtensionResolution` and
`StartupStages` the stages, `StartupRuns` what several stages in a row have done, `ManagerModel` the manager and
whole runs, `TransformRuns` the concurrent stage. What is found on disk and what the resolver answers are
parameters; what callbacks answer is arbitrary.

**The variant's tree** (`include/plg/variant.hpp`). `VariantTree` has the fold that builds the tree of unions and
the way an index takes through it.

`Blocks` has facts about sequences, `Decimals` about numerals, and `Wrappers` the optional and fallible values.

## Where the code differs from what one would expect

- Numbers of a version are read into 64 bits without a check for overflow, so that some texts with numbers
  of 2^64 and more are accepted and denote something else (`SemverAcceptance.NumberAccepted` says exactly
  which; `SemverAcceptance.TooLargeIsAccepted` is an instance). Every other result about versions covers
  these texts, too: `SemverPrinter.ParseThenPrint` says exactly when printing gives the text back.
- A difference of lengths is cast to `int`, so that two numeric identifiers may compare wrongly when their
  lengths differ by 2^31 or more (`SemverOrder.NumericDifferenceSign` says exactly when the sign is right;
  `SemverOrder.LongIdentifiersWrap` is an instance). Texts of at most n characters all compare as they should
  exactly if n is at most 2^31 + 6 (`SemverOrder.ShortTextsCompareRight`).
- A set of ranges is printed with spaces between the ranges, where the parser wants `||`, so it is read back
  as one range (`SemverRangeParser.SetPrintThenParse` says as which, and exactly when that is the set;
  `SemverRangeParser.ReadBackContains` says exactly what it holds).
- A range that excludes prereleases is no interval (`SemverRange.ExcludingIsNoInterval` is an instance;
  `SemverRange.ExcludingInBetween` says exactly which versions between two of its own it has).
- `vector::insert` of a range that can be read only once, when it fails because the vector would become too
  long, has destroyed the elements it put into the spare room, but leaves them counted in the size
  (`VectorModel.Vector.InsertWithSentinel` says exactly when the vector is still valid;
  `VectorModel.SentinelFailure` is an instance).
- The largest size of a string leaves no room for rounding its capacity up. With an allocator that can hand
  out 2^63 - 8 characters a string may get a capacity beyond the largest size, where the guard against
  growing too long underflows (`StringModel.BasicString.LimitKeepsCapacity` says for exactly which allocators
  that cannot happen; `StringModel.BasicString.FullBeyondLargestSize` is the instance).
- The comments on the two passes over a manifest (`src/core/manifest.cpp:292-294`, `421-423`) expect the table
  to have every definition. What a definition holds that repeats an earlier one is not walked, so a definition
  may be missed (`HiddenDefinitions.HiddenDefinition` is such a manifest). `WrittenManifests.Written.AllIffWalked`
  gives the exact condition on the manifest as written where definitions of an undeclared name hold the same
  names, and `AcceptedAsWritten` then says exactly what is accepted. Where they do not, the order of the methods
  decides (`HiddenDefinitions.ResolveInTurn` is a manifest that is accepted in one order and not in the other), and
  `AllIffNothingHidden` gives the exact condition for every choice of what is met first. In all manifests without
  a clash, `AllIffLinked` and `AllIffReferenced` say how a missed definition shows itself, and `SameFormsHaveAll`
  and `OpenlyHaveAll` are two simple ways to have everything.
- Two definitions of one name that differ are to be an error (`src/core/manifest.cpp:170-175`), but not if one of
  them is held by a definition that repeats an earlier one (`HiddenDefinitions.HiddenClash` is an instance;
  `WrittenManifests.Written.GatheredIffCompatible` says which ones are found).
- No plugin still refers to the module it was loaded with when that is shut down. But if two modules return
  the same language module, a plugin of the module further in front still holds the address when the other
  one is shut down (`ManagerModel.Manager.Terminate` logs for each shutdown whether that is so;
  `ManagerModel.HeldShutdowns` and `ManagerModel.AddressHeldInFront` say exactly when;
  `ManagerModel.SharedLanguageModule` is an instance).

## Model

| member | source | states |
|---|---|---|
| `ManifestModel.SamePropertyIsSameMeaning` | src/core/manifest.cpp:174-188 | Comparing two properties as they are in the heap gives the same verdict as comparing what they denote, in every phase, whether a field holds a name, a definition or nothing; what that compares is said by `RepeatedDefinitions.PropertiesSayTheSame` |
| `ManifestModel.SameDefinitionIsSameMeaning` | src/core/manifest.cpp:196-209 | The comparison of two prototypes holds exactly if they mean the same, where meaning is a function of constants only; so no pass can change its verdict |
| `RepeatedDefinitions.PropertiesSayTheSame` | src/core/manifest.cpp:174-188 | Two properties mean the same exactly if their types are equal, the flag is set in both or in neither, and their fields denote the same prototype and the same enum: by the name written there or by that of the definition written there |
| `RepeatedDefinitions.KnownIffSame` | src/core/manifest.cpp:196-251 | A prototype is taken for the one under its name exactly if function name, calling convention, variadic index and number of parameters agree, and parameter by parameter and for the return value the type, the flag and the names denoted; said about the objects themselves |
| `RepeatedDefinitions.DeclaredTwiceAgree` | src/core/manifest.cpp:221-251 | If a manifest is gathered, any two declared prototypes of one name agree in all of that |
| `RepeatedDefinitions.ConflictingParameters` | src/core/manifest.cpp:244-246 | A manifest that declares two prototypes of one name and function name with parameters of different types is refused for the conflict |
| `RepeatedDefinitions.LeadsOnTo` | src/core/manifest.cpp:363-381 | The prototypes that one can reach in a step, in the graph that must have no cycle, are those that a parameter or the return value denotes |
| `TypeTables.TypeTable.RegisterPrototype` | src/core/manifest.cpp:221-251 | A prototype is entered under a new name, or replaced by the object already there if that means the same; an error exactly for a nameless or clashing one, and then the table is unchanged |
| `TypeTables.TypeTable.RegisterEnum` | src/core/manifest.cpp:221-251 | The same for enums |
| `TypeTables.KnownPrototype` | src/core/manifest.cpp:244-250 | Collapsing a duplicate onto the table's object changes no denoted name and no meaning, and leaves every property alone that already held the table's own object |
| `TypeTables.KnownEnum` | src/core/manifest.cpp:244-250 | The same for enums |
| `TypeTables.HoistingPrototypeSound` | src/core/manifest.cpp:256-261 | After the prototype of a property is hoisted the field is null, a name or the table's object of that name; otherwise the definition that the field holds has no name, or clashes with the one that the table has |
| `TypeTables.HoistingEnumSound` | src/core/manifest.cpp:263-267 | The same for the enum of a property |
| `TypeTables.HoistingFixed` | src/core/manifest.cpp:244-250 | Hoisting what is already the table's own object changes nothing at all |
| `TypeTables.DescentShrinks` | src/core/manifest.cpp:253-273 | Each descent into an inline prototype uses up a name that was still free, which is why collecting ends |
| `TypeTables.CollectPostCompose` | src/core/manifest.cpp:278-290 | Two collecting steps in a row achieve what one over both lists does: the walk of the one continues where that of the other ended, and new prototypes are walked completely |
| `TypeTables.TypeTable.HoistPrototype` | src/core/manifest.cpp:257-261 | Does to the heap what hoisting a prototype is specified to do, to this property and table only |
| `TypeTables.TypeTable.HoistEnum` | src/core/manifest.cpp:263-267 | Does to the heap what hoisting an enum is specified to do, to this property and table only |
| `TypeTables.TypeTable.CollectProperty` | src/core/manifest.cpp:256-276 | Ends; succeeds with the table, or fails with the error, that walking the definitions as written gives; names and meanings stay; on success the property and every prototype newly entered hold only the table's objects; nothing happens to a property that is hoisted already |
| `TypeTables.TypeTable.CollectMethod` | src/core/manifest.cpp:278-290 | The same for all parameters and the return value of a method |
| `DefinitionWalks.WalkConcat` | src/core/manifest.cpp:253-290 | Which definitions a list of properties contributes to the table is decided property by property, in order, up to the first error |
| `DefinitionWalks.WalkAlike` | src/core/manifest.cpp:244-250 | Replacing definitions by the ones of the same name and meaning in the table changes neither the definitions nor the error that a walk ends with |
| `DefinitionWalks.WalkFrom` | src/core/manifest.cpp:221-276 | A walk enters only definitions that are declared or held by a field, and fails only if one of those has no name or two of one name do not mean the same |
| `DefinitionWalks.WalkRepresents` | src/core/manifest.cpp:253-276 | What a walk meets is in the table afterwards, by name and meaning, and so is what each new prototype holds |
| `DefinitionWalks.GatheredFrom` | src/core/manifest.cpp:398-436 | A manifest gathers only definitions that are declared, or that a method or another definition holds, and none that only a repetition of a declared prototype holds; the error, if any, is a nameless one or two that clash |
| `DefinitionWalks.CompatibleGathers` | src/core/manifest.cpp:398-436 | If these definitions are named, and those of one name mean the same, gathering succeeds |
| `DefinitionWalks.GatheredRepresents` | src/core/manifest.cpp:398-436 | Every declared definition, and every one that a method or a prototype of the table holds, is in the table by name and meaning |
| `DefinitionWalks.DistinctAreAllGathered` | src/core/manifest.cpp:421-436 | Where no name is used twice, the table has every definition that can be met |
| `DefinitionWalks.GatheredKeepsFirst` | src/core/manifest.cpp:236-250 | Of several declared prototypes of a name the table keeps the first |
| `DefinitionWalks.FirstHeldIsKept` | src/core/manifest.cpp:424-436 | Methods are walked in order, before declared prototypes: an undeclared prototype that the first parameter of the first method holds, or its return value if it has none, is the one that the table keeps |
| `WrittenManifests.Written.ReachedIsClosed` | src/core/manifest.cpp:253-290 | The definitions met in any number of steps from what is listed include whatever methods or they themselves hold |
| `WrittenManifests.Written.ReachedIsLeast` | src/core/manifest.cpp:253-290 | They are the least definitions of that kind, so nothing else is met |
| `WrittenManifests.Written.AllIffLinked` | src/core/manifest.cpp:421-436 | Definitions that are named and do not clash are gathered, and the table has all that can be met exactly if every name that a method or a prototype of the table holds, and that can be met, is linked |
| `WrittenManifests.Written.LinkedHasAll` | src/core/manifest.cpp:292-337 | So every manifest of which all names are linked has all definitions that can be met in its table |
| `WrittenManifests.Written.AllIffReferenced` | src/core/manifest.cpp:302-316 | If every name that is held can be met, a definition that is overlooked shows itself, and only so, by a name that is not found though it is defined |
| `WrittenManifests.Written.AcceptedIff` | src/core/manifest.cpp:395-455 | A manifest whose definitions do not clash is accepted exactly if the table has all that can be met, every name is that of one of them, and no prototype can reach itself by names |
| `WrittenManifests.Written.AllIffWalked` | src/core/manifest.cpp:269-273 | Where definitions of an undeclared name hold the same names, the table has all that can be met exactly if all of it can be met without passing through repetitions of declared prototypes |
| `WrittenManifests.Written.AcceptedAsWritten` | src/core/manifest.cpp:395-455 | For those manifests acceptance can be told from the manifest as it is written: what can be met with and without repetitions, the names held, and the graph of names |
| `WrittenManifests.Written.SameFormsHaveAll` | src/core/manifest.cpp:421-423 | If definitions of one name hold what is nested in the same form, inline or by name, the table has all that can be met |
| `WrittenManifests.Written.OpenlyHaveAll` | src/core/manifest.cpp:421-423 | If every name that is referred to is declared, or held by a method, the table has all that can be met |
| `WrittenManifests.Written.MissingIsHidden` | src/core/manifest.cpp:269-273 | What a table lacks is a set of names that nothing declares or lists and that every other name has a definition without |
| `WrittenManifests.Written.AllIffNothingHidden` | src/core/manifest.cpp:269-273 | Whichever of several definitions of a name is met first, the table has all that can be met, exactly if there is no such set of names; so without one the table has them all |
| `WrittenManifests.Written.GatheredIffCompatible` | src/core/manifest.cpp:221-251 | Nameless and clashing definitions are errors where they can be met without passing through repetitions; where definitions of an undeclared name agree on the definitions that they hold, gathering succeeds exactly if there are none |
| `TypeTables.LinkPrototypeStep` | src/core/manifest.cpp:302-315 | Linking one field keeps the name it denotes, or fails for a name that is not in the table |
| `TypeTables.LinkedToKeepsHoisted` | src/core/manifest.cpp:302-315 | Linking keeps every field that holds one of the table's objects as it is |
| `TypeTables.LinkPostCompose` | src/core/manifest.cpp:326-336 | What linking two groups of properties in a row achieves together |
| `TypeTables.TypeTable.LinkProperty` | src/core/manifest.cpp:319-324 | Only names change, each to the table's object of that name; on success none is left; a failure names a reference that the property itself held and the table does not have; nothing happens to a property without names |
| `TypeTables.TypeTable.LinkMethod` | src/core/manifest.cpp:318-337 | The same for all parameters and the return value of a method |
| `Digraph.WalkDescends` | src/core/manifest.cpp:339-343 | A ranking decreases along a walk by at least one for each step |
| `Digraph.RankedIsAcyclic` | src/core/manifest.cpp:339-391 | A graph with a ranking has no cycle |
| `Digraph.WalkBounded` | src/core/manifest.cpp:339-343 | In a ranked graph no walk is longer than the number of nodes, so recursion along edges ends |
| `PrototypeCycles.SettledGraphClosed` | src/core/manifest.cpp:363-368 | After both passes every edge of the prototype graph leads to a prototype of the table |
| `PrototypeCycles.CycleFound` | src/core/manifest.cpp:352-356 | Meeting a prototype that is on the stack exhibits a cycle through it |
| `PrototypeCycles.FinishNode` | src/core/manifest.cpp:376-381 | A prototype whose targets are all done can be ranked above them without disturbing the others |
| `PrototypeCycles.SearchEnd` | src/core/manifest.cpp:384-390 | When every prototype is done the ranks form a ranking of the whole graph |
| `PrototypeCycles.CycleDetector.Push` | src/core/manifest.cpp:349-361 | Marking a prototype on the stack keeps the search invariant, and one fewer is unvisited |
| `PrototypeCycles.CycleDetector.Finish` | src/core/manifest.cpp:376-381 | Marking a prototype done keeps the search invariant |
| `PrototypeCycles.CycleDetector.Visit` | src/core/manifest.cpp:348-382 | Ends; on success the prototype is done, the stack is as before and nothing that was done is undone; a failure names a prototype on a cycle |
| `PrototypeCycles.DetectCycles` | src/core/manifest.cpp:339-391 | Fails exactly if the prototype graph has a cycle; the error names a prototype on one; on success a ranking decreases along every edge |
| `Lexicographic.LessAtFirstDifference` | include/plg/version.hpp:224-226 | One name is less than another exactly if it ends, or has the lesser character, where they first differ |
| `Lexicographic.CompareTransitive` | src/core/manifest.cpp:469-471 | The order of names that the published tables are sorted by is transitive |
| `Lexicographic.SortedUnique` | src/core/manifest.cpp:457-473 | A sorted list of distinct names is determined by the names, so the published order does not depend on how the table was traversed |
| `Lexicographic.SortNames` | src/core/manifest.cpp:466-471 | Taking names from a table in any order and sorting them gives the one sorted list |
| `ManifestResolution.Publish` | src/core/manifest.cpp:459-473 | A list gets the entries of the table in name order; an empty table leaves it alone |
| `ManifestResolution.ListingIsDistinct` | src/core/manifest.cpp:457-473 | A published list has every entry of the table once, strictly increasing by name |
| `ManifestResolution.TableOfListing` | src/core/manifest.cpp:403-411 | Registering a published list gives the table that it was published from |
| `ManifestResolution.CollectedEvolves` | src/core/manifest.cpp:253-290 | Collecting changes a field only from one definition to another of the same name and meaning |
| `ManifestResolution.LinkedEvolves` | src/core/manifest.cpp:292-337 | Linking on top of that keeps every name that was denoted before both passes |
| `ManifestResolution.SettledGraph` | src/core/manifest.cpp:339-371 | The graph of objects that is searched for cycles is the graph of the names in the manifest as it was written, between prototypes only |
| `ManifestResolution.LinkPostError` | src/core/manifest.cpp:302-316 | A failure to link is explained by a name that a method or a prototype of the table held and that no gathered definition has, and then the manifest cannot be connected |
| `ManifestResolution.LinkPostReferenced` | src/core/manifest.cpp:302-316 | If linking succeeds every name that was held is defined |
| `ManifestResolution.CollectAll` | src/core/manifest.cpp:424-436 | Collecting from a list of methods hoists all their properties and walks all prototypes newly entered; the outcome is that of the walk over the definitions as written |
| `ManifestResolution.LinkAll` | src/core/manifest.cpp:439-445 | Linking a list of methods leaves no name in any of them, or fails for a name that one of them held and that has no definition |
| `ManifestResolution.LinkTable` | src/core/manifest.cpp:447-451 | The same for all prototypes of the table, in whatever order they are traversed |
| `ManifestResolution.LinkedAll` | src/core/manifest.cpp:438-451 | After both passes every property of a method or table entry holds a table object or null |
| `ManifestResolution.Manifest.RegisterPrototypes` | src/core/manifest.cpp:398-411 | Outcome and table are those of registering the declared prototypes in order; replaced entries of the list have the same name and meaning; distinct names register without an error |
| `ManifestResolution.Manifest.RegisterEnums` | src/core/manifest.cpp:413-419 | The same for the declared enums |
| `ManifestResolution.Manifest.Gather` | src/core/manifest.cpp:421-436 | Pass one: succeeds with the table, or fails with the error, that the walk over methods and declared prototypes gives; all methods hold only table objects and names afterwards; nothing changes when that was so before |
| `ManifestResolution.Manifest.Connect` | src/core/manifest.cpp:438-455 | Pass two and the cycle check: succeeds exactly if every name that a method or a prototype held is defined and no prototype reaches itself; a failure names such a name or such a prototype; nothing changes when all was linked before |
| `ManifestResolution.Manifest.PublishTables` | src/core/manifest.cpp:457-476 | Reading the published lists back gives the table; lists that are the listing already keep their value |
| `ManifestResolution.Manifest.Resolve` | src/core/manifest.cpp:395-479 | On every outcome each field denotes the name it denoted, and collapsed definitions mean what they meant; succeeds exactly if the manifest as it was written is `Accepted` (definitions can be gathered, every name held is defined and no prototype reaches itself by names), and then publishes the gathered table and leaves only table objects, no names, no cycle, sorted tables; an error is the one that gathering stops at, or names such a name or prototype; a second run changes nothing |
| `HiddenDefinitions.HiddenDefinition` | src/core/manifest.cpp:421-436 | A manifest without clashes, in which every name is that of a definition, that fails for a name: its definition can be met only through a repetition of a declared prototype; it is in none of the classes of manifests that have everything |
| `HiddenDefinitions.HiddenIsHidden` | src/core/manifest.cpp:269-273 | The name that it misses is a hidden set of names |
| `HiddenDefinitions.HiddenClash` | src/core/manifest.cpp:170-175 | A manifest that is accepted although two definitions of one name do not mean the same, one of them held by a repetition of a declared prototype |
| `HiddenDefinitions.OrderDecides` | src/core/manifest.cpp:424-430 | Of two methods that hold the same prototype, once with a nested one by name and once in full, the first one decides: the table has the nested one, and the manifest is accepted, exactly if the definition in full comes first |
| `HiddenDefinitions.ResolveInTurn` | src/core/manifest.cpp:395-479 | The two orders, resolved: the one fails for a name that is defined, the other one passes |
| `ManifestValidation.ReachedIsPublished` | src/core/manifest.cpp:224-337 | Every prototype reached from a method or prototype through any number of fields is published, and its fields are null or published objects |
| `ManifestValidation.PointerIsName` | src/core/manifest.cpp:218-223 | Across a resolved manifest two fields hold the same object exactly if they denote the same name |
| `ManifestValidation.SignatureWalkBounded` | src/core/manifest.cpp:339-343 | No walk through signatures is longer than the number of published prototypes and its start |
| `ManifestValidation.PublishedSorted` | src/core/manifest.cpp:457-476 | Published lists are strictly increasing by name and have no nameless entry |
| `ManifestValidation.NoNamesHeld` | src/core/manifest.cpp:80-88 | After a successful resolution no property that is validated holds a name |
| `ManifestValidation.ValidateResolved` | src/core/manifest.cpp:486-546 | Validating a resolved manifest never reports an unresolved reference |
| `ManifestValidation.Validate` | src/core/manifest.cpp:486-546 | Passes exactly if method, function, enum value, class and binding names are distinct where they must be and every signature and class is consistent; reports an unresolved reference only if a field holds a name |
| `ManifestValidation.ValidateMethods` | src/core/manifest.cpp:487-509 | Passes exactly if names and function names are distinct and every method is well formed; the error for a name that occurs twice names one that does |
| `ManifestValidation.ValidateEnum` | src/core/manifest.cpp:50-67 | Passes exactly if no two values have the same name; the error names one that occurs twice |
| `ManifestValidation.ValidateMethod` | src/core/manifest.cpp:98-131 | Passes exactly if the variadic index exists or means none, no parameter is void, no field holds a name and every function has a prototype; each error is reported only for what it says |
| `ManifestValidation.ValidateClass` | src/core/manifest.cpp:133-166 | Passes exactly if binding names are distinct and a class without handle has no constructor, destructor or bound self; each error is reported only for what it says |
| `StringLayout.WordOfBytes` | include/plg/string.hpp:780-795 | A number written as little-endian bytes is read back |
| `StringLayout.WordSplit` | include/plg/string.hpp:780-795 | A word is made of its low and its high bytes |
| `StringLayout.TopBit` | include/plg/string.hpp:791-794 | The form bit is the top bit of the last byte of the capacity word |
| `StringLayout.DecodeLong` | include/plg/string.hpp:780-795 | Size and capacity of the long form are read back as written, whatever the address is |
| `StringLayout.DecodeLongSize` | include/plg/string.hpp:2020-2022 | Writing the size of a long form changes neither the capacity nor the form |
| `StringLayout.DecodeShort` | include/plg/string.hpp:799-810 | Writing the spare size makes the form short, and at 23 characters that byte is the zero terminator |
| `StringLayout.RecommendSound` | include/plg/string.hpp:2200-2219 | The recommended capacity is enough, beyond the short form at most seven more than asked, one less than a multiple of eight, monotone, and recommended for itself |
| `StringMemory.ShrinkInPlace` | include/plg/string.hpp:3072-3075 | Moving the new characters and then the tail down gives the replaced content |
| `StringMemory.GrowInPlace` | include/plg/string.hpp:3088-3091 | Moving the tail up and then the new characters gives the replaced content |
| `StringMemory.SourceAfterTailMove` | include/plg/string.hpp:3077-3088 | Where the characters of a source in front of or behind the replaced part are after the tail has moved |
| `StringMemory.GrowFromInside` | include/plg/string.hpp:3077-3091 | A source that begins inside the replaced part, taken in two pieces around the move of the tail, arrives with its old value |
| `StringModel.BasicString.constructor` | include/plg/string.hpp:799-810 | A new string is empty, short and valid, for an allocator within the bound that `LimitKeepsCapacity` shows to be exact |
| `StringModel.BasicString.SetSize` | include/plg/string.hpp:2029-2035 | Changes the size and neither the form, nor the capacity, nor the address |
| `StringModel.BasicString.NullTerminateAt` | include/plg/string.hpp:2357-2368 | The string becomes the first n characters of its buffer, with a zero behind them |
| `StringModel.BasicString.ReplaceInternalBuffer` | include/plg/string.hpp:2092-2106 | The new buffer is in use, and a long buffer that was in use is handed back, whole and once |
| `StringModel.BasicString.WriteLong` | include/plg/string.hpp:2079-2106 | Size, capacity and form are read back, and the first eight bytes are the address of the buffer |
| `StringModel.BasicString.AllocateLongBuffer` | include/plg/string.hpp:2079-2090 | A buffer for the recommended capacity and a terminator, or none exactly if memory does not suffice |
| `StringModel.BasicString.LimitKeepsCapacity` | include/plg/string.hpp:1194-1215 | Every capacity that can be had is within the largest size exactly if no buffer longer than that and a terminator can be had |
| `StringModel.BasicString.FullBeyondLargestSize` | include/plg/string.hpp:2509-2516 | Beyond that bound the guard of growing, computed in 64 bits, lets a full string grow into a buffer that is too short |
| `StringModel.BasicString.GrownCapacity` | include/plg/string.hpp:2509-2516 | The capacity to grow to is enough, long, and within the largest size |
| `StringModel.BasicString.GrowsExactly` | include/plg/string.hpp:2509-2517 | A string that has to grow gets the least capacity that is one less than a multiple of eight, holds the characters and is at least doubled; it fails exactly beyond the largest size, or if there is no memory for that capacity and a terminator, which is always so from half the largest size on |
| `StringModel.BasicString.FullShortGrows` | include/plg/string.hpp:2509-2517 | A full short string of 23 characters that is given one more gets room for 47, and fails only if 48 bytes cannot be had |
| `StringModel.BasicString.AllocateGrown` | include/plg/string.hpp:2515-2519 | The buffer has that capacity and room for a terminator |
| `StringModel.BasicString.GrowByAndReplace` | include/plg/string.hpp:2499-2537 | Fails exactly beyond the largest size or memory, changing nothing; else the content is the replaced one in a new long buffer, with the source's old value, and the old buffer is handed back |
| `StringModel.BasicString.GrowByWithoutReplace` | include/plg/string.hpp:2539-2576 | The same with the inserted characters left open |
| `StringModel.BasicString.Replace` | include/plg/string.hpp:3045-3093 | The content becomes what was in front of pos, the source as it was before the call, and what was behind the replaced part, for a source anywhere in or outside the string; each failure exactly when it is due, changing nothing; the buffer afterwards is the old one or a new one, and exactly a former one is handed back; the capacity afterwards is the old one, with the old buffer, if that is enough, and otherwise exactly the one to grow to |
| `StringModel.BasicString.ReplaceInPlace` | include/plg/string.hpp:3065-3092 | The same within the buffer, keeping form and capacity |
| `StringModel.BasicString.TailThenMove` | include/plg/string.hpp:3077-3091 | Growing in place is right for a source in front of, straddling, inside or behind the replaced part |
| `StringModel.BasicString.FromInside` | include/plg/string.hpp:3080-3091 | The case of a source that begins inside the replaced part |
| `StringModel.BasicString.ReplaceFill` | include/plg/string.hpp:3095-3122 | Replaces a part by copies of one character, in place or in a larger buffer; the buffer afterwards is the old one or a new one, and exactly a former one is handed back; the capacity afterwards is the old one, with the old buffer, if that is enough, and otherwise exactly the one to grow to |
| `StringModel.BasicString.Insert` | include/plg/string.hpp:2909-2942 | Inserts the source as it was before the call, wherever in the string it lies; each failure exactly when it is due; the buffer afterwards is the old one or a new one, and exactly a former one is handed back; the capacity afterwards is the old one, with the old buffer, if that is enough, and otherwise exactly the one to grow to |
| `StringModel.BasicString.InsertBeforeTail` | include/plg/string.hpp:2929-2937 | A source behind or across pos is found where the tail has moved it, a source across pos included |
| `StringModel.BasicString.Append` | include/plg/string.hpp:2816-2838 | Appends the source, which may be the string itself; the buffer afterwards is the old one or a new one, and exactly a former one is handed back; the capacity afterwards is the old one, with the old buffer, if that is enough, and otherwise exactly the one to grow to |
| `StringModel.BasicString.Assign` | include/plg/string.hpp:2606-2622 | The content becomes the source, which may be a part of the string; the buffer afterwards is the old one or a new one, and exactly a former one is handed back; the capacity afterwards is the old one, with the old buffer, if that is enough, and otherwise exactly the one to grow to |
| `StringModel.BasicString.PushBack` | include/plg/string.hpp:2861-2888 | Appends a character; a full string gets the next recommended capacity and is long afterwards; the buffer afterwards is the old one or a new one, and exactly a former one is handed back; the capacity afterwards is the old one, with the old buffer, if that is enough, and otherwise exactly the one to grow to |
| `StringModel.BasicString.Erase` | include/plg/string.hpp:3147-3180 | Removes up to n characters from pos, or fails exactly if pos is beyond the end; the capacity stays |
| `StringModel.BasicString.Reserve` | include/plg/string.hpp:3233-3251 | The content stays; the capacity is the old one if that suffices, and otherwise the one to be recommended; each failure exactly when it is due |
| `StringModel.BasicString.ShrinkToFit` | include/plg/string.hpp:3253-3300 | The content stays, a string that fits is short afterwards, a long one gets the recommended capacity if that is smaller and there is memory; the buffer afterwards is the old one, none or a new one, and no other buffer stays allocated |
| `StringModel.BasicString.InitWithSentinel` | include/plg/string.hpp:2449-2467 | Filling a new string character by character succeeds exactly if memory suffices for each growth on the way; all buffers but the last are handed back, on a failure that one, too |
| `StringModel.BasicString.ReachesStep` | include/plg/string.hpp:2861-2888 | One step of that condition: a full string can go on exactly if it can grow, and from the capacity it then has |
| `StringModel.BasicString.AssignAndDestroy` | include/plg/string.hpp:2744-2749 | Assigning from another string of the same allocator and destroying that: the content is the other one's, and its buffer is handed back |
| `StringModel.BasicString.AssignWithSentinel` | include/plg/string.hpp:2744-2749 | Assigning characters that can be read only once: succeeds exactly if another string can be filled with them and this one can hold them; otherwise nothing changes; no buffer of the other string stays allocated |
| `VectorMemory.Relocate` | include/plg/uninitialized.hpp:111-156 | The objects arrive with their values, and every slot they came from is raw |
| `VectorMemory.DestroyRange` | include/plg/uninitialized.hpp:43-48 | Exactly the slots of the range become raw |
| `VectorMemory.MoveBackward` | include/plg/vector.hpp:1268 | Shifting objects up in place loses no value, although the ranges overlap |
| `VectorMemory.MoveForward` | include/plg/vector.hpp:1251 | Shifting objects down in place loses no value, although the ranges overlap |
| `VectorModel.FillsGap` | include/plg/vector.hpp:1355-1373 | Constructing the values that land beyond the end first, then opening the gap, then assigning the rest fills the gap with all of them |
| `VectorModel.GapFilledInserts` | include/plg/vector.hpp:1256-1386 | A filled gap is the sequence insertion, with all slots up to the new end live and the others raw |
| `VectorModel.RotationInserts` | include/plg/vector.hpp:1403-1404 | Rotating what was appended in front of the tail is the sequence insertion |
| `VectorModel.TailRelocated` | include/plg/vector.hpp:895-905 | Relocating the tail behind the objects of another buffer leaves both buffers with exactly their objects |
| `VectorModel.SplitBuffer.constructor` | include/plg/split_buffer.hpp:761-774 | A new buffer is raw, with the requested room in front |
| `VectorModel.SplitBuffer.EmplaceBack` | include/plg/split_buffer.hpp:880-897 | With room behind, an object is constructed there and nothing moves |
| `VectorModel.SplitBuffer.ConstructAtEnd` | include/plg/split_buffer.hpp:677-690 | Appends n copies in raw slots |
| `VectorModel.SplitBuffer.ConstructAtEndWithSize` | include/plg/split_buffer.hpp:723-731 | Appends the given values in raw slots |
| `VectorModel.SplitBuffer.ConstructAtEndWithSentinel` | include/plg/split_buffer.hpp:692-714 | Appends the given values, growing as often as needed; of all buffers only the last one stays allocated, the others are emptied and handed back |
| `VectorModel.SplitBuffer.Release` | include/plg/split_buffer.hpp:776-782 | All that is left is destroyed, and the memory is handed back with its own size |
| `VectorModel.Vector.Recommend` | include/plg/vector.hpp:932-946 | Fails exactly beyond the largest size; else the capacity suffices and is at most that |
| `VectorModel.Vector.SwapOut` | include/plg/vector.hpp:859-879 | The vector gets the other buffer with its own elements in front of those that were there; the old buffer is left without any object |
| `VectorModel.Vector.SwapOutAt` | include/plg/vector.hpp:881-920 | The vector gets the other buffer with what was there inserted at p; the old buffer is left without any object |
| `VectorModel.Vector.MoveRange` | include/plg/vector.hpp:1256-1269 | Opens a gap: elements that land beyond the end are constructed there, the others assigned, and the gap holds objects or is raw as the old end says |
| `VectorModel.Vector.OpenGap` | include/plg/vector.hpp:1364-1372 | The element that was passed is found, with its old value, at the place the code looks for it |
| `VectorModel.Vector.EmplaceBack` | include/plg/vector.hpp:1175-1226 | Appends the element as it was before the call; fails exactly when full and beyond the largest size; the buffer is the old one or a new one, and exactly a replaced one is handed back, once and without objects; the capacity stays if it is enough, and otherwise is doubled, or what is needed, or from half the largest size on the largest |
| `VectorModel.Vector.EmplaceBackSlowPath` | include/plg/vector.hpp:1175-1186 | The element is constructed in the larger buffer before the others move there, so it has its old value even if it is one of them |
| `VectorModel.Vector.InitWithSentinel` | include/plg/vector.hpp:595-606 | Filling a new vector value by value succeeds exactly if there are no more than the largest size; only the last buffer stays allocated, and none after a failure |
| `VectorModel.Vector.AssignWithSentinel` | include/plg/vector.hpp:1084-1098 | Assigning values that can be read only once gives exactly these, by assigning, then destroying or appending; if they are more than capacity and largest size allow, as many as these are kept |
| `VectorModel.Vector.Insert` | include/plg/vector.hpp:1271-1300 | Sequence insertion of the element's old value on every branch, even when the insertion moves it; lifetimes and buffers as for appending; the capacity stays if it is enough, and otherwise is doubled, or what is needed, or from half the largest size on the largest |
| `VectorModel.Vector.Emplace` | include/plg/vector.hpp:1325-1348 | Sequence insertion of a value made from an element, with the value that the element had before the call, even when the insertion moves it; the capacity stays if it is enough, and otherwise is doubled, or what is needed, or from half the largest size on the largest |
| `VectorModel.Vector.InsertCopies` | include/plg/vector.hpp:1350-1386 | The same for n copies; the capacity stays if it is enough, and otherwise is doubled, or what is needed, or from half the largest size on the largest |
| `VectorModel.Vector.InsertWithSize` | include/plg/vector.hpp:1439-1483 | The same for values of a forward range; the capacity stays if it is enough, and otherwise is doubled, or what is needed, or from half the largest size on the largest |
| `VectorModel.Vector.InsertWithSentinel` | include/plg/vector.hpp:1388-1437 | Sequence insertion of values that can be read once; on a failure the elements behind the old end are destroyed but still counted, so that the vector is valid exactly if there was no spare room; on every outcome all intermediate buffers are handed back |
| `VectorModel.SentinelFailure` | include/plg/vector.hpp:1388-1437 | An instance of that failure: a vector for one element with room for it, and two values |
| `VectorModel.Vector.Erase` | include/plg/vector.hpp:1242-1254 | Removes exactly the range; the slots behind the new end are raw |
| `VectorModel.Vector.Clear` | include/plg/vector.hpp:537-540 | Every element is destroyed |
| `VectorModel.Vector.Deallocate` | include/plg/vector.hpp:922-930 | Every element is destroyed, and the buffer is handed back once |
| `VectorModel.Vector.Reserve` | include/plg/vector.hpp:1144-1153 | Elements stay, the capacity is the larger of the old and the requested one; fails exactly beyond the largest size |
| `VectorModel.Vector.ShrinkToFit` | include/plg/vector.hpp:1155-1173 | Elements stay, and the capacity is the size |
| `VectorModel.Vector.Append` | include/plg/vector.hpp:1010-1020 | Appends n copies of the element's old value; the capacity stays if it is enough, and otherwise is doubled, or what is needed, or from half the largest size on the largest |
| `VectorModel.Vector.Resize` | include/plg/vector.hpp:1495-1504 | Keeps a prefix or appends copies, so that the size is the requested one; the capacity stays if it is enough, and otherwise is doubled, or what is needed, or from half the largest size on the largest |
| `SemverLexer.Lexer.ScanTokens` | include/plg/version.hpp:327-344 | The tokens of the text in order, and one end-of-line token, which is the last; or the first bad character |
| `SemverLexer.ScanFrom` | include/plg/version.hpp:331-394 | Every list of tokens ends with its only end-of-line token, whose place is the end of the text |
| `SemverLexer.TokenStream.AdvanceIfMatch` | include/plg/version.hpp:296-303 | The cursor never moves past the end-of-line token |
| `SemverParser.VersionParser.ParseNumber` | include/plg/version.hpp:513-539 | Reads the digits that are there and no more, a zero alone; the value is theirs in 64 bits; fails exactly without a digit or beyond the largest int |
| `SemverParser.VersionParser.IsLeadingZero` | include/plg/version.hpp:660-686 | True exactly for a zero that digits and nothing else of an identifier follow; the look-ahead stays within the tokens |
| `SemverParser.VersionParser.ParsePrereleaseIdentifier` | include/plg/version.hpp:583-620 | Reads the longest run of identifier characters; fails exactly for an empty one or a number with a leading zero |
| `SemverParser.VersionParser.ParseBuildIdentifier` | include/plg/version.hpp:633-658 | The same with leading zeros allowed |
| `SemverParser.VersionParser.ParsePrereleaseTag` | include/plg/version.hpp:541-561 | All identifiers with dots between them, joined and one by one |
| `SemverParser.VersionParser.ParseBuildMetadata` | include/plg/version.hpp:563-581 | All identifiers with dots between them, joined |
| `SemverParser.VersionParser.Parse` | include/plg/version.hpp:465-507 | The version that the tokens spell from the cursor on, or the first failure; on success the cursor is behind it and still within the tokens |
| `SemverParser.ParseVersion` | include/plg/version.hpp:730-748 | Accepts exactly the texts that `SemverAcceptance` describes, with the version they denote |
| `SemverGrammar.LetterIsListed` | include/plg/version.hpp:187-189 | The letters are the 52 characters of the grammar |
| `SemverGrammar.DigitIsListed` | include/plg/version.hpp:183-193 | The digits are the ten characters of the grammar, each with its place among them as its value |
| `SemverAcceptance.ScansPlain` | include/plg/version.hpp:350-394 | Texts of letters, digits, dots, hyphens and pluses have one token for each character |
| `SemverAcceptance.GrammarIsAccepted` | include/plg/version.hpp:730-748 | Every text of items 2, 9 and 10 is accepted, as what it denotes, exactly if its numbers fit; otherwise the error is that a number is out of range, at the last digit of the first one that is |
| `SemverAcceptance.AcceptedIsDenoted` | include/plg/version.hpp:730-748 | Every accepted text is of items 2, 9 and 10, its numbers fit, and the result is what it denotes |
| `SemverAcceptance.AcceptsExactlyTheGrammar` | include/plg/version.hpp:730-748 | The accepted texts are exactly those of items 2, 9 and 10 whose numbers fit |
| `SemverAcceptance.FitsBelow2To64` | include/plg/version.hpp:529-538 | Below 2^64 a number fits exactly if it is an int, and has its own value |
| `SemverAcceptance.NumberAccepted` | include/plg/version.hpp:529-538 | A number of any size is accepted exactly if its remainder by 2^64 is an int, and that is what it is read as |
| `SemverAcceptance.NumbersAccepted` | include/plg/version.hpp:462-489 | Three numbers of any size, and nothing else, are accepted exactly if the remainders by 2^64 are ints, and are read as these, in order |
| `SemverAcceptance.TooLargeIsAccepted` | include/plg/version.hpp:529-538 | 18446744073709551616.0.0 is read as 0.0.0 |
| `SemverPrinter.DigitCount` | include/plg/version.hpp:42-50 | The number of digits of the numeral of a number |
| `SemverPrinter.Length` | include/plg/version.hpp:112-116 | The number of characters of the text of a version |
| `SemverPrinter.WriteNumber` | include/plg/version.hpp:52-59 | Writes the numeral in front of what is there, and touches nothing behind it |
| `SemverPrinter.ToString` | include/plg/version.hpp:129-154 | The text of the version; writing from the back ends exactly at the start of the buffer |
| `SemverPrinter.PrintThenParse` | include/plg/version.hpp:129-154 | Whatever was parsed can be printed, and parsing the text gives the same version in all fields |
| `SemverPrinter.ParseThenPrint` | include/plg/version.hpp:129-154 | Printing what was parsed gives the text back, character by character, exactly if no number of it is 2^64 or more |
| `SemverOrder.CompareNumerically` | include/plg/version.hpp:228-244 | The difference of the lengths as an int, or else of the first digits that differ; its sign is the subject of the next rows |
| `SemverOrder.FirstDifferenceDecides` | include/plg/version.hpp:235-243 | Of two rows of digits of the same length, the first difference has the sign of the difference of the numbers |
| `SemverOrder.NumericDifferenceSign` | include/plg/version.hpp:228-244 | The comparison has the sign of the difference of the numbers exactly if the difference of the lengths keeps its sign as an int |
| `SemverOrder.LongIdentifiersWrap` | include/plg/version.hpp:231-233 | Two different numbers, 2^32 digits apart in length, compare equal |
| `Decimals.LongerIsGreater` | include/plg/version.hpp:229-233 | Without leading zeros the longer numeral denotes the greater number |
| `SemverOrder.ComparePrerelease` | include/plg/version.hpp:430-446 | For identifiers short enough, negative exactly if the one tag precedes the other by items 11.3 and 11.4, and zero exactly if they are equal |
| `SemverOrder.CompareParsed` | include/plg/version.hpp:706-728 | For versions with identifiers short enough, negative, positive or zero exactly as item 11 orders them; without prereleases, as the three numbers are ordered |
| `SemverOrder.IdentifierTrichotomy` | include/plg/version.hpp:448-457 | Of two different identifiers exactly one precedes the other by items 11.4.1 to 11.4.3 |
| `SemverOrder.FieldsDifferenceSign` | include/plg/version.hpp:436-445 | The comparison of two tags has the sign of their order by items 11.4 and 11.4.4, and is zero exactly if they are equal |
| `SemverOrder.PrecedesTrichotomy` | include/plg/version.hpp:706-728 | Of two versions exactly one precedes the other by item 11, or they agree in all but the build metadata |
| `SemverOrder.PrecedesTransitive` | include/plg/version.hpp:706-728 | Precedence by item 11 is transitive, on identifiers of any length |
| `SemverOrder.ComparesByPrecedence` | include/plg/version.hpp:706-728 | The comparison is negative, positive or zero exactly as item 11 orders the two versions, if their identifiers have at most 2^31 characters and are fewer than 2^31 |
| `SemverOrder.ExampleOfItem11` | include/plg/version.hpp:706-762 | The example of item 11: 1.0.0-alpha, 1.0.0-alpha.1, 1.0.0-alpha.beta, 1.0.0-beta, 1.0.0-beta.2, 1.0.0-beta.11, 1.0.0-rc.1 and 1.0.0 are accepted, and each compares lower than the next |
| `SemverOrder.AtMostTransitive` | include/plg/version.hpp:777-780 | The comparison operators are transitive, the strict one, too |
| `SemverOrder.AtMostTotal` | include/plg/version.hpp:777-780 | Any two versions compare, and both ways exactly if they have the same precedence |
| `SemverOrder.ParsedIsVersion` | include/plg/version.hpp:465-507 | Whatever is parsed is a version that item 11 orders, and one that compares right if its text has at most 2^31 + 6 characters |
| `SemverOrder.ShortTextsCompareRight` | include/plg/version.hpp:706-748 | All texts of at most n characters compare as item 11 orders them exactly if n is at most 2^31 + 6 |
| `SemverOrder.TooLongCompareWrong` | include/plg/version.hpp:231-233 | Two texts, one of 2^31 + 7 characters, that compare the wrong way around |
| `SemverOrder.SamePrecedenceSameTag` | include/plg/version.hpp:752-755 | Texts whose versions are equal have the same prerelease tag, character by character |
| `SemverRange.SatisfiesByPrecedence` | include/plg/version.hpp:806-822 | Each of the five operators asks for what it says, by the precedence of item 11 |
| `SemverRange.RangeContainsByPrecedence` | include/plg/version.hpp:853-898 | A range holds a version exactly if each comparator allows it by the precedence of item 11 and, with prereleases excluded, one names a prerelease of the same three numbers if the version is one |
| `SemverRange.AtItself` | include/plg/version.hpp:908-912 | A set of one comparator holds the version that it names exactly if the operator includes equality |
| `SemverRange.SatisfiedInBetween` | include/plg/version.hpp:808-822 | What satisfies a comparator has no gaps |
| `SemverRange.RangeIsInterval` | include/plg/version.hpp:853-863 | With prereleases included, a range holds all that lies between two versions it holds |
| `SemverRange.ExcludingInBetween` | include/plg/version.hpp:853-898 | With prereleases excluded, what lies between two versions of a range is in it exactly if it is no prerelease, or a comparator of the range names a prerelease of the same three numbers |
| `SemverRange.ExcludingIsNoInterval` | include/plg/version.hpp:888-898 | With prereleases excluded a range may have gaps |
| `SemverLocality.VersionLocal` | include/plg/version.hpp:465-507 | A version is read alike wherever its tokens are, as long as something that is not part of it follows |
| `SemverRangeParser.RangeParser.ParseRangeComparator` | include/plg/version.hpp:982-1000 | An operator, or equality if it is missing, and the version behind any spaces |
| `SemverRangeParser.RangeParser.ParseRange` | include/plg/version.hpp:966-980 | Comparators as long as an operator or a digit follows; the cursor stays within the tokens |
| `SemverRangeParser.RangeParser.Parse` | include/plg/version.hpp:942-961 | Ranges as long as an or follows; the cursor stays within the tokens |
| `SemverRangeParser.ParseRanges` | include/plg/version.hpp:1011-1020 | The ranges that the text begins with, or the first failure; what follows them does not matter |
| `SemverRangeParser.RangePrintThenParse` | include/plg/version.hpp:828-883 | The text of a range is read back as this range, with all operators and versions |
| `SemverRangeParser.BareVersionIsEqual` | include/plg/version.hpp:982-1000 | A version without an operator is read as the range that holds this version only |
| `SemverRangeParser.SetPrintThenParse` | include/plg/version.hpp:929-961 | The text of a set of ranges is read back as one range with all their comparators, which is the set exactly if it has one range |
| `SemverRangeParser.AlternativesPrintThenParse` | include/plg/version.hpp:942-980 | Every set of ranges that is written with an or between them is read back as it is |
| `SemverRangeParser.ReadBackContains` | include/plg/version.hpp:905-931 | The set that is read back from the text of a set holds exactly what all the ranges hold, and with prereleases excluded those that moreover are no prereleases or match one that some range names |
| `SemverRangeParser.TwoRangesBecomeOne` | include/plg/version.hpp:929-961 | The set of >=2.0.0 and <1.0.0 is printed as text that is read back as one range, which 0.5.0 does not satisfy, though the set has it |
| `Extensions.GoesOnByOne` | src/core/extension.cpp:435-505 | A valid transition that does not give up leads to the next state on the way, or from loading straight to running |
| `Extensions.GivesUp` | src/core/extension.cpp:435-505 | The states from which an extension can fail, be skipped, be disabled, turn out corrupted or stay unresolved are exactly these |
| `Extensions.HistoryRank` | src/core/extension.cpp:435-505 | A bound on the number of states behind an extension, given by the state it is in |
| `Extensions.HistoryIsBounded` | src/core/extension.cpp:435-505 | Valid transitions never repeat a state and lead through at most sixteen |
| `Extensions.LongestHistory` | src/core/extension.cpp:435-505 | The bound is reached by a plugin that goes all the way |
| `Extensions.Extension.SetState` | src/core/extension.cpp:338-341 | Needs a valid transition, appends it to the history and changes nothing else |
| `ExtensionLoading.ExtensionLoader.LoadModule` | src/core/extension_loader.hpp:112-140 | The language module that the assembly gives, if any, is initialized by one call; if the answer has methods the module gets that address and those methods, and otherwise it is unchanged |
| `ExtensionLoading.ExtensionLoader.LoadPlugin` | src/core/extension_loader.hpp:184-221 | A plugin gets the language module of its module, even if loading then fails, and is loaded by one call; it gets the methods of the answer exactly if that is valid; without a language module nothing is called or changed |
| `ExtensionLoading.ExtensionLoader.UnloadModule` | src/core/extension_loader.hpp:158-181 | Shutdown is called once, on the module's language module, which is then forgotten; the log says whether a plugin of the list still has the address; no extension may still refer to the module |
| `ExtensionLoading.ExtensionLoader.UnloadPlugin` | src/core/extension_loader.hpp:271-284 | The plugin refers to no module and has no methods any more |
| `ExtensionLoading.ExtensionLoader.EndPlugin` | src/core/extension_loader.hpp:239-253 | The plugin's end is called exactly if it has one, on its language module, which is there |
| `ExtensionLoading.ExtensionLoader.MethodExport` | src/core/extension_loader.hpp:286-300 | The export is called on the given module exactly if the plugin has one, and the answer is its outcome |
| `ExtensionLoading.ExtensionLoader.StartPlugin` | src/core/extension_loader.hpp:223-237 | The start is called on the plugin's language module exactly if the plugin has one, and the answer is its outcome |
| `StartupStages.Failures.HandleOperationFailure` | src/core/stages_impl.hpp:412-436 | The extension has failed, and it and the entries of the dependency graph for it are marked |
| `StartupStages.Failures.HandleDependencyFailure` | src/core/stages_impl.hpp:401-410 | The extension is skipped and marked |
| `StartupStages.FailureTracker.HasAnyDependencyFailed` | src/core/failure_tracker.hpp:26-42 | Holds exactly if one of the entries of the extension in the given graph is marked |
| `StartupStages.LoadingStage.Execute` | src/core/stages_impl.hpp:443-505 | Afterwards every plugin's module is the last one in front of it that was loaded for its language, and it has its language module; exactly the resolved extensions are processed, each with its result; the counters are exact; the log shows the call for each extension and its answer, in list order; skipped are exactly those with a marked entry, and what is marked is exact |
| `StartupStages.LoadIs` | src/core/stages_impl.hpp:457-504 | A module whose assembly gives a language module is initialized by one call, and a plugin loaded by one call on the address of the last module in front of it that provides its language; the extension failed exactly if the answer says so; there is no call exactly if there is no such address, and then it failed, too |
| `StartupStages.AddressProvided` | src/core/stages_impl.hpp:472-481 | The address that is provided for a language is that of the last module that provides it, and zero exactly if none does |
| `StartupStages.Stage.TrackedOne` | src/core/stages_impl.hpp:381-436 | Processing one more extension keeps the record of calls, of skipped extensions and of marks exact |
| `StartupStages.LoadingStage.DoProcessItem` | src/core/stages_impl.hpp:457-504 | A plugin is loaded with the last module in front of it that was loaded for the plugin's language, if any; a module is running at once, and is from then on the one for its language |
| `StartupStages.LoadingStage.RemembersLoaded` | src/core/stages_impl.hpp:457-504 | After a module was entered under its language the table has for each language the last module that was loaded for it |
| `StartupStages.Stage.CountedOne` | src/core/pipeline.hpp:284-311 | Counting one more item keeps the counters equal to the numbers of items that succeeded, and that failed, were skipped or are corrupted |
| `StartupStages.ExportingStage.Setup` | src/core/stages_impl.hpp:526-536 | Collects exactly the running modules, in list order, all of which have a language module |
| `StartupStages.ExportingStage.Execute` | src/core/stages_impl.hpp:511-558 | Exactly the loaded plugins are processed and end up exported, failed or skipped, with exact counters; for each that is not skipped and has an export, one call for each running module, in list order, up to the first that refuses, and it failed exactly if one refused; skipped are exactly those with a marked entry |
| `StartupStages.StartingStage.Execute` | src/core/stages_impl.hpp:564-597 | Exactly the exported plugins are processed and end up running, failed or skipped, with exact counters; for each that is not skipped and has a start, exactly one call, in list order, and it failed exactly if the answer was a refusal; skipped are exactly those with a marked entry |
| `StartupRuns.LoadingProgress` | src/core/stages_impl.hpp:457-504 | After loading, the calls for every extension are known from what the extensions are like, and which were skipped; those to load stay first and in load order |
| `StartupRuns.ExportingProgress` | src/core/stages_impl.hpp:538-557 | The same after exporting, together with the calls for loading |
| `StartupRuns.StartingProgress` | src/core/stages_impl.hpp:579-597 | The same after starting, together with the calls of both stages before |
| `StartupRuns.StatesAre` | src/core/stages_impl.hpp:149-198 | Without a failure an extension is disabled, unresolved or running exactly as whitelist, blacklist, platforms and load order say, has the manifest that is on disk, and the running ones come first, in load order |
| `StartupRuns.CallsAre` | src/core/stages_impl.hpp:457-597 | If all stages were run, each extension to load was initialized or loaded by one call that was answered with its methods, on the address of its own or of the last module in front of it that provides its language; each plugin that has an export got one accepted call for each running module; each that has a start and was not skipped got one call, and failed exactly if that was refused |
| `StartupRuns.LoadsAre` | src/core/stages_impl.hpp:457-504 | If loading was the last stage, the call for each extension, if there was one, its answer, and that it failed exactly without a call or without methods |
| `StartupRuns.ExportsAre` | src/core/stages_impl.hpp:538-557 | If exporting was the last stage, the calls for each plugin, one for each running module up to the first that refused, and that it failed exactly if one did |
| `StartupRuns.SkipsAre` | src/core/stages_impl.hpp:381-436 | In the last stage an extension was skipped exactly if something in its entries in the one graph is an extension in front of it that was skipped or failed, or an entry, in the other graph, of one in front of it that failed |
| `ExtensionResolution.SelectedPartition` | src/core/stages_impl.hpp:149-198 | Every extension is either filtered or excluded, and none twice |
| `ExtensionResolution.FirstOccurrencesInOrder` | src/core/stages_impl.hpp:260-269 | What is taken from a load order with duplicates and unknown ids is each known id once, in the order of first mention |
| `ExtensionResolution.ResolutionStage.FilterByPolicy` | src/core/stages_impl.hpp:148-198 | Splits by state, lists and platform, each part in the old order, with the state that says so |
| `ExtensionResolution.ResolutionStage.TakeInOrder` | src/core/stages_impl.hpp:260-269 | Takes exactly the extensions that the load order names, each once and resolved, in that order |
| `ExtensionResolution.ResolutionStage.TakeRest` | src/core/stages_impl.hpp:271-287 | Takes exactly the others, each once and unresolved, in whatever order |
| `ExtensionResolution.ResolutionStage.BuildResultInOrder` | src/core/stages_impl.hpp:247-295 | Resolved extensions in load order, then unresolved, then excluded ones, none lost and none doubled |
| `ExtensionResolution.ResolutionStage.ProcessAll` | src/core/stages_impl.hpp:115-145 | On every exit the extensions are a permutation of those before, and each has the state its policy and the load order give it; it succeeds exactly if some are filtered and the resolver answers a valid load order that is not empty, and then they are in load order; said outright: what was parsed is disabled exactly if there is a whitelist without it, a blacklist with it, or it names platforms and not this one; the others are resolved exactly if the load order names them |
| `ExtensionResolution.ResolvedComeFirst` | src/core/stages_impl.hpp:260-294 | On success the resolved extensions form a prefix, ordered by their first mention in the load order |
| `ManagerModel.ParseItem` | src/core/stages_impl.hpp:43-59 | The extension is parsed, with the manifest that is on disk, or corrupted if that cannot be read or is not valid |
| `ManagerModel.ExecuteParsing` | src/core/pipeline.hpp:226-259 | Exactly the discovered extensions are parsed and end up parsed or corrupted; the counters are exact; without a failure all are parsed |
| `ManagerModel.ParsingInOrder` | src/core/pipeline.hpp:226-259 | Parsing one extension after the other has the items, failures and work of the tasks taken in order |
| `ManagerModel.ParsingInterleaved` | src/core/pipeline.hpp:226-259 | However the steps of the parsing tasks interleave, a complete run leaves the extensions and counters that parsing one after the other leaves |
| `ManagerModel.DiscoverExtensions` | src/core/manager.cpp:328-335 | There is one extension for each path of a module or plugin, in order, with the ids 0, 1, and so on, the kind of the path and what is on disk there |
| `ManagerModel.StageReaches` | src/core/pipeline.hpp:160-175 | A stage without a failure brings every extension to where the next stage needs it |
| `ManagerModel.AfterResolution` | src/core/stages_impl.hpp:115-145 | After a resolution that succeeds every extension is resolved, unresolved or disabled, the resolved ones first and in load order |
| `ManagerModel.Manager.ExecuteStages` | src/core/pipeline.hpp:149-183 | The extensions are the same ones afterwards; without a failure each is running, disabled or unresolved |
| `ManagerModel.Manager.ExecuteStage` | src/core/pipeline.hpp:186-224 | Every stage keeps what the manager relies on, failures or not |
| `ManagerModel.Manager.ExecuteResolution` | src/core/pipeline.hpp:261-278 | All extensions count as failed, with one error, or none does; the extensions are the same ones, and on success resolved ones come first, in load order |
| `ManagerModel.Manager.Initialize` | src/core/manager.cpp:56-173 | The stages are run up to the first that counts a failure; it succeeds exactly if none does, and else reports how many; if it succeeds, the manifests are those on disk, every extension is running, disabled or unresolved exactly as policy and load order say, the running ones first and in load order, and the log shows exactly the calls: one accepted initialization, load or start for each extension that has it, and one accepted export for each running module; if it fails, the calls and states are those that `StartupRuns.Progress` describes; a second call fails and changes nothing |
| `ManagerModel.Manager.Update` | src/core/manager.cpp:175-212 | Calls exactly the updates of running extensions that have one, once and in order, and changes no extension |
| `ManagerModel.EndsThenShutdowns` | src/core/manager.cpp:223-278 | The first part of the calls of a termination ends plugins only, the second shuts modules down only |
| `ManagerModel.EndsAre` | src/core/manager.cpp:223-250 | The ends of a termination, one list for each extension, from the last to the first: one exactly for a running plugin that has an end |
| `ManagerModel.ShutdownsAre` | src/core/manager.cpp:252-278 | The shutdowns of a termination, one list for each extension, from the last to the first: one exactly for a running module with a language module |
| `ManagerModel.UpdatesAre` | src/core/manager.cpp:185-206 | The calls of an update, one list for each extension, in order: an update exactly for a running one that has one |
| `ManagerModel.NobodyRefersTo` | src/core/manager.cpp:252-278 | When only extensions in front of one still refer to modules, none refers to that one |
| `ManagerModel.Manager.EndAll` | src/core/manager.cpp:223-250 | Every running extension is ended, the last one first, with exactly one call for each plugin that has an end |
| `ManagerModel.Manager.UnloadAt` | src/core/manager.cpp:252-278 | A module can be unloaded because nothing refers to it any more |
| `ManagerModel.Manager.UnloadAll` | src/core/manager.cpp:252-278 | Every ended extension is unloaded, the last one first, and each module shut down once; for each shutdown it is logged whether its address is still held, which is so exactly if a plugin in front of the module has that address |
| `ManagerModel.Manager.Terminate` | src/core/manager.cpp:214-281 | All plugins are ended before any module is shut down, each by one call and the last one first; each shutdown finds its address held exactly if, before the call, a plugin in front of the module has it; each extension becomes what ending and then unloading makes of it; without initialization nothing happens; said outright: one end for each running plugin that has one, one shutdown for each running module with a language module, the last extension first in both |
| `ManagerModel.HeldOnlyInFront` | src/core/manager.cpp:252-278 | When the extensions behind a module are unloaded, its address is held exactly if a plugin in front of it has it |
| `ManagerModel.HeldShutdowns` | src/core/manager.cpp:252-278 | The shutdowns of a termination that find their address held are exactly those of modules with a plugin in front that has the address |
| `ManagerModel.AddressHeldInFront` | src/core/manager.cpp:252-278 | As the stages leave the list, a plugin in front of a module has its address exactly if another module, in front of that plugin, has the same address |
| `ManagerModel.SharedLanguageModule` | src/core/manager.cpp:252-278 | Two modules that share a language module, with a plugin of the first between them: the second one's shutdown finds the address held, the first one's does not |
| `ManagerModel.Run` | src/core/manager.cpp:56-281 | In any sequence of calls the manager stays valid, and every extension that any of the calls discovered makes at most fifteen changes of state, all valid |
| `TransformRuns.StepKeeps` | src/core/pipeline.hpp:237-253 | Every step of every task keeps what counters, errors and items have to do with each other |
| `TransformRuns.EveryCompleteRun` | src/core/pipeline.hpp:226-259 | However the steps interleave, items and counters are those of the sequential run, and there is one error for each failed item |
| `TransformRuns.WorkSplits` | src/core/pipeline.hpp:255-258 | Successes and failures together are the items that should be processed |
| `TransformRuns.RunsEnd` | src/core/pipeline.hpp:255 | No run makes more than three steps for each item |
| `TransformRuns.CanFinish` | src/core/pipeline.hpp:255 | From any state all tasks can finish |
| `VariantTree.TreeKeepsOrder` | include/plg/variant.hpp:272-338 | At every point of the fold, what has been built and what is still to be taken give the leaves of the final tree in order |
| `VariantTree.GetFindsLeaf` | include/plg/variant.hpp:184-258 | Following the sizes of the subtrees leads to the leaf with the given number |
| `VariantTree.GetReachesAlternative` | include/plg/variant.hpp:245-338 | For every non-empty list the tree has its length, its leaves are the list, and an index reaches the alternative at it |
| `VariantTree.RoutesDiffer` | include/plg/variant.hpp:216-238 | Different indices initialize different members, even for equal types |
| `VariantTree.RouteReachesGet` | include/plg/variant.hpp:184-238 | What is constructed at an index is what get finds there |
| `VariantTree.DepthIsLogarithmic` | include/plg/variant.hpp:280-338 | The tree of n alternatives has at most ceil(log2 n) levels, or one, and the storage one more |
| `VariantTree.CeilLog2IsLeast` | include/plg/variant.hpp:280-338 | The bound is the least exponent of two that reaches n |

## Left out

- Contexts and wording of error messages, extension errors and warnings, timings, statistics, logs and reports.
- Null entries in a manifest's lists of definitions; the schema excludes them.
- ManifestResolution.Manifest.Resolve: the order in which errors are found is that of an arbitrary traversal of the table, as with a hash map; which of several errors is reported is not stated.
- Wide characters, big-endian layout, iterator and substring overloads of the string operations, moves and swaps of strings, inserting copies of a character by position, hashing and formatting.
- StringModel.BasicString.constructor: assumes an allocator that hands out at most 2^63 - 9 characters, the largest size with its terminator, because the source is not right for others, as StringModel.BasicString.LimitKeepsCapacity and FullBeyondLargestSize show.
- Allocators that return more than was asked for, allocator propagation, and exceptions thrown by the elements of a vector; without them the guards that destroy half-built ranges never act, except where a length error is raised, which is modelled.
- The copying of trivially relocatable elements as bytes, which relocates as the modelled loop does.
- Inserting an rvalue into a vector (the shift is the same, and the value does not alias), assigning, moving and swapping vectors, iterators, `emplace_front` and the recentring branches of the split buffer's `emplace_back`, which a vector never reaches.
- `inplace_vector`, conversions between numbers and strings, configuration, the service locator and the JSON schema.
- The output object after a version or range failed to parse, which is half filled.
- Text behind a range: the source does not look at it, and `SemverRangeParser.ParseRanges` accepts it, too.
- SemverOrder.ComparesByPrecedence: for identifiers that are short enough, as those of all texts of at most 2^31 + 6 characters are; SemverOrder.ShortTextsCompareRight shows that no greater bound on the texts would do. Total preorder and intervals are stated for the same versions.
- The magnitude of the comparison of alphanumeric identifiers, of which the library promises the sign only.
- The dependencies that the resolution adds for languages, which only the resolver reads; its answer is a parameter here.
- That dependents of a failed extension are skipped: the source asks its tracker with the graph of dependents, and marks what the graph of dependencies has, so this is not a property of the code; StartupRuns.SkipsAre says exactly what is skipped.
- What a failed initialization leaves loaded: the source does not unload it, and the next one starts with new extensions.
- Method data, user data, assemblies and their cache, and the hooks of an extension lifecycle listener.
- Listing directories and reading files; the paths found and what is there are parameters.
- The manager runs its parsing stage in one order here; `ManagerModel.ParsingInterleaved` shows that no interleaving makes a difference.
- Concurrent calls of the manager, which its mutex excludes.
- Emplacing into, resetting, swapping and comparing variants at run time.
