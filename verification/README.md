# BionicIcons startup override resolver, in Dafny

BionicIcons is a RimWorld mod that gives bionic body parts recognisable icons.
At game start, the static constructor of the class `BionicIcons` does four things:

1. It groups the texture-override rules (`BionicIconsTextureDef`) by the texture path they replace.
2. It sorts the icon rules (`BionicIconsIconDef`). Rules with a `nameContains` filter come first, then the rest, each group by `defName`. It then spreads the sorted rules over the body parts they name.
3. It patches every thing that an icon rule names directly with the rule's icon, in white.
4. It tries every recipe, fixed body part, ingredient and allowed thing through `processDef`:
   - a gate: the thing is a tech hediff with graphic data, its texture has rules, and the body part has icons;
   - the first icon rule whose name and solid/soft filters pass;
   - the first texture rule whose name and category filters pass, which gives the colour.

`replace` then overwrites the thing's graphic data, its graphic and its icon colour, and, when a texture rule is applied, the global mask path. A `processed` set makes sure each thing is patched at most once.

The model has six modules:

- `Defs` (defs.dfy): the records.
  - The thing, graphic-data, recipe, rule and hediff definitions are datatypes.
  - Colours, vectors, shaders and graphic classes are opaque values.
- `Strings` (strings.dfy): substring search and the order on defNames.
- `RuleIndex` (rule_index.dfy): the two indexes as left folds and the icon sort, with what they contain and in which order.
- `Resolution` (resolution.dfy): `processDef` and `replace`.
  - The two scans are pure first-match functions (`FirstIcon`, `FirstColor`).
  - The loops `ScanIcons` and `ScanColors` are proved to compute them.
  - `Resolve` is the decision `processDef` makes.
  - `Replaced` is the thing `replace` leaves behind.
- `Startup` (startup.dfy): the constructor as a fold of patch steps over a state of things, mask path, `processed` set and patch log.
  - It covers the direct patches first, then the recipe attempts.
  - It proves at-most-once and first-success-wins for the whole run.
- `BionicIcons` (bionic_icons.dfy): the class itself. Its fields are the two dictionaries, the mask path and the thing definitions, and its methods are the source's loops. Each method is proved to leave exactly the state the matching fold in `Startup`/`RuleIndex` describes, so the lemmas about those folds hold of the object the constructor builds.

Three facts about the code are worth stating plainly:

- The sort key at line 39 (`nameContains == null ? 1 : 0`, ascending) puts rules with a `nameContains` filter first.
- A direct patch (lines 62-70) never consults the texture index; it always uses white and no texture rule.
- Where no icon rule names an existing thing without graphic data, the constructor as written cannot throw and computes exactly the corrected run (`Startup.StartupAsWrittenAgrees`), so the theorems about `Startup.StartupRun` hold of the source there.

## Model

| member | source | states |
|---|---|---|
| Strings.Contains | 1.1/Source/BionicIcons.cs:109 | `String.Contains` as a recursive substring test (no contract of its own; `Strings.ContainsAt` characterises it) |
| Strings.ContainsAt | 1.1/Source/BionicIcons.cs:109 | `Contains(s, sub)` holds exactly when `sub` occurs at some position of `s` (ordinal substring search) |
| Strings.NameLe | 1.1/Source/BionicIcons.cs:39 | the ordinal order standing in for the defName comparer (no contract; the four `NameLe…` lemmas prove it a total order) |
| Strings.NameLeReflexive | 1.1/Source/BionicIcons.cs:39 | the order on defNames is reflexive |
| Strings.NameLeTotal | 1.1/Source/BionicIcons.cs:39 | any two defNames are comparable |
| Strings.NameLeTransitive | 1.1/Source/BionicIcons.cs:39 | the order on defNames is transitive |
| Strings.NameLeAntisymmetric | 1.1/Source/BionicIcons.cs:39 | names ordered both ways are equal, so the order is a total order |
| RuleIndex.AddTexture | 1.1/Source/BionicIcons.cs:29-35 | one iteration of the texture loop: create the list when missing, then append the rule (characterised through `RuleIndex.TextureIndexGroups`) |
| RuleIndex.TextureIndexFrom | 1.1/Source/BionicIcons.cs:25-36 | the texture loop as a left fold over the rules (no contract; `RuleIndex.TextureIndexGroups` characterises it) |
| RuleIndex.TextureIndex | 1.1/Source/BionicIcons.cs:25-36 | the texture index built from an empty dictionary (no contract; `RuleIndex.TextureIndexSpec` characterises it) |
| RuleIndex.WithTexture | 1.1/Source/BionicIcons.cs:25-36 | the rules for a texture are exactly the rules whose `texture` is that path |
| RuleIndex.TextureIndexGroups | 1.1/Source/BionicIcons.cs:25-36 | after the loop, each key's list is its old list followed by the rules with that texture, in declaration order; a key is present iff it was before or some rule names it |
| RuleIndex.TextureIndexSpec | 1.1/Source/BionicIcons.cs:25-36 | the texture index has a key exactly for each texture some rule names; its list is exactly those rules in declaration order and is never empty |
| RuleIndex.IconKeyLe | 1.1/Source/BionicIcons.cs:39 | the key order of `OrderBy(nameContains == null ? 1 : 0).ThenBy(defName)` (no contract; `IconKeyLe…` lemmas prove it a total preorder) |
| RuleIndex.IconKey | 1.1/Source/BionicIcons.cs:39 | the sort key of a rule: whether it lacks a name filter, and its defName (no contract; used to state stability) |
| RuleIndex.IconKeyLeReflexive | 1.1/Source/BionicIcons.cs:39 | the sort key order (filtered first, then defName) is reflexive |
| RuleIndex.IconKeyLeTotal | 1.1/Source/BionicIcons.cs:39 | any two icon rules are comparable by the sort key |
| RuleIndex.IconKeyLeTransitive | 1.1/Source/BionicIcons.cs:39 | the sort key order is transitive |
| RuleIndex.InsertIcon | 1.1/Source/BionicIcons.cs:39 | inserts a rule before the first rule it is not greater than (no contract; `RuleIndex.InsertIconOrdered` and `RuleIndex.InsertIconStable` characterise it) |
| RuleIndex.SortIcons | 1.1/Source/BionicIcons.cs:39 | the stable sort of line 39 as an insertion sort (no contract; `RuleIndex.SortIconsOrdered` and `RuleIndex.SortIconsStable` characterise it) |
| RuleIndex.InsertIconOrdered | 1.1/Source/BionicIcons.cs:39 | inserting a rule into an ordered list keeps it ordered and adds exactly that rule |
| RuleIndex.SortIconsOrdered | 1.1/Source/BionicIcons.cs:39 | the sorted rules are in key order (all filtered rules before all unfiltered, each group by defName) and are a permutation of the input |
| RuleIndex.InsertIconStable | 1.1/Source/BionicIcons.cs:39 | insertion keeps the relative order of rules with equal keys |
| RuleIndex.SortIconsStable | 1.1/Source/BionicIcons.cs:39 | the sort is stable: rules with equal keys keep their declaration order, as `OrderBy`/`ThenBy` promise |
| RuleIndex.AddToBuckets | 1.1/Source/BionicIcons.cs:47-60 | the body-part loop for one rule as a fold (no contract; `RuleIndex.AddToBucketsGet` characterises it) |
| RuleIndex.IconIndexFrom | 1.1/Source/BionicIcons.cs:40-60 | the icon loop's bucket building as a left fold over the sorted rules (no contract; `RuleIndex.IconIndexBuckets` characterises it) |
| RuleIndex.IconIndex | 1.1/Source/BionicIcons.cs:40-60 | the icon index built from an empty dictionary (no contract; `RuleIndex.IconIndexSpec` characterises it) |
| RuleIndex.Occurrences | 1.1/Source/BionicIcons.cs:47 | a body part is named a positive number of times iff the rule names it |
| RuleIndex.Bucket | 1.1/Source/BionicIcons.cs:47-60 | a rule is in a body part's bucket iff it is among the rules, the body part exists and the rule names it |
| RuleIndex.AddToBucketsGet | 1.1/Source/BionicIcons.cs:47-60 | one rule's pass appends it once per resolving occurrence of each body part, and creates a bucket only for a resolving name |
| RuleIndex.AddToBucketsKeys | 1.1/Source/BionicIcons.cs:47-60 | after one rule's pass a body part has a bucket exactly when it had one before, or it resolves and the rule lists it |
| RuleIndex.IconIndexBuckets | 1.1/Source/BionicIcons.cs:40-60 | after the loop, each body part's bucket is its old bucket followed by the bucket of the processed rules |
| RuleIndex.BucketOrdered | 1.1/Source/BionicIcons.cs:38-60 | a bucket built from ordered rules is ordered: filtered rules before unfiltered ones, each group by defName |
| RuleIndex.BucketCount | 1.1/Source/BionicIcons.cs:47-60 | a rule occurs in a bucket as often as it occurs among the rules times the number of times it names that body part: nothing is deduplicated |
| RuleIndex.IconIndexSpec | 1.1/Source/BionicIcons.cs:38-60 | the icon index has a key exactly for each existing body part some rule names; its bucket holds exactly those rules, is never empty, and is in sort order |
| Resolution.NamePasses | 1.1/Source/BionicIcons.cs:109 | the `nameContains` filter: no filter, or the thing's `defName` contains it (no contract; the filter that `Resolution.FirstIcon`, `Resolution.FirstColor` and `Resolution.Resolve` are stated against) |
| Resolution.IsSolid | 1.1/Source/BionicIcons.cs:112 | the `isSolid` flag of the part the recipe adds (no contract; the filter that `Resolution.FirstIcon` and `Resolution.Resolve` are stated against) |
| Resolution.IconPasses | 1.1/Source/BionicIcons.cs:109-116 | the name filter, plus the solid/soft filter only when the recipe sets `addsHediff` (no contract; the filter that `Resolution.FirstIcon` and `Resolution.Resolve` are stated against) |
| Resolution.ColorPasses | 1.1/Source/BionicIcons.cs:127-128 | the name filter and the category filter, which a null `thingCategories` passes (no contract; the filter that `Resolution.FirstColor` and `Resolution.Resolve` are stated against) |
| Resolution.FirstIcon | 1.1/Source/BionicIcons.cs:106-120 | the position returned is the first whose icon rule passes the name filter and, when the recipe adds a hediff, the solid/soft filters; none is returned only when no rule passes |
| Resolution.ScanIcons | 1.1/Source/BionicIcons.cs:106-120 | the loop returns no texture iff no rule passes, and otherwise the texture of the first rule that passes |
| Resolution.FirstColor | 1.1/Source/BionicIcons.cs:123-133 | the position returned is the first whose texture rule passes the name and category filters; none only when no rule passes |
| Resolution.ScanColors | 1.1/Source/BionicIcons.cs:123-133 | the loop returns no rule and white iff no rule passes, and otherwise the first passing rule and its colour |
| Resolution.Eligible | 1.1/Source/BionicIcons.cs:97-104 | the gate of `processDef` (no contract; `Resolution.Resolve` states that failing it gives no patch) |
| Resolution.Resolve | 1.1/Source/BionicIcons.cs:95-136 | no patch when the thing is not a tech hediff, has no graphic data, its texture has no rules or the body part has no icons; otherwise a patch iff some icon passes, with the first passing icon's texture, and the first passing colour rule and its colour, or white and no rule |
| Resolution.Replaced | 1.1/Source/BionicIcons.cs:139-163 | the patched thing: with a texture rule a masked graphic of the rule's replacement in its two colours with the cutout-complex shader; without one a plain graphic of the icon in the given colour; both at unit size, initialised, with `uiIconColor` the given colour, defName, tech flag and categories unchanged |
| Resolution.MaskAfter | 1.1/Source/BionicIcons.cs:149 | the global mask path after `replace`: the icon when a texture rule is applied, otherwise unchanged (no contract; used in `BionicIcons.BionicIcons.Replace`) |
| Startup.Apply | 1.1/Source/BionicIcons.cs:68-69 | `replace` followed by `processed.Add`: the thing becomes `Replaced`, the mask path moves, the name is processed and logged (no contract; `Startup.RunStepsTracked` and `Startup.RunStepsWinner` characterise it) |
| Startup.TryStep | 1.1/Source/BionicIcons.cs:62-70 | one step of the driver: skip unknown or processed things, else patch when the step succeeds (no contract; characterised through `Startup.RunStepsWinner`) |
| Startup.RunSteps | 1.1/Source/BionicIcons.cs:18-93 | the driver as a left fold of steps (no contract; `Startup.RunStepsAppend`, `Startup.RunStepsTracked` and `Startup.RunStepsWinner` characterise it) |
| Startup.DirectSteps | 1.1/Source/BionicIcons.cs:40-70 | the direct patch steps of the sorted icon rules, in order (no contract; `Startup.DirectStepsAreDirect`) |
| Startup.ThingSteps | 1.1/Source/BionicIcons.cs:81 | one attempt per allowed thing, in order (no contract) |
| Startup.IngredientSteps | 1.1/Source/BionicIcons.cs:79 | the attempts of every ingredient, in order (no contract) |
| Startup.PartSteps | 1.1/Source/BionicIcons.cs:77 | the attempts for every fixed body part, in order (no contract) |
| Startup.StepsOfRecipe | 1.1/Source/BionicIcons.cs:75 | nothing for a recipe without fixed body parts (no contract) |
| Startup.RecipeSteps | 1.1/Source/BionicIcons.cs:73-92 | the attempts of every recipe, in order (no contract; `Startup.RecipeStepsAreAttempts`) |
| Startup.StartupRun | 1.1/Source/BionicIcons.cs:18-93 | the whole constructor: both indexes, then direct steps followed by recipe attempts (no contract; `Startup.StartupAtMostOnce` and `Startup.StartupWinner` characterise it) |
| Startup.StepPatch | 1.1/Source/BionicIcons.cs:62-70 | a direct step patches in white with the rule's texture and no texture rule, iff the thing has graphic data; a step only ever patches a thing with graphic data |
| Startup.RunStepsAppend | 1.1/Source/BionicIcons.cs:40-92 | running two step lists one after the other is running their concatenation |
| Startup.RunStepsTracked | 1.1/Source/BionicIcons.cs:21-92 | the run keeps the `processed` set equal to the set of patched things and never patches a thing twice; it keeps the thing names, only grows `processed` and only extends the log |
| Startup.FirstSuccess | 1.1/Source/BionicIcons.cs:62-92 | the step returned is the first that would patch the thing; none only when no step would |
| Startup.RunStepsWinner | 1.1/Source/BionicIcons.cs:62-92 | an unprocessed thing ends either unchanged (no step would patch it) or patched by the first step that would |
| Startup.FirstSuccessAt | 1.1/Source/BionicIcons.cs:62-92 | a step that succeeds with no success before it is the first success |
| Startup.FirstSuccessAppendLeft | 1.1/Source/BionicIcons.cs:62-92 | a first success among the direct patches stays the first success once the recipe attempts follow |
| Startup.FirstSuccessAppendRight | 1.1/Source/BionicIcons.cs:62-92 | with no successful direct patch, the first success is the first successful recipe attempt, shifted past the direct patches |
| Startup.FirstSuccessAppendNone | 1.1/Source/BionicIcons.cs:62-92 | with no success in either list, there is none in the whole run |
| Startup.StartupAtMostOnce | 1.1/Source/BionicIcons.cs:18-93 | over the whole constructor every thing is handed to `replace` at most once, `processed` is exactly the set of patched things, and no thing is added or removed |
| Startup.TwoPhaseWinner | 1.1/Source/BionicIcons.cs:40-92 | after direct patches followed by recipe attempts, an unprocessed thing is patched by its first successful direct patch, else by its first successful attempt, else unchanged |
| Startup.TwoPhaseDirect | 1.1/Source/BionicIcons.cs:62-70 | a thing whose first success is a direct patch ends with that icon in white, whatever the recipes would do |
| Startup.TwoPhaseAttempt | 1.1/Source/BionicIcons.cs:73-92 | a thing with no successful direct patch whose first successful attempt is given ends as `processDef` resolves that attempt |
| Startup.DirectWinner | 1.1/Source/BionicIcons.cs:62-70 | when the first success for a thing is a direct patch, the thing ends with that icon in white |
| Startup.AttemptWinner | 1.1/Source/BionicIcons.cs:84-88 | when the first success for a thing is a `processDef` attempt, that attempt resolves to a patch and the thing ends with it |
| Startup.StartupWinner | 1.1/Source/BionicIcons.cs:18-93 | a thing with graphic data that an icon rule names is patched by the first such rule in sort order, in white; otherwise by the first successful recipe attempt in recipe, body part, ingredient, allowed-thing order; otherwise it is unchanged |
| Startup.DirectStepsAreDirect | 1.1/Source/BionicIcons.cs:62-70 | the icon pass contributes only direct patches |
| Startup.RecipeStepsAreAttempts | 1.1/Source/BionicIcons.cs:73-92 | the recipe pass contributes only `processDef` attempts |
| Startup.ReplaceAsWritten | 1.1/Source/BionicIcons.cs:139-158 | `replace` as written throws iff the thing has no graphic data (no contract; characterised through `Startup.AsWrittenAgrees` and `Startup.DirectPatchWithoutGraphicDataAborts`) |
| Startup.TryStepAsWritten | 1.1/Source/BionicIcons.cs:62-70 | one step as written, where a direct patch on a thing without graphic data throws (no contract; exhibited by `Startup.DirectPatchWithoutGraphicDataAborts`) |
| Startup.RunStepsAsWritten | 1.1/Source/BionicIcons.cs:18-93 | the driver as written, aborted by the first throw (no contract; exhibited by `Startup.DirectPatchWithoutGraphicDataAborts`) |
| Startup.DirectPatchWithoutGraphicDataAborts | 1.1/Source/BionicIcons.cs:62-70 | an icon rule naming a thing without graphic data aborts the constructor as written, while the corrected run skips that thing and still patches the next one |
| Startup.AsWrittenAgrees | 1.1/Source/BionicIcons.cs:18-93 | when every direct step that names an existing thing names one with graphic data, the driver as written does not throw and ends in exactly the state of the corrected run; no step removes a thing or takes its graphic data away |
| Startup.DirectStepsTargets | 1.1/Source/BionicIcons.cs:62-70 | every direct step names a thing that some icon rule's `thingDef` names |
| Startup.StartupAsWrittenAgrees | 1.1/Source/BionicIcons.cs:18-93 | when every icon rule that names an existing thing names one with graphic data, the whole constructor as written ends in the state `Startup.StartupRun` describes, so the theorems about it hold of the source on those inputs |
| Startup.StartupTargetsDrawn | 1.1/Source/BionicIcons.cs:40-93 | when every icon rule naming an existing thing names one with graphic data, every direct step of the constructor that names an existing thing names one with graphic data |
| BionicIcons.BionicIcons.constructor | 1.1/Source/BionicIcons.cs:18-93 | the dictionaries, the things, the mask path and the patch log the constructor leaves are exactly those of the startup run |
| BionicIcons.BionicIcons.IndexTextures | 1.1/Source/BionicIcons.cs:25-36 | the texture loop leaves the texture index fold and changes nothing else |
| BionicIcons.BionicIcons.IndexIcons | 1.1/Source/BionicIcons.cs:40-71 | the icon loop leaves the icon index fold and the state of the direct patches run in sort order |
| BionicIcons.BionicIcons.AddIcon | 1.1/Source/BionicIcons.cs:47-60 | one icon rule is appended to the bucket of each of its existing body parts, as the bucket fold says, and nothing else changes |
| BionicIcons.BionicIcons.PatchDirect | 1.1/Source/BionicIcons.cs:62-70 | the direct patch of one icon rule leaves exactly the state of one direct step: unknown, processed or graphic-less things are skipped |
| BionicIcons.BionicIcons.ScanRecipes | 1.1/Source/BionicIcons.cs:73-92 | the recipe loop leaves the state of running every recipe attempt in order |
| BionicIcons.BionicIcons.ScanParts | 1.1/Source/BionicIcons.cs:75-91 | a recipe without fixed body parts does nothing; otherwise each body part is tried in order |
| BionicIcons.BionicIcons.ScanIngredients | 1.1/Source/BionicIcons.cs:79-90 | every allowed thing of every ingredient is tried in order |
| BionicIcons.BionicIcons.ScanAllowed | 1.1/Source/BionicIcons.cs:81-89 | every thing one ingredient allows is tried in order |
| BionicIcons.BionicIcons.TryThing | 1.1/Source/BionicIcons.cs:84-88 | a processed thing is skipped; otherwise it becomes processed exactly when `processDef` patches it |
| BionicIcons.BionicIcons.ProcessDef | 1.1/Source/BionicIcons.cs:95-137 | returns true iff `Resolve` gives a patch; then the thing becomes `Replaced`, the mask path is updated and the thing is logged; otherwise nothing changes |
| BionicIcons.BionicIcons.Replace | 1.1/Source/BionicIcons.cs:139-163 | the thing becomes `Replaced`, the mask path is set to the icon iff a texture rule is applied, and nothing else changes |

## Left out

- Loading from `DefDatabase` and the XML files is not modelled. The rule lists, recipes and thing definitions are inputs, and the body parts that exist are a set of names. `GetNamedSilentFail` is membership in that set or map.
- The reflective `GraphicData.Init` call and the read-back of `Graphic`, `MatSingle` and `mainTexture` (lines 14, 160-162) are foreign engine calls. They are modelled as an opaque "initialised" graphic that records the graphic data and, for the masked class, the mask path it was built with. `uiIcon` is not modelled.
- Unity `Color`, `Vector2`, shader and graphic-class values are opaque; there is no floating-point arithmetic.
- The culture-sensitive comparer behind `ThenBy(x => x.defName)` is replaced by an ordinal lexicographic total order on characters.
- Null strings are not modelled. A null texture path, icon texture or texture-rule key (which would throw or be treated as "no icon") is not modelled. Names and textures are always strings.
- `BionicIconsIconDef.BodyParts()` is not part of this model. A rule's body-part names are given as a sequence.
- Thing definitions are values in a map keyed by `defName`, not shared objects patched in place. Aliasing between definitions is not captured, and `processed` holds names rather than references. This matters only if two definitions share a name.
- ScanRecipes, ScanParts, ScanIngredients, ScanAllowed, TryThing, ProcessDef and the constructor require that every thing an ingredient filter allows is a known thing definition. `AllowedThingDefs` only ever yields such definitions.
- Startup.RunStepsAsWritten: a throw is modelled as `None`, the loss of the whole run. The patches the source has already applied to thing definitions before the throw are not kept.

## Findings

| source | as written | input that shows it | evidently intended | confidence | as-written member | corrected member |
|---|---|---|---|---|---|---|
| 1.1/Source/BionicIcons.cs:62-70 | a direct patch calls `replace` without checking `graphicData`, and `replace` dereferences it (lines 144/154), throwing a `NullReferenceException` that aborts the static constructor and every later patch | an icon rule whose `thingDef` names a thing definition with no graphic data, followed by any other patch | skip the thing, as `processDef` does at line 98 | medium, not executed | Startup.DirectPatchWithoutGraphicDataAborts | Startup.StepPatch |
